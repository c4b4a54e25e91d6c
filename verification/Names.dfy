/** Domain names and the canonical ordering of section 6.1 of RFC 4034.

A name is the sequence of its labels, root side first and without the empty root label,
so that "is a subdomain of" is "has as a prefix" and the canonical order is the
lexicographic order of the label sequences.  Labels are the octets of the label after
case folding: two names that differ only in case are the same name.
 */
module Names {

  type Label = seq<nat>
  type Name = seq<Label>

  /** The order of two labels: octet by octet, a missing octet sorting first. */
  predicate LabelLess(a: Label, b: Label) {
    if b == [] then false
    else if a == [] then true
    else if a[0] == b[0] then LabelLess(a[1..], b[1..])
    else a[0] < b[0]
  }

  /** The canonical order of names. */
  predicate Less(a: Name, b: Name) {
    if b == [] then false
    else if a == [] then true
    else if a[0] == b[0] then Less(a[1..], b[1..])
    else LabelLess(a[0], b[0])
  }

  predicate AtMost(a: Name, b: Name) {
    a == b || Less(a, b)
  }

  /** `dns_name_issubdomain`: equality counts. */
  predicate Subdomain(a: Name, ancestor: Name) {
    ancestor <= a
  }

  /** The number of labels `dns_name_fullcompare` finds in common, not counting the root. */
  function Common(a: Name, b: Name): (n: nat)
    ensures n <= |a| && n <= |b|
    ensures a[..n] == b[..n]
    ensures n < |a| && n < |b| ==> a[n] != b[n]
  {
    if a == [] || b == [] || a[0] != b[0] then 0
    else
      var n := Common(a[1..], b[1..]);
      assert a[..n + 1] == [a[0]] + a[1..][..n] && b[..n + 1] == [b[0]] + b[1..][..n];
      n + 1
  }

  lemma {:induction false} LabelOrderTotal(a: Label, b: Label)
    ensures a == b || LabelLess(a, b) || LabelLess(b, a)
    ensures !(LabelLess(a, b) && LabelLess(b, a))
    ensures LabelLess(a, b) ==> a != b
  {
    if a != [] && b != [] && a[0] == b[0] {
      LabelOrderTotal(a[1..], b[1..]);
      assert a == [a[0]] + a[1..] && b == [b[0]] + b[1..];
    }
  }

  lemma {:induction false} LabelLessTransitive(a: Label, b: Label, c: Label)
    requires LabelLess(a, b) && LabelLess(b, c)
    ensures LabelLess(a, c)
  {
    if a != [] && a[0] == b[0] && b[0] == c[0] {
      LabelLessTransitive(a[1..], b[1..], c[1..]);
    }
  }

  /** Labels are compared at the first octet in which they differ; a label sorts before its extensions. */
  lemma {:induction false} LabelOrderExactly(a: Label, b: Label, n: nat)
    requires n <= |a| && n <= |b| && a[..n] == b[..n] && (n < |a| && n < |b| ==> a[n] != b[n])
    ensures LabelLess(a, b) <==> (n == |a| && n < |b|) || (n < |a| && n < |b| && a[n] < b[n])
    decreases n
  {
    if n > 0 {
      assert a[0] == a[..n][0] && b[0] == b[..n][0];
      assert a[1..][..n - 1] == a[..n][1..] && b[1..][..n - 1] == b[..n][1..];
      LabelOrderExactly(a[1..], b[1..], n - 1);
    } else if n == |a| && n == |b| {
      assert a == [] && b == [];
    }
  }

  /** Names are compared at the first label, from the root, in which they differ; a name sorts before the
  names below it. */
  lemma {:induction false} OrderExactly(a: Name, b: Name)
    ensures var n := Common(a, b);
            Less(a, b) <==> (n == |a| && n < |b|) || (n < |a| && n < |b| && LabelLess(a[n], b[n]))
  {
    if a != [] && b != [] && a[0] == b[0] {
      OrderExactly(a[1..], b[1..]);
    }
  }

  lemma {:induction false} OrderTotal(a: Name, b: Name)
    ensures a == b || Less(a, b) || Less(b, a)
    ensures !(Less(a, b) && Less(b, a))
    ensures Less(a, b) ==> a != b
  {
    if a != [] && b != [] {
      LabelOrderTotal(a[0], b[0]);
      if a[0] == b[0] {
        OrderTotal(a[1..], b[1..]);
        assert a == [a[0]] + a[1..] && b == [b[0]] + b[1..];
      }
    }
  }

  lemma {:induction false} LessTransitive(a: Name, b: Name, c: Name)
    requires Less(a, b) && Less(b, c)
    ensures Less(a, c)
  {
    if a != [] {
      if a[0] == b[0] && b[0] == c[0] {
        LessTransitive(a[1..], b[1..], c[1..]);
      } else if a[0] != b[0] && b[0] != c[0] {
        LabelLessTransitive(a[0], b[0], c[0]);
        LabelOrderTotal(a[0], c[0]);
      }
    }
  }

  /** An ancestor sorts before its proper descendants. */
  lemma {:induction false} AncestorFirst(p: Name, a: Name)
    requires p <= a
    ensures AtMost(p, a)
    ensures p != a ==> Less(p, a)
  {
    if p != [] {
      AncestorFirst(p[1..], a[1..]);
      assert p == [p[0]] + p[1..] && a == [a[0]] + a[1..];
    }
  }

  /** The names below an ancestor are contiguous in canonical order: the fact on which every
  single-variable filter of a sorted walk rests. */
  lemma {:induction false} SubtreeContiguous(p: Name, a: Name, b: Name, c: Name)
    requires p <= a && p <= c
    requires AtMost(a, b) && AtMost(b, c)
    ensures p <= b
  {
    if p != [] && a != b && b != c {
      if b == [] {
        assert false;
      }
      LabelOrderTotal(b[0], p[0]);
      assert b[0] == p[0];
      assert a == [p[0]] + a[1..] && b == [p[0]] + b[1..] && c == [p[0]] + c[1..] && p == [p[0]] + p[1..];
      SubtreeContiguous(p[1..], a[1..], b[1..], c[1..]);
    }
  }

  /** A common ancestor of two names is no deeper than their common labels. */
  lemma {:induction false} CommonIsDeepest(p: Name, a: Name, b: Name)
    requires p <= a && p <= b
    ensures |p| <= Common(a, b)
  {
  }

  /** Strictly increasing in canonical order. */
  predicate Sorted(names: seq<Name>) {
    forall i, j {:trigger Less(names[i], names[j])} ::
      0 <= i < j < |names| ==> Less(names[i], names[j])
  }
}
