/** The verifier's comparison of expected and found NSEC3 chains.

Salt, owner hash and next hash are octet strings whose lengths are compared first, so they are
represented by their lengths and big-endian values: `memcmp` order is then numeric order. */
module Chains {
  import opened Options
  import Sorting

  /** `struct nsec3_chain_fixed` with the three strings that follow it. */
  datatype Elem = Elem(hash: nat, iterations: nat, saltLength: nat, nextLength: nat,
                       salt: nat, owner: nat, next: nat)

  /** `chain_compare`. */
  predicate Precedes(a: Elem, b: Elem) {
    if a.hash != b.hash then a.hash < b.hash
    else if a.iterations != b.iterations then a.iterations < b.iterations
    else if a.saltLength != b.saltLength then a.saltLength < b.saltLength
    else if a.nextLength != b.nextLength then a.nextLength < b.nextLength
    else if a.salt != b.salt then a.salt < b.salt
    else if a.owner != b.owner then a.owner < b.owner
    else a.next < b.next
  }

  /** `newchain`: the records belong to different chains. */
  predicate NewChain(first: Elem, e: Elem) {
    || first.hash != e.hash || first.iterations != e.iterations || first.saltLength != e.saltLength
    || first.nextLength != e.nextLength || first.salt != e.salt
  }

  /** `checknext`. */
  predicate Links(prev: Elem, e: Elem) {
    prev.next == e.owner
  }

  predicate Ascending(s: seq<Elem>) {
    forall i, j {:trigger Precedes(s[j], s[i])} :: 0 <= i < j < |s| ==> !Precedes(s[j], s[i])
  }

  /** The records of `s` from the start of the chain that holds position `i`. */
  function ChainStart(s: seq<Elem>, i: nat): (k: nat)
    requires i < |s|
    ensures k <= i && !NewChain(s[k], s[i])
    ensures k > 0 ==> NewChain(s[k - 1], s[k])
    ensures forall j :: k <= j <= i ==> !NewChain(s[j], s[i])
  {
    if i > 0 && !NewChain(s[i - 1], s[i]) then ChainStart(s, i - 1) else i
  }

  /** Every record points at the owner of the following record of its chain, and the last record
  of a chain points at the first. */
  ghost predicate Closed(s: seq<Elem>) {
    forall i :: 0 <= i < |s| ==> Closes(s, i)
  }

  predicate Closes(s: seq<Elem>, i: nat)
    requires i < |s|
  {
    if i + 1 < |s| && !NewChain(s[i], s[i + 1]) then Links(s[i], s[i + 1])
    else Links(s[i], s[ChainStart(s, i)])
  }

  /** The links of the first `i` records of which the successor has been seen. */
  ghost predicate ClosedBefore(s: seq<Elem>, i: nat)
    requires i <= |s|
  {
    forall k :: 0 <= k < i ==> Closes(s, k)
  }

  lemma {:induction false} PrecedesTotal(a: Elem, b: Elem)
    ensures a == b || Precedes(a, b) || Precedes(b, a)
    ensures !(Precedes(a, b) && Precedes(b, a))
  {
  }

  lemma {:induction false} PrecedesTransitive(a: Elem, b: Elem, c: Elem)
    requires !Precedes(b, a) && !Precedes(c, b)
    ensures !Precedes(c, a)
  {
  }

  lemma {:induction false} AscendingHeads(s: seq<Elem>, t: seq<Elem>)
    requires s != [] && t != [] && Ascending(s) && t[0] in s && s[0] in t
    ensures !Precedes(t[0], s[0])
  {
    var j :| 0 <= j < |s| && s[j] == t[0];
    PrecedesTotal(s[0], t[0]);
    assert j > 0 ==> !Precedes(s[j], s[0]);
  }

  lemma {:induction false} TailBag(s: seq<Elem>)
    requires s != []
    ensures multiset(s[1..]) == multiset(s) - multiset{s[0]}
  {
    assert s == [s[0]] + s[1..];
  }

  /** A multiset has one ascending listing. */
  lemma {:induction false} AscendingUnique(s: seq<Elem>, t: seq<Elem>)
    requires Ascending(s) && Ascending(t) && multiset(s) == multiset(t)
    ensures s == t
  {
    assert |s| == |multiset(s)| == |multiset(t)| == |t|;
    if s != [] {
      assert s[0] in multiset(t) && t[0] in multiset(s);
      AscendingHeads(s, t);
      AscendingHeads(t, s);
      PrecedesTotal(s[0], t[0]);
      TailBag(s);
      TailBag(t);
      AscendingUnique(s[1..], t[1..]);
      assert s == [s[0]] + s[1..] && t == [t[0]] + t[1..];
    }
  }

  // ----- chains, by their fields

  /** What the records of one chain have in common. */
  datatype ChainKey = ChainKey(hash: nat, iterations: nat, saltLength: nat, nextLength: nat, salt: nat)

  function KeyOf(e: Elem): ChainKey {
    ChainKey(e.hash, e.iterations, e.saltLength, e.nextLength, e.salt)
  }

  /** The records of one chain, in order. */
  function Group(s: seq<Elem>, k: ChainKey): (g: seq<Elem>) {
    if s == [] then []
    else Group(s[..|s| - 1], k) + (if KeyOf(s[|s| - 1]) == k then [s[|s| - 1]] else [])
  }

  /** Each record has the owner of the following one as its next, and the last that of the first. */
  predicate Ring(g: seq<Elem>) {
    forall i :: 0 <= i < |g| ==> RingAt(g, i)
  }

  predicate RingAt(g: seq<Elem>, i: nat)
    requires i < |g|
  {
    g[i].next == if i + 1 < |g| then g[i + 1].owner else g[0].owner
  }

  /** The chain of these parameters closes. */
  predicate ChainRings(s: seq<Elem>, k: ChainKey) {
    Ring(Group(s, k))
  }

  ghost predicate GroupAt(s: seq<Elem>, k: ChainKey, a: nat, b: nat) {
    && a <= b <= |s|
    && forall i :: 0 <= i < |s| ==> (KeyOf(s[i]) == k <==> a <= i < b)
  }

  /** In ascending order the records of a chain lie together. */
  lemma {:induction false} GroupIsSlice(s: seq<Elem>, k: ChainKey) returns (a: nat, b: nat)
    requires Ascending(s)
    ensures GroupAt(s, k, a, b) && Group(s, k) == s[a..b]
  {
    if s == [] {
      return 0, 0;
    }
    var n := |s| - 1;
    a, b := GroupIsSlice(s[..n], k);
    a, b := OneMore(s, k, a, b);
  }

  lemma {:induction false} OneMore(s: seq<Elem>, k: ChainKey, a: nat, b: nat) returns (a': nat, b': nat)
    requires Ascending(s) && s != [] && GroupAt(s[..|s| - 1], k, a, b)
    ensures GroupAt(s, k, a', b')
    ensures s[a'..b'] == s[..|s| - 1][a..b] + (if KeyOf(s[|s| - 1]) == k then [s[|s| - 1]] else [])
  {
    var n := |s| - 1;
    a', b' := a, b;
    assert forall i :: 0 <= i < n ==> s[..n][i] == s[i];
    if KeyOf(s[n]) == k {
      if a == b {
        a' := n;
      } else if b < n {
        SameChainBetween(s[b - 1], s[b], s[n]);
      }
      b' := n + 1;
    }
  }

  lemma {:induction false} SameChainBetween(x: Elem, y: Elem, z: Elem)
    requires KeyOf(x) == KeyOf(z) && !Precedes(y, x) && !Precedes(z, y)
    ensures KeyOf(y) == KeyOf(z)
  {
  }

  lemma {:induction false} StartsGroup(s: seq<Elem>, k: ChainKey, a: nat, b: nat, i: nat)
    requires GroupAt(s, k, a, b) && a <= i < b
    ensures ChainStart(s, i) == a
  {
    var c := ChainStart(s, i);
    assert KeyOf(s[c]) == k;
    assert c > 0 ==> KeyOf(s[c - 1]) != k;
  }

  lemma {:induction false} ClosesInGroup(s: seq<Elem>, k: ChainKey, a: nat, b: nat, i: nat)
    requires GroupAt(s, k, a, b) && a <= i < b
    ensures Closes(s, i) <==> s[i].next == if i + 1 < b then s[i + 1].owner else s[a].owner
  {
    StartsGroup(s, k, a, b, i);
    if i + 1 < |s| {
      assert KeyOf(s[i + 1]) == k <==> i + 1 < b;
    }
  }

  /** The links that are checked are those of the chains, each by itself. */
  lemma {:induction false} ClosedMeansRings(s: seq<Elem>)
    requires Ascending(s)
    ensures Closed(s) <==> forall k :: ChainRings(s, k)
  {
    forall k: ChainKey
      ensures Closed(s) ==> ChainRings(s, k)
    {
      var a, b := GroupIsSlice(s, k);
      RingOfSlice(s, k, a, b);
    }
    if forall k :: ChainRings(s, k) {
      forall i | 0 <= i < |s|
        ensures Closes(s, i)
      {
        var a, b := GroupIsSlice(s, KeyOf(s[i]));
        RingOfSlice(s, KeyOf(s[i]), a, b);
        assert ChainRings(s, KeyOf(s[i]));
      }
    }
  }

  lemma {:induction false} RingOfSlice(s: seq<Elem>, k: ChainKey, a: nat, b: nat)
    requires GroupAt(s, k, a, b)
    ensures Ring(s[a..b]) <==> forall i :: a <= i < b ==> Closes(s, i)
  {
    var g := s[a..b];
    forall i | a <= i < b
      ensures Closes(s, i) <==> RingAt(g, i - a)
    {
      ClosesInGroup(s, k, a, b, i);
    }
    if forall i :: a <= i < b ==> Closes(s, i) {
      forall j | 0 <= j < |g|
        ensures RingAt(g, j)
      {
        assert Closes(s, j + a);
      }
    }
  }

  /** `isc_heap_t` ordered by `chain_compare`, as the ascending listing of its elements. */
  class Heap {
    var elems: seq<Elem>

    constructor ()
      ensures elems == []
    {
      elems := [];
    }

    method Insert(e: Elem)
      requires Ascending(elems)
      modifies this
      ensures Ascending(elems) && multiset(elems) == multiset(old(elems)) + multiset{e}
    {
      Sorting.InsertSorts(Precedes, e, elems);
      elems := Sorting.Insert(Precedes, e, elems);
    }

    /** `isc_heap_element(heap, 1)`. */
    method Top() returns (e: Option<Elem>)
      ensures e == if elems == [] then None else Some(elems[0])
    {
      return if elems == [] then None else Some(elems[0]);
    }

    /** `isc_heap_delete(heap, 1)`, which requires an element to delete. */
    method Delete()
      requires elems != []
      modifies this
      ensures elems == old(elems)[1..]
    {
      elems := elems[1..];
    }
  }

  datatype Verdict = Success | Failure | Aborted

  /** The expected and found records agree so far, and so do the links behind position `n`. */
  ghost predicate InStep(all: seq<Elem>, rest: seq<Elem>, n: nat, left: seq<Elem>) {
    && n <= |all| && n <= |rest|
    && left == rest[n..]
    && all[..n] == rest[..n]
    && ClosedBefore(all, if n == 0 then 0 else n - 1)
  }

  /** The link that `VerifyChains` checks when it takes the record at `n` decides whether the record
  before it is closed. */
  lemma {:induction false} LinkDecides(all: seq<Elem>, n: nat)
    requires 0 < n <= |all|
    ensures var first := all[ChainStart(all, n - 1)];
            if n < |all| && !NewChain(first, all[n])
            then (Closes(all, n - 1) <==> Links(all[n - 1], all[n])) && ChainStart(all, n) == ChainStart(all, n - 1)
            else (Closes(all, n - 1) <==> Links(all[n - 1], first)) && (n < |all| ==> ChainStart(all, n) == n)
  {
  }

  /** The state of the comparison after `n` expected records. */
  ghost predicate Walk(all: seq<Elem>, rest: seq<Elem>, n: nat, left: seq<Elem>, f: Option<Elem>,
                       first: Option<Elem>, prev: Option<Elem>, result: Verdict)
  {
    && n <= |all|
    && (n == 0 ==> first == prev == None)
    && (n > 0 ==> prev == Some(all[n - 1]) && first == Some(all[ChainStart(all, n - 1)]))
    && (result == Success ==> f == None && InStep(all, rest, n, left))
    && (result == Failure ==> all != rest || !Closed(all))
    && result != Aborted
  }

  /** The links the turn that takes `e` has to check. */
  predicate LinkOk(first: Option<Elem>, prev: Option<Elem>, e: Elem) {
    first.None? || prev.None? || Links(prev.value, if NewChain(first.value, e) then first.value else e)
  }

  lemma {:induction false} WalkStep(all: seq<Elem>, rest: seq<Elem>, n: nat, left: seq<Elem>, f: Option<Elem>,
                                    first: Option<Elem>, prev: Option<Elem>, result: Verdict,
                                    matched: bool, left': seq<Elem>, f': Option<Elem>)
    requires Walk(all, rest, n, left, f, first, prev, result) && n < |all|
    requires f == None && matched ==> f' == None && left != [] && left[0] == all[n] && left' == left[1..]
    requires f == None && !matched ==> left == [] || left[0] != all[n]
    ensures Walk(all, rest, n + 1, left', f',
                 if first == None || NewChain(first.value, all[n]) then Some(all[n]) else first, Some(all[n]),
                 if result == Success && matched && LinkOk(first, prev, all[n]) then Success else Failure)
  {
    if n > 0 {
      LinkDecides(all, n);
    }
    if result == Success && matched && LinkOk(first, prev, all[n]) {
      assert all[..n + 1] == all[..n] + [all[n]] && rest[..n + 1] == rest[..n] + [rest[n]];
    }
  }

  /** `verify_nsec3_chains`.  A found record kept back after a mismatch makes the next turn delete
  from the heap of found records again; when that heap is empty the library's requirement fails
  and the program aborts.  The result is success exactly when the two heaps hold the same records
  and every chain is closed, and an abort exactly when the merge gets stuck. */
  method VerifyChains(expected: Heap, found: Heap) returns (result: Verdict)
    requires expected != found && Ascending(expected.elems) && Ascending(found.elems)
    modifies expected, found
    ensures result == Success <==>
            multiset(old(expected.elems)) == multiset(old(found.elems)) && Closed(old(expected.elems))
    ensures result == Success <==>
            multiset(old(expected.elems)) == multiset(old(found.elems)) && forall k :: ChainRings(old(expected.elems), k)
    ensures result == Aborted <==> Aborts(old(expected.elems), None, old(found.elems))
  {
    ghost var all, rest := expected.elems, found.elems;
    ClosedMeansRings(all);
    ghost var n := 0;
    result := Success;
    var f: Option<Elem> := None;
    var first: Option<Elem>, prev: Option<Elem> := None, None;
    while true
      invariant n <= |all| && expected.elems == all[n..]
      invariant Walk(all, rest, n, found.elems, f, first, prev, result)
      invariant Aborts(all, None, rest) <==> Aborts(expected.elems, f, found.elems)
      decreases |expected.elems|
    {
      var e := expected.Top();
      if e == None {
        break;
      }
      expected.Delete();
      ghost var left, f0 := found.elems, f;
      var m: Verdict;
      m, f := Match(e.value, f, found);
      if m == Aborted {
        SameListing(all, rest);
        return Aborted;
      }
      WalkStep(all, rest, n, left, f0, first, prev, result, m == Success, found.elems, f);
      first, result := CheckLinks(first, prev, e.value, if m == Failure then Failure else result);
      prev := e;
      n := n + 1;
    }
    WalkEnd(all, rest, found.elems, f, first, prev, result);
    SameListing(all, rest);
    if prev != None && !Links(prev.value, first.value) {
      result := Failure;
    }
    result := Drain(found, f, result);
  }

  lemma {:induction false} WalkEnd(all: seq<Elem>, rest: seq<Elem>, left: seq<Elem>, f: Option<Elem>,
                                   first: Option<Elem>, prev: Option<Elem>, result: Verdict)
    requires Walk(all, rest, |all|, left, f, first, prev, result)
    ensures first.Some? <==> prev.Some?
    ensures all == rest && Closed(all) <==>
            result == Success && (prev.Some? ==> Links(prev.value, first.value)) && f == None && left == []
  {
    if |all| > 0 {
      LinkDecides(all, |all|);
    }
    if result == Success {
      assert all[..|all|] == all && rest == rest[..|all|] + rest[|all|..];
      assert Closed(all) <==> |all| == 0 || Closes(all, |all| - 1);
    }
  }

  lemma {:induction false} SameListing(s: seq<Elem>, t: seq<Elem>)
    requires Ascending(s) && Ascending(t)
    ensures multiset(s) == multiset(t) <==> s == t
  {
    if multiset(s) == multiset(t) {
      AscendingUnique(s, t);
    }
  }

  // ----- the merge

  /** The record kept back and the found records left, after the attempt to bring them back in step
  with the expected record `e`. */
  function Resynced(e: Elem, g: Elem, found: seq<Elem>): (r: (Option<Elem>, seq<Elem>))
    decreases |found|
  {
    if Precedes(e, g) then (Some(g), found)
    else if found == [] then (None, [])
    else if found[0] == e then (None, found[1..])
    else Resynced(e, found[0], found[1..])
  }

  /** The same after a turn for `e` that starts with `g` kept back. */
  function Turned(e: Elem, g: Option<Elem>, found: seq<Elem>): (r: (Option<Elem>, seq<Elem>)) {
    if found == [] then (None, [])
    else
      var f := if g.Some? then g.value else found[0];
      if f == e then (None, found[1..]) else Resynced(e, f, found[1..])
  }

  /** Some turn starts with a record kept back and no found record left. */
  predicate Aborts(expected: seq<Elem>, g: Option<Elem>, found: seq<Elem>)
    decreases |expected|
  {
    expected != [] &&
    ((g.Some? && found == [])
     || var t := Turned(expected[0], g, found); Aborts(expected[1..], t.0, t.1))
  }

  /** Two or more expected records against a single found one that sorts after the first are enough. */
  lemma {:induction false} StuckAborts(expected: seq<Elem>, found: seq<Elem>)
    requires |expected| >= 2 && |found| == 1 && Precedes(expected[0], found[0])
    ensures Aborts(expected, None, found)
  {
    PrecedesTotal(expected[0], found[0]);
    assert Turned(expected[0], None, found) == (Some(found[0]), found[1..]);
    assert found[1..] == [];
  }

  ghost predicate KeptFrom(g: Option<Elem>, found: seq<Elem>, last: Elem) {
    && (g.Some? ==> g.value == last || Precedes(g.value, last))
    && (forall k :: 0 <= k < |found| ==> found[k] == last || Precedes(found[k], last))
  }

  lemma {:induction false} ResyncedFrom(e: Elem, g: Elem, found: seq<Elem>, last: Elem)
    requires KeptFrom(Some(g), found, last)
    ensures var r := Resynced(e, g, found);
            KeptFrom(r.0, r.1, last) && (r.0.Some? ==> Precedes(e, last))
    decreases |found|
  {
    if Precedes(e, g) {
      if g != last {
        PrecedesTransitive(e, g, last);
      }
    } else if found != [] && found[0] != e {
      ResyncedFrom(e, found[0], found[1..], last);
    }
  }

  /** An abort needs a found record after an expected one that is not the last. */
  lemma {:induction false} AbortMeans(expected: seq<Elem>, g: Option<Elem>, found: seq<Elem>, last: Elem)
    requires Aborts(expected, g, found) && KeptFrom(g, found, last)
    ensures g.Some? || exists i :: 0 <= i < |expected| - 1 && Precedes(expected[i], last)
    decreases |expected|
  {
    if g.None? {
      var t := Turned(expected[0], g, found);
      if found != [] && found[0] != expected[0] {
        ResyncedFrom(expected[0], found[0], found[1..], last);
      }
      AbortMeans(expected[1..], t.0, t.1, last);
      if t.0.Some? {
        assert Precedes(expected[0], last);
      } else {
        var i :| 0 <= i < |expected[1..]| - 1 && Precedes(expected[1..][i], last);
        assert Precedes(expected[i + 1], last);
      }
    }
  }

  /** One turn's check of the link that leads to, or closes before, the expected record. */
  method CheckLinks(first: Option<Elem>, prev: Option<Elem>, e: Elem, r: Verdict)
    returns (first': Option<Elem>, result: Verdict)
    requires first.Some? ==> prev.Some?
    requires first.None? ==> prev.None?
    ensures first' == if first == None || NewChain(first.value, e) then Some(e) else first
    ensures result == if LinkOk(first, prev, e) then r else Failure
  {
    first', result := first, r;
    if first == None || NewChain(first.value, e) {
      if prev != None && !Links(prev.value, first.value) {
        result := Failure;
      }
      first' := Some(e);
    } else if !Links(prev.value, e) {
      result := Failure;
    }
  }

  /** One turn's comparison of the expected record with the next found one. */
  method Match(e: Elem, g: Option<Elem>, found: Heap) returns (m: Verdict, f: Option<Elem>)
    modifies found
    ensures m == Success && g == None ==>
              f == None && old(found.elems) != [] && old(found.elems)[0] == e && found.elems == old(found.elems)[1..]
    ensures m == Failure && g == None ==> old(found.elems) == [] || old(found.elems)[0] != e
    ensures m == Aborted <==> g.Some? && old(found.elems) == []
    ensures m != Aborted ==> (f, found.elems) == Turned(e, g, old(found.elems))
  {
    f := g;
    if f == None {
      f := found.Top();
    }
    if f == None {
      return Failure, None;
    }
    if found.elems == [] {
      return Aborted, f;
    }
    found.Delete();
    if f == Some(e) {
      return Success, None;
    }
    f := Resync(e, f.value, found);
    return Failure, f;
  }

  /** The attempt to bring the found records back in step after a mismatch. */
  method Resync(e: Elem, g: Elem, found: Heap) returns (f: Option<Elem>)
    modifies found
    ensures (f, found.elems) == Resynced(e, g, old(found.elems))
  {
    f := Some(g);
    while f != None && !Precedes(e, f.value)
      invariant Resynced(e, g, old(found.elems)) ==
                if f == None then (None, found.elems) else Resynced(e, f.value, found.elems)
      decreases |found.elems|, f.Some?
    {
      f := found.Top();
      if f != None {
        found.Delete();
      }
      if f == Some(e) {
        f := None;
        break;
      }
    }
  }

  /** The final loop: any found record left over is a failure. */
  method Drain(found: Heap, g: Option<Elem>, r: Verdict) returns (result: Verdict)
    modifies found
    ensures result == if (g == None && old(found.elems) == []) || r != Success then r else Failure
  {
    result := r;
    var f, more := g, true;
    ghost var seen := false;
    while more
      invariant result == if seen && r == Success then Failure else r
      invariant seen || f != None ==> g != None || old(found.elems) != []
      invariant !seen && f == None ==> g == None && found.elems == old(found.elems)
      invariant !more ==> f == None && found.elems == []
      decreases more, |found.elems|, f.Some?
    {
      if f != None {
        seen := true;
        if result == Success {
          result := Failure;
        }
      }
      f := found.Top();
      if f != None {
        found.Delete();
      }
      more := f != None;
    }
  }
}
