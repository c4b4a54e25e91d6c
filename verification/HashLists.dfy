/** The list of NSEC3 hashes collected while the zone is walked: sorting, the duplicate check and
the search for the next hash of the chain.

A hash is an octet string of one fixed length, represented by its big-endian value, so that
`memcmp` order is numeric order.  Each entry carries a trailing flag octet that is 1 for the
speculative hash of a wildcard name that does not exist. */
module HashLists {
  import opened Options
  import Sorting

  datatype Entry = Entry(hash: nat, speculative: bool)

  /** `hashlist_comp`: the flag octet is the last one compared. */
  predicate Before(a: Entry, b: Entry) {
    a.hash < b.hash || (a.hash == b.hash && !a.speculative && b.speculative)
  }

  predicate Ordered(s: seq<Entry>) {
    forall i, j {:trigger Before(s[j], s[i])} :: 0 <= i < j < |s| ==> !Before(s[j], s[i])
  }

  /** The hashes that own an NSEC3 record. */
  ghost function Owners(s: seq<Entry>): set<nat> {
    set e | e in s && !e.speculative :: e.hash
  }

  /** The hashes of the owners in list order. */
  ghost function Plain(s: seq<Entry>): (hashes: seq<nat>) {
    if s == [] then []
    else Plain(s[..|s| - 1]) + (if s[|s| - 1].speculative then [] else [s[|s| - 1].hash])
  }

  lemma {:induction false} PlainAppend(s: seq<Entry>, e: Entry)
    ensures Plain(s + [e]) == Plain(s) + (if e.speculative then [] else [e.hash])
  {
    assert (s + [e])[..|s|] == s;
  }

  lemma {:induction false} PlainCount(s: seq<Entry>, h: nat)
    ensures multiset(Plain(s))[h] == multiset(s)[Entry(h, false)]
  {
    if s != [] {
      var init := s[..|s| - 1];
      PlainCount(init, h);
      assert s == init + [s[|s| - 1]];
    }
  }

  lemma {:induction false} PlainMember(s: seq<Entry>, h: nat)
    ensures h in Plain(s) <==> h in Owners(s)
  {
    PlainCount(s, h);
    OwnersMember(s, h);
    assert h in Plain(s) <==> h in multiset(Plain(s));
    assert Entry(h, false) in s <==> Entry(h, false) in multiset(s);
  }

  lemma {:induction false} OwnersMember(s: seq<Entry>, h: nat)
    ensures h in Owners(s) <==> Entry(h, false) in s
  {
    assert Entry(h, false) in s ==> Entry(h, false).hash in Owners(s);
    assert forall e :: e in s && !e.speculative ==> e == Entry(e.hash, false);
  }

  ghost predicate HasDuplicate(s: seq<Entry>) {
    exists i, j :: 0 <= i < j < |s| && !s[i].speculative && s[i] == s[j]
  }

  /** `n` follows `h` on the ring formed by the members of `s` in increasing order. */
  predicate CyclicNext(s: set<nat>, h: nat, n: nat) {
    && n in s
    && (h < n ==> forall x :: x in s ==> x <= h || n <= x)
    && (n <= h ==> forall x :: x in s ==> n <= x <= h)
  }

  lemma {:induction false} CyclicNextUnique(s: set<nat>, h: nat, m: nat, n: nat)
    requires h in s && CyclicNext(s, h, m) && CyclicNext(s, h, n)
    ensures m == n
  {
  }

  /** Going `t` steps round the ring. */
  ghost predicate Reaches(s: set<nat>, h: nat, t: nat, n: nat)
    decreases t
  {
    if t == 0 then n == h
    else exists m :: m in s && Reaches(s, h, t - 1, m) && CyclicNext(s, m, n)
  }

  /** Position `t` places after `i` on a ring of `n` places, for up to one full turn. */
  function Around(i: nat, t: nat, n: nat): (p: nat)
    requires i < n && t <= n
  {
    if i + t < n then i + t else i + t - n
  }

  /** `r` lists the members of `s` in increasing order. */
  ghost predicate Listing(s: set<nat>, r: seq<nat>) {
    && (forall a, b :: 0 <= a < b < |r| ==> r[a] < r[b])
    && s == (set x | x in r)
  }

  /** The ring is a single cycle: listing the members in increasing order, `t` steps from the
  member at position `i` lead to exactly the member `t` places on.  So `|r|` steps visit every
  member once and come back to the start. */
  lemma {:induction false} RingIsOneCycle(s: set<nat>, r: seq<nat>, i: nat, t: nat, n: nat)
    requires Listing(s, r) && i < |r| && t <= |r|
    ensures Reaches(s, r[i], t, n) <==> n == r[Around(i, t, |r|)]
  {
    forall p | 0 <= p < |r|
      ensures RingStepAt(s, r, p)
    {
      RingStep(s, r, p);
    }
    Turn(s, r, i, t, n);
  }

  predicate RingStepAt(s: set<nat>, r: seq<nat>, p: nat)
    requires p < |r|
  {
    r[p] in s && CyclicNext(s, r[p], r[Around(p, 1, |r|)])
  }

  lemma {:induction false} Turn(s: set<nat>, r: seq<nat>, i: nat, t: nat, n: nat)
    requires forall p :: 0 <= p < |r| ==> RingStepAt(s, r, p)
    requires i < |r| && t <= |r|
    ensures Reaches(s, r[i], t, n) <==> n == r[Around(i, t, |r|)]
    decreases t
  {
    if t > 0 {
      var p, q := Around(i, t - 1, |r|), Around(i, t, |r|);
      assert RingStepAt(s, r, p) && q == Around(p, 1, |r|);
      if n == r[q] {
        Turn(s, r, i, t - 1, r[p]);
      }
      if Reaches(s, r[i], t, n) {
        var m :| m in s && Reaches(s, r[i], t - 1, m) && CyclicNext(s, m, n);
        Turn(s, r, i, t - 1, m);
        CyclicNextUnique(s, r[p], n, r[q]);
      }
    }
  }

  lemma {:induction false} RingStep(s: set<nat>, r: seq<nat>, p: nat)
    requires Listing(s, r) && p < |r|
    ensures RingStepAt(s, r, p)
  {
    var q := Around(p, 1, |r|);
    assert r[p] in s && r[q] in s;
    forall x | x in s
      ensures p < q ==> x <= r[p] || r[q] <= x
      ensures q <= p ==> r[q] <= x <= r[p]
    {
      var k :| 0 <= k < |r| && r[k] == x;
    }
  }

  /** `hashlist_t`.  `size` is the number of entries the buffer has room for. */
  class HashList {
    var entries: seq<Entry>
    var size: nat

    ghost predicate Valid()
      reads this
    {
      |entries| <= size
    }

    constructor (nodes: nat)
      ensures Valid() && entries == []
    {
      entries, size := [], nodes;
    }

    /** `hashlist_add_dns_name`: append a hash, growing the buffer when it is full. */
    method Add(hash: nat, speculative: bool)
      requires Valid()
      modifies this
      ensures Valid() && entries == old(entries) + [Entry(hash, speculative)]
    {
      if |entries| == size {
        size := size * 2 + 100;
      }
      entries := entries + [Entry(hash, speculative)];
    }

    /** `hashlist_sort`. */
    method Sort()
      requires Valid()
      modifies this`entries
      ensures Valid() && Ordered(entries) && multiset(entries) == multiset(old(entries))
    {
      var done, i := [], 0;
      while i < |entries|
        invariant 0 <= i <= |entries| && entries == old(entries)
        invariant Ordered(done) && multiset(done) == multiset(entries[..i])
      {
        Sorting.InsertSorts(Before, entries[i], done);
        done := Sorting.Insert(Before, entries[i], done);
        assert entries[..i + 1] == entries[..i] + [entries[i]];
        i := i + 1;
      }
      assert entries[..i] == entries;
      assert |done| == |multiset(done)|;
      entries := done;
    }

    /** `hashlist_hasdup`: on a sorted list, exactly whether two chain owners share a hash. */
    method HasDup() returns (dup: bool)
      requires Ordered(entries)
      ensures dup <==> HasDuplicate(entries)
    {
      var next, left := 0, |entries|;
      while left > 0 && entries[next].speculative
        invariant 0 <= next <= |entries| && next + left == |entries|
        invariant forall k :: 0 <= k < next ==> entries[k].speculative
      {
        next, left := next + 1, left - 1;
      }
      var current := next;
      while left > 1
        invariant 0 <= current <= next <= |entries| && next + left == |entries|
        invariant left >= 1 ==> !entries[current].speculative
        invariant forall k :: current < k <= next && k < |entries| ==> entries[k].speculative
        invariant forall i, j :: 0 <= i < j <= next && j < |entries| && !entries[i].speculative ==>
                                   entries[i] != entries[j]
      {
        left, next := left - 1, next + 1;
        if entries[next].speculative {
          continue;
        }
        if entries[current].hash == entries[next].hash {
          assert entries[current] == entries[next];
          return true;
        }
        forall k | 0 <= k < next && !entries[k].speculative
          ensures entries[k] != entries[next]
        {
          if k < current {
            assert !Before(entries[current], entries[k]) && !Before(entries[next], entries[current]);
          }
        }
        current := next;
      }
      return false;
    }

    /** `bsearch` over the sorted list. */
    method Search(key: Entry) returns (at: Option<nat>)
      requires Ordered(entries)
      ensures at.Some? ==> at.value < |entries| && entries[at.value] == key
      ensures at.None? ==> key !in entries
    {
      var lo, hi := 0, |entries|;
      while lo < hi
        invariant 0 <= lo <= hi <= |entries|
        invariant key !in entries[..lo] && key !in entries[hi..]
      {
        var mid := (lo + hi) / 2;
        if Before(entries[mid], key) {
          forall k | 0 <= k <= mid ensures entries[k] != key {
            if k < mid { assert !Before(entries[mid], entries[k]); }
          }
          lo := mid + 1;
        } else if Before(key, entries[mid]) {
          forall k | mid <= k < |entries| ensures entries[k] != key {
            if mid < k { assert !Before(entries[k], entries[mid]); }
          }
          hi := mid;
        } else {
          return Some(mid);
        }
      }
      assert entries == entries[..lo] + entries[hi..];
      return None;
    }

    /** `hashlist_findnext`: after a passing duplicate check, the next owner on the ring.  The two
    assertions on local facts are the source's INSISTs. */
    method FindNext(hash: nat) returns (nexthash: nat)
      requires Ordered(entries) && !HasDuplicate(entries)
      requires Entry(hash, false) in entries
      ensures CyclicNext(Owners(entries), hash, nexthash)
    {
      var found := Search(Entry(hash, false));
      assert found.Some?;
      var n := |entries|;
      var k, pos, left, more := found.value, found.value, n, true;
      ghost var step := 0;
      while more
        invariant more && 0 <= step < n && left == n - step && pos == Around(k, step, n)
        invariant Skipped(entries, k, step)
        decreases left
      {
        pos := if pos < n - 1 then pos + 1 else 0;
        step := step + 1;
        if !entries[pos].speculative {
          break;
        }
        more, left := left > 1, left - 1;
      }
      assert left != 0;
      NextOwner(entries, k, step);
      return entries[pos].hash;
    }

    /** `hashlist_exists` on a non-speculative key. */
    method Exists(hash: nat) returns (yes: bool)
      requires Ordered(entries)
      ensures yes <==> hash in Owners(entries)
    {
      OwnersMember(entries, hash);
      var found := Search(Entry(hash, false));
      return found.Some?;
    }
  }

  /** Every entry fewer than `step + 1` places after `k` round the list is speculative. */
  ghost predicate Skipped(s: seq<Entry>, k: nat, step: nat)
    requires k < |s| && step < |s|
  {
    && (forall j :: k < j <= k + step && j < |s| ==> s[j].speculative)
    && (forall j :: 0 <= j <= k + step - |s| ==> s[j].speculative)
  }

  /** The scan that skips speculative entries stops at the cyclic successor. */
  lemma {:induction false} NextOwner(s: seq<Entry>, k: nat, step: nat)
    requires Ordered(s) && !HasDuplicate(s)
    requires k < |s| && !s[k].speculative && 1 <= step <= |s|
    requires Skipped(s, k, step - 1) && !s[Around(k, step, |s|)].speculative
    ensures CyclicNext(Owners(s), s[k].hash, s[Around(k, step, |s|)].hash)
  {
    var pos := Around(k, step, |s|);
    assert s[pos] in s;
    if k < pos {
      assert !Before(s[pos], s[k]) && s[k] != s[pos];
    } else if pos < k {
      assert !Before(s[k], s[pos]) && s[pos] != s[k];
    }
    forall x | x in Owners(s)
      ensures k < pos ==> x <= s[k].hash || s[pos].hash <= x
      ensures pos <= k ==> s[pos].hash <= x <= s[k].hash
    {
      var e :| e in s && !e.speculative && e.hash == x;
      var i :| 0 <= i < |s| && s[i] == e;
      if i < k { assert !Before(s[k], s[i]); }
      if i < pos { assert !Before(s[pos], s[i]); }
      if k < i { assert !Before(s[i], s[k]); }
      if pos < i { assert !Before(s[i], s[pos]); }
    }
  }

  lemma {:induction false} CountTwice<T>(s: seq<T>, i: nat, j: nat)
    requires i < j < |s| && s[i] == s[j]
    ensures multiset(s)[s[i]] >= 2
  {
    assert s == s[..i] + [s[i]] + s[i + 1..j] + [s[j]] + s[j + 1..];
  }

  lemma {:induction false} TwiceMeansRepeated<T>(s: seq<T>, x: T)
    requires multiset(s)[x] >= 2
    ensures exists i, j :: 0 <= i < j < |s| && s[i] == x == s[j]
  {
    var t := s[1..];
    assert s == [s[0]] + t;
    if s[0] == x {
      assert x in multiset(t);
      var j :| 0 <= j < |t| && t[j] == x;
      assert s[j + 1] == x;
    } else {
      TwiceMeansRepeated(t, x);
      var i, j :| 0 <= i < j < |t| && t[i] == x == t[j];
      assert s[i + 1] == x == s[j + 1];
    }
  }

  /** Whether two owners share a hash does not depend on the order in which they were entered. */
  lemma {:induction false} DuplicateMeansCollision(s: seq<Entry>, plain: seq<nat>)
    requires multiset(Plain(s)) == multiset(plain)
    ensures HasDuplicate(s) <==> exists i, j :: 0 <= i < j < |plain| && plain[i] == plain[j]
  {
    if HasDuplicate(s) {
      var i, j :| 0 <= i < j < |s| && !s[i].speculative && s[i] == s[j];
      CountTwice(s, i, j);
      PlainCount(s, s[i].hash);
      TwiceMeansRepeated(plain, s[i].hash);
    }
    if i, j :| 0 <= i < j < |plain| && plain[i] == plain[j] {
      CountTwice(plain, i, j);
      PlainCount(s, plain[i]);
      TwiceMeansRepeated(s, Entry(plain[i], false));
    }
  }
}
