/** The table of eight slots in which the netmap fast path keeps, for each query passed on, the
addresses its reply has to carry (`netmap_add_macaddr`, `netmap_get_macmap`). */
module ReplyTable {
  import opened Options
  import opened Bytes

  /** What a reply needs: link-layer source and destination, source address and source port. */
  datatype Record = Record(smac: seq<Byte>, dmac: seq<Byte>, saddr: seq<Byte>, source: seq<Byte>)

  datatype Slot = Slot(record: Record, qid: nat, dirty: bool)

  const SLOTS: nat := 8
  const BLANK: Slot := Slot(Record([0, 0, 0, 0, 0, 0], [0, 0, 0, 0, 0, 0], [0, 0, 0, 0], [0, 0]), 0, false)

  /** The first slot whose last query had this ID, pending or not. */
  function FirstWith(s: seq<Slot>, q: nat): (k: nat)
    ensures k <= |s| && (k < |s| ==> s[k].qid == q)
    ensures forall i :: 0 <= i < k ==> s[i].qid != q
  {
    if s == [] || s[0].qid == q then 0 else 1 + FirstWith(s[1..], q)
  }

  function FirstFree(s: seq<Slot>): (k: nat)
    ensures k <= |s| && (k < |s| ==> !s[k].dirty)
    ensures forall i :: 0 <= i < k ==> s[i].dirty
  {
    if s == [] || !s[0].dirty then 0 else 1 + FirstFree(s[1..])
  }

  /** The slot a query is put in: the first free one, or the last. */
  function Target(s: seq<Slot>): (k: nat)
    requires s != []
    ensures k < |s|
  {
    if FirstFree(s) < |s| then FirstFree(s) else |s| - 1
  }

  function Received(s: seq<Slot>, q: nat, r: Record): (s': seq<Slot>)
    requires s != []
    ensures |s'| == |s|
  {
    s[Target(s) := Slot(r, q, true)]
  }

  function Replied(s: seq<Slot>, q: nat): (s': seq<Slot>)
    ensures |s'| == |s|
  {
    var k := FirstWith(s, q);
    if k < |s| then s[k := s[k].(dirty := false)] else s
  }

  function Found(s: seq<Slot>, q: nat): Option<Record> {
    var k := FirstWith(s, q);
    if k < |s| then Some(s[k].record) else None
  }

  // ----- the table as a map

  ghost function Ids(s: seq<Slot>): set<nat> {
    set i | 0 <= i < |s| && s[i].dirty :: s[i].qid
  }

  /** No slot before a pending one holds its ID. */
  ghost predicate Clean(s: seq<Slot>) {
    forall i :: 0 <= i < |s| && s[i].dirty ==> FirstWith(s, s[i].qid) == i
  }

  /** The queries that await their reply. */
  ghost function Pending(s: seq<Slot>): map<nat, Record> {
    map q | q in Ids(s) && FirstWith(s, q) < |s| :: s[FirstWith(s, q)].record
  }

  lemma {:induction false} FirstIs(s: seq<Slot>, q: nat, k: nat)
    requires k < |s| && s[k].qid == q && forall i :: 0 <= i < k ==> s[i].qid != q
    ensures FirstWith(s, q) == k
  {
  }

  ghost predicate IsAt(s: seq<Slot>, q: nat, i: nat) {
    i < |s| && s[i].dirty && s[i].qid == q
  }

  lemma {:induction false} PendingAt(s: seq<Slot>, q: nat, i: nat)
    requires Clean(s) && IsAt(s, q, i)
    ensures q in Pending(s) && Pending(s)[q] == s[i].record && FirstWith(s, q) == i
  {
    assert q in Ids(s);
  }

  lemma {:induction false} WherePending(s: seq<Slot>, q: nat) returns (i: nat)
    requires Clean(s) && q in Pending(s)
    ensures IsAt(s, q, i) && Pending(s)[q] == s[i].record
  {
    i :| 0 <= i < |s| && s[i].dirty && s[i].qid == q;
    PendingAt(s, q, i);
  }

  lemma {:induction false} OnlyOneAt(s: seq<Slot>, q: nat, i: nat, k: nat)
    requires Clean(s)
    ensures IsAt(s, q, i) && IsAt(s, q, k) ==> i == k
    ensures q !in Pending(s) ==> !IsAt(s, q, i)
  {
    if IsAt(s, q, i) {
      PendingAt(s, q, i);
      if IsAt(s, q, k) {
        PendingAt(s, q, k);
      }
    }
  }

  /** A map that has every pending slot, and nothing else, is the map of pending queries. */
  lemma {:induction false} PendingIs(s: seq<Slot>, m: map<nat, Record>)
    requires Clean(s)
    requires forall i :: 0 <= i < |s| && s[i].dirty ==> s[i].qid in m && m[s[i].qid] == s[i].record
    requires forall q :: q in m ==> exists i :: IsAt(s, q, i)
    ensures Pending(s) == m
  {
    forall q | q in m
      ensures q in Pending(s) && Pending(s)[q] == m[q]
    {
      var i :| IsAt(s, q, i);
      PendingAt(s, q, i);
    }
    forall q | q in Pending(s)
      ensures q in m
    {
      var i := WherePending(s, q);
    }
  }

  // ----- a query arrives

  /** As long as no other slot has the query pending, the table stays clean. */
  lemma {:induction false} ReceivedElsewhere(s: seq<Slot>, q: nat, r: Record)
    requires s != [] && Clean(s)
    requires forall i :: IsAt(s, q, i) ==> i == Target(s)
    ensures Clean(Received(s, q, r))
  {
    var t, s' := Target(s), Received(s, q, r);
    forall i | 0 <= i < |s'| && s'[i].dirty
      ensures FirstWith(s', s'[i].qid) == i
    {
      if i == t {
        assert forall k :: 0 <= k < t ==> IsAt(s, s[k].qid, k);
        FirstIs(s', q, t);
      } else {
        PendingAt(s, s[i].qid, i);
        assert !IsAt(s, q, i);
        FirstIs(s', s[i].qid, i);
      }
    }
  }

  /** A query that is still pending, received again, spoils the table. */
  lemma {:induction false} ReceivedTwice(s: seq<Slot>, q: nat, r: Record, i: nat)
    requires s != [] && Clean(s) && IsAt(s, q, i) && i != Target(s)
    ensures !Clean(Received(s, q, r))
  {
    var t, s' := Target(s), Received(s, q, r);
    assert s'[i].dirty && s'[i].qid == q && s'[t].dirty && s'[t].qid == q;
  }

  /** The table stays clean exactly if the query was not pending, or only in the slot it is put in. */
  lemma {:induction false} ReceivedKeepsClean(s: seq<Slot>, q: nat, r: Record)
    requires s != [] && Clean(s)
    ensures Clean(Received(s, q, r)) <==> q !in Pending(s) || (FirstFree(s) == |s| && s[|s| - 1].qid == q)
  {
    if q in Pending(s) {
      var i := WherePending(s, q);
      if i == Target(s) {
        forall k: nat {
          OnlyOneAt(s, q, i, k);
        }
        ReceivedElsewhere(s, q, r);
      } else {
        ReceivedTwice(s, q, r, i);
        OnlyOneAt(s, q, i, |s| - 1);
      }
    } else {
      forall k: nat {
        OnlyOneAt(s, q, k, k);
      }
      ReceivedElsewhere(s, q, r);
    }
  }

  /** What is pending once room has been made for one more query. */
  ghost function Kept(s: seq<Slot>): map<nat, Record>
    requires s != []
  {
    if FirstFree(s) < |s| then Pending(s) else Pending(s) - {s[|s| - 1].qid}
  }

  /** A query not pending becomes pending; if all slots are taken, the query in the last is forgotten,
  and no other ever is. */
  lemma {:induction false} ReceivedRefines(s: seq<Slot>, q: nat, r: Record)
    requires s != [] && Clean(s) && q !in Pending(s)
    ensures Clean(Received(s, q, r)) && Pending(Received(s, q, r)) == Kept(s)[q := r]
  {
    ReceivedKeepsClean(s, q, r);
    var s', m := Received(s, q, r), Kept(s)[q := r];
    forall i | 0 <= i < |s'| && s'[i].dirty
      ensures s'[i].qid in m && m[s'[i].qid] == s'[i].record
    {
      ReceivedEntry(s, q, r, i);
    }
    forall x | x in m
      ensures exists i :: IsAt(s', x, i)
    {
      if x == q {
        assert IsAt(s', x, Target(s));
      } else {
        var i := WherePending(s, x);
        assert IsAt(s', x, i);
      }
    }
    PendingIs(s', m);
  }

  lemma {:induction false} ReceivedEntry(s: seq<Slot>, q: nat, r: Record, i: nat)
    requires s != [] && Clean(s) && q !in Pending(s) && i < |s| && Received(s, q, r)[i].dirty
    ensures var e, m := Received(s, q, r)[i], Kept(s)[q := r]; e.qid in m && m[e.qid] == e.record
  {
    var t := Target(s);
    if i != t {
      PendingAt(s, s[i].qid, i);
      OnlyOneAt(s, s[i].qid, i, t);
    }
  }

  // ----- a reply goes out

  /** A reply to a pending query gets that query's record and ends its wait; any other reply may be
  given a stale record, or none, and disturbs nothing. */
  lemma {:induction false} RepliedRefines(s: seq<Slot>, q: nat)
    requires Clean(s)
    ensures Clean(Replied(s, q))
    ensures q in Pending(s) ==> Found(s, q) == Some(Pending(s)[q])
    ensures Pending(Replied(s, q)) == Pending(s) - {q}
  {
    var k, s', m := FirstWith(s, q), Replied(s, q), Pending(s) - {q};
    forall i | 0 <= i < |s'| && s'[i].dirty
      ensures FirstWith(s', s'[i].qid) == i && s'[i].qid in m && m[s'[i].qid] == s'[i].record
    {
      PendingAt(s, s[i].qid, i);
      FirstIs(s', s[i].qid, i);
    }
    forall x | x in m
      ensures exists i :: IsAt(s', x, i)
    {
      var i := WherePending(s, x);
      assert IsAt(s', x, i);
    }
    PendingIs(s', m);
  }

  // ----- capacity

  ghost function IdsTo(s: seq<Slot>, n: nat): set<nat>
    requires n <= |s|
  {
    if n == 0 then {} else if s[n - 1].dirty then IdsTo(s, n - 1) + {s[n - 1].qid} else IdsTo(s, n - 1)
  }

  lemma {:induction false} IdsToMember(s: seq<Slot>, n: nat, q: nat)
    requires n <= |s|
    ensures q in IdsTo(s, n) <==> exists i :: 0 <= i < n && IsAt(s, q, i)
  {
    if n > 0 {
      IdsToMember(s, n - 1, q);
      assert s[n - 1].dirty && q == s[n - 1].qid <==> IsAt(s, q, n - 1);
    }
  }

  lemma {:induction false} IdsCount(s: seq<Slot>, n: nat)
    requires Clean(s) && n <= |s|
    ensures |IdsTo(s, n)| <= n
    ensures |IdsTo(s, n)| == n <==> forall i :: 0 <= i < n ==> s[i].dirty
  {
    if n > 0 {
      IdsCount(s, n - 1);
      if s[n - 1].dirty {
        var q := s[n - 1].qid;
        IdsToMember(s, n - 1, q);
        forall i: nat {
          OnlyOneAt(s, q, n - 1, i);
        }
      }
    }
  }

  /** A clean table is full exactly when as many queries are pending as it has slots. */
  lemma {:induction false} FullMeansAllPending(s: seq<Slot>)
    requires Clean(s)
    ensures |Pending(s)| <= |s| && (FirstFree(s) == |s| <==> |Pending(s)| == |s|)
  {
    IdsCount(s, |s|);
    forall q: nat
      ensures q in Pending(s) <==> q in IdsTo(s, |s|)
    {
      IdsToMember(s, |s|, q);
      if q in Pending(s) {
        var i := WherePending(s, q);
      }
      if i: nat :| i < |s| && IsAt(s, q, i) {
        PendingAt(s, q, i);
      }
    }
    SameSize(Pending(s), IdsTo(s, |s|));
  }

  lemma {:induction false} SameSize(m: map<nat, Record>, ids: set<nat>)
    requires forall q :: q in m <==> q in ids
    ensures |m| == |ids|
  {
    assert m.Keys == ids;
  }

  // ----- runs

  datatype Event = Query(qid: nat, record: Record) | Reply(qid: nat)

  function Step(s: seq<Slot>, e: Event): (s': seq<Slot>)
    requires s != []
    ensures |s'| == |s|
  {
    match e
    case Query(q, r) => Received(s, q, r)
    case Reply(q) => Replied(s, q)
  }

  function After(s: seq<Slot>, es: seq<Event>): (s': seq<Slot>)
    requires s != []
    ensures |s'| == |s|
    decreases |es|
  {
    if es == [] then s else After(Step(s, es[0]), es[1..])
  }

  /** A table without limits: the last record received for each query that has not been answered. */
  function IdealStep(m: map<nat, Record>, e: Event): map<nat, Record> {
    match e
    case Query(q, r) => m[q := r]
    case Reply(q) => m - {q}
  }

  function Ideal(m: map<nat, Record>, es: seq<Event>): map<nat, Record>
    decreases |es|
  {
    if es == [] then m else Ideal(IdealStep(m, es[0]), es[1..])
  }

  /** No query is received again while its slot is taken. */
  ghost predicate Orderly(s: seq<Slot>, es: seq<Event>)
    requires s != []
    decreases |es|
  {
    es != [] ==> (es[0].Query? ==> es[0].qid !in Pending(s)) && Orderly(Step(s, es[0]), es[1..])
  }

  /** No query is received again before its reply, nor when `n` others are pending. */
  predicate Light(m: map<nat, Record>, es: seq<Event>, n: nat)
    decreases |es|
  {
    es != [] ==> (es[0].Query? ==> es[0].qid !in m && |m| < n) && Light(IdealStep(m, es[0]), es[1..], n)
  }

  ghost predicate Within(a: map<nat, Record>, b: map<nat, Record>) {
    forall q :: q in a ==> q in b && a[q] == b[q]
  }

  /** In an orderly run the table may forget queries but never mistakes one for another: what it holds
  as pending is what the ideal table holds. */
  lemma {:induction false} OrderlyRun(s: seq<Slot>, m: map<nat, Record>, es: seq<Event>)
    requires s != [] && Clean(s) && Within(Pending(s), m) && Orderly(s, es)
    ensures Clean(After(s, es)) && Within(Pending(After(s, es)), Ideal(m, es))
    ensures |Pending(After(s, es))| <= |s|
    decreases |es|
  {
    if es == [] {
      FullMeansAllPending(s);
    } else {
      match es[0] {
        case Query(q, r) => ReceivedRefines(s, q, r);
        case Reply(q) => RepliedRefines(s, q);
      }
      OrderlyRun(Step(s, es[0]), IdealStep(m, es[0]), es[1..]);
    }
  }

  /** As long as there is room for all, it forgets none. */
  lemma {:induction false} LightRun(s: seq<Slot>, es: seq<Event>)
    requires s != [] && Clean(s) && Light(Pending(s), es, |s|)
    ensures Orderly(s, es) && Clean(After(s, es)) && Pending(After(s, es)) == Ideal(Pending(s), es)
    decreases |es|
  {
    if es != [] {
      FullMeansAllPending(s);
      match es[0] {
        case Query(q, r) => ReceivedRefines(s, q, r);
        case Reply(q) => RepliedRefines(s, q);
      }
      assert Pending(Step(s, es[0])) == IdealStep(Pending(s), es[0]);
      LightRun(Step(s, es[0]), es[1..]);
    }
  }

  /** The table at the start. */
  function Blank(): (s: seq<Slot>)
    ensures |s| == SLOTS
  {
    seq(SLOTS, _ => BLANK)
  }

  /** With at most eight queries waiting at any time, each reply finds what its query left. */
  lemma {:induction false} ReplyFindsQuery(es: seq<Event>, q: nat)
    requires Light(map[], es, SLOTS) && q in Ideal(map[], es)
    ensures Found(After(Blank(), es), q) == Some(Ideal(map[], es)[q])
  {
    assert Pending(Blank()) == map[];
    LightRun(Blank(), es);
    RepliedRefines(After(Blank(), es), q);
  }

  // ----- what a reply finds, after any run

  lemma {:induction false} AfterLast(s: seq<Slot>, es: seq<Event>)
    requires s != [] && es != []
    ensures var n := |es| - 1; After(s, es) == Step(After(s, es[..n]), es[n])
    decreases |es|
  {
    var n := |es| - 1;
    if n > 0 {
      AfterLast(Step(s, es[0]), es[1..]);
      assert es[1..][..n - 1] == es[..n][1..];
    }
  }

  /** The slot that the `k`th event, a query, is put in. */
  function Takes(s: seq<Slot>, es: seq<Event>, k: nat): (j: nat)
    requires s != [] && k < |es|
    ensures j < |s|
  {
    Target(After(s, es[..k]))
  }

  predicate TakesSlot(s: seq<Slot>, es: seq<Event>, k: nat, j: nat)
    requires s != []
  {
    k < |es| && es[k].Query? && Takes(s, es, k) == j
  }

  /** The `k`th event is the last query to be put in slot `j`. */
  ghost predicate Holder(s: seq<Slot>, es: seq<Event>, k: nat, j: nat)
    requires s != []
  {
    TakesSlot(s, es, k, j) && forall m :: k < m < |es| ==> !TakesSlot(s, es, m, j)
  }

  ghost predicate Untouched(s: seq<Slot>, es: seq<Event>, j: nat)
    requires s != []
  {
    forall m :: 0 <= m < |es| ==> !TakesSlot(s, es, m, j)
  }

  ghost predicate Keeps(a: Slot, b: Slot) {
    b.qid == a.qid && b.record == a.record && (b.dirty ==> a.dirty)
  }

  lemma {:induction false} TakesOfPrefix(s: seq<Slot>, es: seq<Event>, n: nat, k: nat, j: nat)
    requires s != [] && k < n <= |es|
    ensures TakesSlot(s, es[..n], k, j) <==> TakesSlot(s, es, k, j)
  {
    assert es[..n][..k] == es[..k];
  }

  /** A slot holds what the last query put in it left, or what it held at the start. */
  lemma {:induction false} SlotHolds(s: seq<Slot>, es: seq<Event>, j: nat) returns (holder: Option<nat>)
    requires j < |s|
    ensures holder.Some? ==>
              && Holder(s, es, holder.value, j)
              && After(s, es)[j].qid == es[holder.value].qid && After(s, es)[j].record == es[holder.value].record
    ensures holder.None? ==> Untouched(s, es, j) && Keeps(s[j], After(s, es)[j])
    decreases |es|
  {
    if es == [] {
      return None;
    }
    var n := |es| - 1;
    AfterLast(s, es);
    if TakesSlot(s, es, n, j) {
      return Some(n);
    }
    holder := SlotHolds(s, es[..n], j);
    StepKeeps(After(s, es[..n]), es[n], j);
    OneMore(s, es, j, holder);
  }

  lemma {:induction false} StepKeeps(s: seq<Slot>, e: Event, j: nat)
    requires j < |s| && !(e.Query? && Target(s) == j)
    ensures Keeps(s[j], Step(s, e)[j])
  {
  }

  lemma {:induction false} OneMore(s: seq<Slot>, es: seq<Event>, j: nat, holder: Option<nat>)
    requires s != [] && es != [] && !TakesSlot(s, es, |es| - 1, j)
    ensures holder.Some? && Holder(s, es[..|es| - 1], holder.value, j) ==> Holder(s, es, holder.value, j)
    ensures Untouched(s, es[..|es| - 1], j) ==> Untouched(s, es, j)
  {
    var n := |es| - 1;
    forall k | 0 <= k < n
      ensures TakesSlot(s, es[..n], k, j) <==> TakesSlot(s, es, k, j)
    {
      TakesOfPrefix(s, es, n, k, j);
    }
  }

  /** A query still in its slot, with no query of the same ID still in an earlier slot: every earlier
  slot that a query of this ID was put in has been taken over since by another. */
  ghost predicate Shows(es: seq<Event>, k: nat)
    requires k < |es|
  {
    && Holder(Blank(), es, k, Takes(Blank(), es, k))
    && forall m: nat, j: nat :: j < Takes(Blank(), es, k) && Holder(Blank(), es, m, j) ==> es[m].qid != es[k].qid
  }

  /** When a query was put in a slot, all earlier slots had been put to use. */
  lemma {:induction false} EarlierSlotsUsed(s: seq<Slot>, es: seq<Event>, k: nat, j: nat)
    requires s != [] && k < |es| && j < Takes(s, es, k) && !s[j].dirty
    ensures !Untouched(s, es, j)
  {
    var holder := SlotHolds(s, es[..k], j);
    assert After(s, es[..k])[j].dirty;
    assert holder.Some?;
    TakesOfPrefix(s, es, k, holder.value, j);
  }

  /** After any run, a reply finds the record that a query left if and only if that query shows. */
  lemma {:induction false} ReplyFindsExactly(es: seq<Event>, k: nat)
    requires k < |es| && es[k].Query?
    ensures var s, t := After(Blank(), es), Takes(Blank(), es, k);
            Shows(es, k) <==> Holder(Blank(), es, k, t) && FirstWith(s, es[k].qid) == t
    ensures Shows(es, k) ==> Found(After(Blank(), es), es[k].qid) == Some(es[k].record)
  {
    var s, t, q := After(Blank(), es), Takes(Blank(), es, k), es[k].qid;
    if Holder(Blank(), es, k, t) {
      HolderLeaves(Blank(), es, k, t);
      if Shows(es, k) {
        forall j | 0 <= j < t
          ensures s[j].qid != q
        {
          var h := SlotHolds(Blank(), es, j);
          if h.None? {
            EarlierSlotsUsed(Blank(), es, k, j);
          }
        }
        FirstIs(s, q, t);
      }
      forall m: nat, j: nat | FirstWith(s, q) == t && j < t && Holder(Blank(), es, m, j)
        ensures es[m].qid != q
      {
        HolderLeaves(Blank(), es, m, j);
      }
    }
  }

  lemma {:induction false} HolderLeaves(s: seq<Slot>, es: seq<Event>, k: nat, j: nat)
    requires s != [] && j < |s| && Holder(s, es, k, j)
    ensures After(s, es)[j].qid == es[k].qid && After(s, es)[j].record == es[k].record
  {
    var h := SlotHolds(s, es, j);
    assert h == Some(k);
  }

  /** Among queries that left different records: which of them a reply is taken for. */
  lemma {:induction false} ReplyFindsRecord(es: seq<Event>, k: nat)
    requires k < |es| && es[k].Query? && es[k].record != BLANK.record
    requires forall m :: 0 <= m < |es| && m != k && es[m].Query? && es[m].qid == es[k].qid ==> es[m].record != es[k].record
    ensures Found(After(Blank(), es), es[k].qid) == Some(es[k].record) <==> Shows(es, k)
  {
    ReplyFindsExactly(es, k);
    var s, q := After(Blank(), es), es[k].qid;
    if Found(s, q) == Some(es[k].record) {
      var j := FirstWith(s, q);
      var h := SlotHolds(Blank(), es, j);
      assert h.Some? && es[h.value].qid == q;
      assert h.value == k;
    }
  }

  /** So the latest query of an ID is found unless its slot has been taken over or an older one, put in
  an earlier slot, is still there; then that one is found, and without any of them none. */
  lemma {:induction false} WhatReplyFinds(es: seq<Event>, q: nat) returns (k: Option<nat>)
    ensures k.Some? ==> k.value < |es| && es[k.value].Query? && es[k.value].qid == q && Shows(es, k.value)
    ensures k.Some? ==> Found(After(Blank(), es), q) == Some(es[k.value].record)
    ensures k.None? ==> forall m: nat, j: nat :: Holder(Blank(), es, m, j) ==> es[m].qid != q
    ensures k.None? && q != BLANK.qid ==> Found(After(Blank(), es), q) == None
  {
    var s := After(Blank(), es);
    var j := FirstWith(s, q);
    k := None;
    if j < |s| {
      k := SlotHolds(Blank(), es, j);
    }
    if k.Some? {
      ReplyFindsExactly(es, k.value);
    } else {
      forall m: nat, i: nat | Holder(Blank(), es, m, i)
        ensures es[m].qid != q
      {
        HolderLeaves(Blank(), es, m, i);
        if es[m].qid == q {
          EarlierSlotsUsed(Blank(), es, m, j);
        }
      }
    }
  }

  // ----- a query received twice

  ghost predicate HasQuery(es: seq<Event>) {
    exists b :: 0 <= b < |es| && es[b].Query?
  }

  ghost predicate ReplyThenQuery(q: nat, es: seq<Event>) {
    exists a, b :: 0 <= a < b < |es| && es[a] == Reply(q) && es[b].Query?
  }

  lemma {:induction false} HasQueryStep(es: seq<Event>)
    requires es != []
    ensures HasQuery(es) <==> es[0].Query? || HasQuery(es[1..])
  {
    if HasQuery(es[1..]) {
      var b :| 0 <= b < |es[1..]| && es[1..][b].Query?;
      assert es[b + 1].Query?;
    }
    if HasQuery(es) && !es[0].Query? {
      var b :| 0 <= b < |es| && es[b].Query?;
      assert es[1..][b - 1].Query?;
    }
  }

  lemma {:induction false} ReplyThenQueryStep(q: nat, es: seq<Event>)
    requires es != []
    ensures ReplyThenQuery(q, es) <==> (es[0] == Reply(q) && HasQuery(es[1..])) || ReplyThenQuery(q, es[1..])
  {
    var rest := es[1..];
    if es[0] == Reply(q) && HasQuery(rest) {
      var b :| 0 <= b < |rest| && rest[b].Query?;
      assert es[0] == Reply(q) && es[b + 1].Query?;
    }
    if ReplyThenQuery(q, rest) {
      var a, b :| 0 <= a < b < |rest| && rest[a] == Reply(q) && rest[b].Query?;
      assert es[a + 1] == Reply(q) && es[b + 1].Query?;
    }
    if ReplyThenQuery(q, es) {
      var a, b :| 0 <= a < b < |es| && es[a] == Reply(q) && es[b].Query?;
      assert rest[b - 1].Query?;
      if a > 0 {
        assert rest[a - 1] == Reply(q);
      }
    }
  }

  predicate NoQueryFor(q: nat, es: seq<Event>) {
    forall i :: 0 <= i < |es| && es[i].Query? ==> es[i].qid != q
  }

  lemma {:induction false} NoQueryForRest(q: nat, es: seq<Event>)
    requires NoQueryFor(q, es) && es != []
    ensures NoQueryFor(q, es[1..])
  {
  }

  /** What the first slot is left with. */
  lemma {:induction false} FirstSlotAfter(s: seq<Slot>, q: nat, es: seq<Event>)
    requires |s| > 1 && NoQueryFor(q, es)
    ensures s[0].qid != q ==> After(s, es)[0].qid != q
    ensures s[0].qid == q && After(s, es)[0].qid == q ==> After(s, es)[0].record == s[0].record
    ensures s[0].qid == q ==>
              (After(s, es)[0].qid == q <==> !(if s[0].dirty then ReplyThenQuery(q, es) else HasQuery(es)))
    decreases |es|
  {
    if es != [] {
      NoQueryForRest(q, es);
      HasQueryStep(es);
      ReplyThenQueryStep(q, es);
      FirstSlotAfter(Step(s, es[0]), q, es[1..]);
      if s[0].qid == q && s[0].dirty && es[0] == Reply(q) {
        QueryAfterwards(q, es[1..]);
      }
    }
  }

  lemma {:induction false} QueryAfterwards(q: nat, es: seq<Event>)
    ensures ReplyThenQuery(q, es) ==> HasQuery(es)
  {
  }

  /** A query received again at once is hidden by its first copy exactly until that one has been replied
  to and another query has come in: before, a reply finds what the first copy left, and after, not. */
  lemma {:induction false} ResentQueryIsHidden(q: nat, r1: Record, r2: Record, es: seq<Event>)
    requires NoQueryFor(q, es)
    ensures var s := After(Blank(), [Query(q, r1), Query(q, r2)] + es);
            && (FirstWith(s, q) == 0 <==> !ReplyThenQuery(q, es))
            && (!ReplyThenQuery(q, es) ==> Found(s, q) == Some(r1))
  {
    var s1, s2 := TwoCopies(q, r1, r2, es);
    FirstSlotAfter(s2, q, es);
    var s := After(s2, es);
    assert FirstWith(s, q) == 0 <==> s[0].qid == q;
  }

  lemma {:induction false} TwoCopies(q: nat, r1: Record, r2: Record, es: seq<Event>) returns (s1: seq<Slot>, s2: seq<Slot>)
    ensures s1 == Blank()[0 := Slot(r1, q, true)] && s2 == s1[1 := Slot(r2, q, true)]
    ensures After(Blank(), [Query(q, r1), Query(q, r2)] + es) == After(s2, es)
  {
    var all := [Query(q, r1), Query(q, r2)] + es;
    s1 := Received(Blank(), q, r1);
    assert FirstFree(s1) == 1;
    s2 := Received(s1, q, r2);
    assert all[1..] == [Query(q, r2)] + es && all[1..][1..] == es;
    assert After(Blank(), all) == After(s1, all[1..]) == After(s2, es);
  }

  /** The next query of another ID uncovers the second copy. */
  lemma {:induction false} ResentQueryComesBack(q: nat, r1: Record, r2: Record, x: nat, r3: Record)
    requires x != q
    ensures Found(After(Blank(), [Query(q, r1), Query(q, r2), Reply(q), Query(x, r3)]), q) == Some(r2)
  {
    var es := [Reply(q), Query(x, r3)];
    var s1, s2 := TwoCopies(q, r1, r2, es);
    assert [Query(q, r1), Query(q, r2)] + es == [Query(q, r1), Query(q, r2), Reply(q), Query(x, r3)];
    var s3 := Replied(s2, q);
    assert s3 == s2[0 := Slot(r1, q, false)];
    var s4 := Received(s3, x, r3);
    assert es[1..] == [Query(x, r3)] && es[1..][1..] == [];
    assert After(s2, es) == After(s3, es[1..]) == After(s4, []) == s4;
    FirstIs(s4, q, 1);
  }

  // ----- the code

  class Table {
    const slots: array<Slot>
    var inited: bool

    ghost predicate Valid()
      reads this, slots
    {
      slots.Length == SLOTS && (!inited ==> slots[..] == Blank())
    }

    constructor ()
      ensures Valid() && slots[..] == Blank() && fresh(slots)
    {
      slots := new Slot[SLOTS](_ => BLANK);
      inited := false;
      new;
      assert slots[..] == Blank();
    }

    /** `netmap_add_macaddr`. */
    method AddMacaddr(r: Record, qid: nat)
      requires Valid()
      modifies this, slots
      ensures Valid() && slots[..] == Received(old(slots[..]), qid, r)
    {
      ghost var was := slots[..];
      if !inited {
        inited := true;
        Clear();
      }
      assert slots[..] == was;
      var i := 0;
      while i < SLOTS
        invariant 0 <= i <= SLOTS && slots[..] == was
        invariant forall k :: 0 <= k < i ==> was[k].dirty
      {
        if !slots[i].dirty {
          assert FirstFree(was) == i;
          slots[i] := Slot(r, qid, true);
          assert slots[..] == was[i := Slot(r, qid, true)];
          return;
        }
        i := i + 1;
      }
      assert FirstFree(was) == SLOTS;
      slots[SLOTS - 1] := Slot(r, qid, true);
      assert slots[..] == was[SLOTS - 1 := Slot(r, qid, true)];
    }

    method Clear()
      requires slots.Length == SLOTS
      modifies slots
      ensures slots[..] == Blank()
    {
      forall i | 0 <= i < slots.Length {
        slots[i] := BLANK;
      }
    }

    /** `netmap_get_macmap`: the result is missing where the code returns -1. */
    method GetMacmap(qid: nat) returns (r: Option<Record>)
      requires Valid()
      modifies slots
      ensures slots.Length == SLOTS && slots[..] == Replied(old(slots[..]), qid)
      ensures r == Found(old(slots[..]), qid)
      ensures Valid()
    {
      ghost var was := slots[..];
      var i := 0;
      while i < SLOTS
        invariant 0 <= i <= SLOTS && slots[..] == was
        invariant forall k :: 0 <= k < i ==> was[k].qid != qid
      {
        if slots[i].qid == qid {
          FirstIs(was, qid, i);
          r := Some(slots[i].record);
          slots[i] := slots[i].(dirty := false);
          assert slots[..] == was[i := was[i].(dirty := false)];
          return;
        }
        i := i + 1;
      }
      return None;
    }
  }
}
