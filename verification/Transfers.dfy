/** Recognising the end of a zone transfer (`check_for_more_data` of dig). */
module Transfers {

  datatype RR = Soa(serial: nat) | Other

  datatype Kind = Axfr | Ixfr(serial: nat)

  /** `isc_serial_ge` on 32-bit serial numbers. */
  predicate SerialGe(a: nat, b: nat) {
    a == b || 0 < (a - b) % 0x1_0000_0000 < 0x8000_0000
  }

  /** Serial numbers less than half the circle apart, counted on without end, are compared rightly. */
  lemma {:induction false} SerialOrder(a: nat, b: nat)
    requires -0x8000_0000 < a - b < 0x8000_0000
    ensures SerialGe(a % 0x1_0000_0000, b % 0x1_0000_0000) <==> a >= b
  {
    var p, q := a / 0x1_0000_0000, b / 0x1_0000_0000;
    assert a == p * 0x1_0000_0000 + a % 0x1_0000_0000 && b == q * 0x1_0000_0000 + b % 0x1_0000_0000;
    assert -1 <= p - q <= 1;
  }

  /** What a query carries from one message to the next. */
  datatype Progress = Progress(firstSoa: bool, firstSerial: nat, secondRr: bool, firstRepeat: bool)

  const START := Progress(false, 0, false, false)

  datatype Decision = Continue | Complete | Failed

  /** The effect of one record.  `axfr` lives only as long as the message. */
  datatype Outcome = Outcome(p: Progress, axfr: bool, d: Decision)

  function Step(k: Kind, p: Progress, axfr: bool, r: RR): (o: Outcome) {
    if !p.firstSoa && r.Other? then Outcome(p, axfr, Failed)
    else if !p.secondRr && r.Other? then Outcome(p.(secondRr := true), true, Continue)
    else if r.Other? then Outcome(p, axfr, Continue)
    else if !p.firstSoa then
      var q := p.(firstSoa := true, firstSerial := r.serial);
      Outcome(q, axfr, if k.Ixfr? && SerialGe(k.serial, r.serial) then Complete else Continue)
    else if axfr then Outcome(p, axfr, Complete)
    else if !p.secondRr then
      if p.firstSerial == r.serial then Outcome(p, axfr, Complete)
      else Outcome(p.(secondRr := true), axfr, Continue)
    else if p.firstSerial == r.serial then
      if !p.firstRepeat then Outcome(p.(firstRepeat := true), axfr, Continue)
      else Outcome(p, axfr, Complete)
    else Outcome(p, axfr, Continue)
  }

  /** Where a scan ends: at the record with this index, complete or failed, or nowhere. */
  datatype End = At(index: nat, ok: bool) | Open(p: Progress, axfr: bool)

  function Later(e: End, n: nat): End {
    if e.At? then At(e.index + n, e.ok) else e
  }

  /** Scanning records one after the other. */
  function Scan(k: Kind, p: Progress, axfr: bool, rrs: seq<RR>): (e: End)
    decreases |rrs|
  {
    if rrs == [] then Open(p, axfr)
    else
      var o := Step(k, p, axfr, rrs[0]);
      if o.d == Continue then Later(Scan(k, o.p, o.axfr, rrs[1..]), 1) else At(0, o.d == Complete)
  }

  /** Feeding a transfer message by message.  A message without records ends it as failed. */
  function Session(k: Kind, p: Progress, msgs: seq<seq<RR>>): (e: End)
    decreases |msgs|
  {
    if msgs == [] then Open(p, k.Axfr?)
    else if msgs[0] == [] then At(0, false)
    else
      var e := Scan(k, p, k.Axfr?, msgs[0]);
      if e.At? then e else Later(Session(k, e.p, msgs[1..]), |msgs[0]|)
  }

  function Concat(msgs: seq<seq<RR>>): (s: seq<RR>) {
    if msgs == [] then [] else msgs[0] + Concat(msgs[1..])
  }

  predicate NoneEmpty(msgs: seq<seq<RR>>) {
    forall i :: 0 <= i < |msgs| ==> msgs[i] != []
  }

  // ----- the code

  /** The transfer state of `dig_query_t`. */
  class Query {
    const kind: Kind
    var firstSoaRcvd: bool
    var firstRrSerial: nat
    var secondRrRcvd: bool
    var secondRrSerial: nat
    var firstRepeatRcvd: bool
    var rrCount: nat
    var msgCount: nat

    constructor (kind: Kind)
      ensures this.kind == kind && View() == START
    {
      this.kind := kind;
      firstSoaRcvd, firstRrSerial, secondRrRcvd, secondRrSerial, firstRepeatRcvd := false, 0, false, 0, false;
      rrCount, msgCount := 0, 0;
    }

    function View(): Progress
      reads this
    {
      Progress(firstSoaRcvd, firstRrSerial, secondRrRcvd, firstRepeatRcvd)
    }

    /** `check_for_more_data`: the answer section as a list of names, each with its rdatasets, each
    with its records.  The result is whether the transfer is over, and if so whether it failed. */
    method CheckForMoreData(names: seq<seq<seq<RR>>>) returns (d: Decision)
      modifies this
      ensures names == [] ==> d == Failed && View() == old(View())
      ensures names != [] ==>
                match Scan(kind, old(View()), kind.Axfr?, AllRecords(names))
                case At(i, ok) => d == (if ok then Complete else Failed) && rrCount == old(rrCount) + i + 1
                case Open(p, _) => d == Continue && View() == p && rrCount == old(rrCount) + |AllRecords(names)|
    {
      msgCount := msgCount + 1;
      if names == [] {
        return Failed;
      }
      var axfr := kind.Axfr?;
      ghost var start, total := View(), AllRecords(names);
      var n := 0;
      while n < |names|
        invariant 0 <= n <= |names|
        invariant Reached(start, total, AllRecords(names[n..]), axfr, old(rrCount))
      {
        var s := 0;
        NamesStep(names, n);
        while s < |names[n]|
          invariant 0 <= s <= |names[n]|
          invariant Reached(start, total, Records(names[n][s..]) + AllRecords(names[n + 1..]), axfr, old(rrCount))
        {
          SetsStep(names[n], s, AllRecords(names[n + 1..]));
          d, axfr := RecordSet(names[n][s], axfr, start, total, Records(names[n][s + 1..]) + AllRecords(names[n + 1..]), old(rrCount));
          if d != Continue {
            return;
          }
          s := s + 1;
        }
        assert Records(names[n][s..]) + AllRecords(names[n + 1..]) == AllRecords(names[n + 1..]);
        n := n + 1;
      }
      return Continue;
    }

    /** What has been scanned of `total` from state `start` leaves `rest` to be scanned from here. */
    ghost predicate Reached(start: Progress, total: seq<RR>, rest: seq<RR>, axfr: bool, count: nat)
      reads this
    {
      && |rest| <= |total| && rrCount == count + |total| - |rest|
      && Scan(kind, start, kind.Axfr?, total) == Later(Scan(kind, View(), axfr, rest), |total| - |rest|)
    }

    /** The scan of `total` has ended with the record before `rest`. */
    ghost predicate Ended(start: Progress, total: seq<RR>, d: Decision, count: nat)
      reads this
    {
      && count < rrCount <= count + |total| && d != Continue
      && Scan(kind, start, kind.Axfr?, total) == At(rrCount - count - 1, d == Complete)
    }

    /** The innermost loop. */
    method RecordSet(rdatas: seq<RR>, axfr: bool, ghost start: Progress, ghost total: seq<RR>, ghost after: seq<RR>,
                     ghost count: nat)
      returns (d: Decision, axfr': bool)
      requires Reached(start, total, rdatas + after, axfr, count)
      modifies this
      ensures if d == Continue then Reached(start, total, after, axfr', count) else Ended(start, total, d, count)
    {
      var r := 0;
      d, axfr' := Continue, axfr;
      assert rdatas[0..] == rdatas;
      while r < |rdatas|
        invariant 0 <= r <= |rdatas| && d == Continue
        invariant Reached(start, total, rdatas[r..] + after, axfr', count)
      {
        ghost var rest := rdatas[r + 1..] + after;
        assert rdatas[r..] + after == [rdatas[r]] + rest;
        d, axfr' := Record(rdatas[r], axfr', start, total, rest, count);
        if d != Continue {
          return;
        }
        r := r + 1;
      }
      assert rdatas[r..] + after == after;
    }

    /** The body of the innermost loop. */
    method Record(rdata: RR, axfr: bool, ghost start: Progress, ghost total: seq<RR>, ghost rest: seq<RR>,
                  ghost count: nat)
      returns (d: Decision, axfr': bool)
      requires Reached(start, total, [rdata] + rest, axfr, count)
      modifies this
      ensures if d == Continue then Reached(start, total, rest, axfr', count) else Ended(start, total, d, count)
    {
      ghost var o := Step(kind, View(), axfr, rdata);
      assert ([rdata] + rest)[1..] == rest;
      rrCount := rrCount + 1;
      axfr' := axfr;
      d := Continue;
      if !firstSoaRcvd && rdata.Other? {
        return Failed, axfr';
      }
      if !secondRrRcvd && rdata.Other? {
        secondRrRcvd, secondRrSerial := true, 0;
        axfr' := true;
        return;
      }
      if rdata.Other? {
        return;
      }
      var serial := rdata.serial;
      if !firstSoaRcvd {
        firstSoaRcvd, firstRrSerial := true, serial;
        if kind.Ixfr? && SerialGe(kind.serial, serial) {
          return Complete, axfr';
        }
        return;
      }
      if axfr {
        return Complete, axfr';
      }
      if !secondRrRcvd {
        if firstRrSerial == serial {
          return Complete, axfr';
        }
        secondRrRcvd, secondRrSerial := true, serial;
        return;
      }
      if firstRrSerial == serial {
        if !firstRepeatRcvd {
          firstRepeatRcvd := true;
          return;
        }
        return Complete, axfr';
      }
    }
  }

  function Records(sets: seq<seq<RR>>): (s: seq<RR>) {
    if sets == [] then [] else sets[0] + Records(sets[1..])
  }

  function AllRecords(names: seq<seq<seq<RR>>>): (s: seq<RR>) {
    if names == [] then [] else Records(names[0]) + AllRecords(names[1..])
  }

  lemma {:induction false} NamesStep(names: seq<seq<seq<RR>>>, n: nat)
    requires n < |names|
    ensures AllRecords(names[n..]) == Records(names[n][0..]) + AllRecords(names[n + 1..])
  {
    assert names[n][0..] == names[n] && names[n..][1..] == names[n + 1..];
  }

  lemma {:induction false} SetsStep(sets: seq<seq<RR>>, s: nat, after: seq<RR>)
    requires s < |sets|
    ensures Records(sets[s..]) + after == sets[s] + (Records(sets[s + 1..]) + after)
  {
    assert sets[s][0..] == sets[s] && sets[s..][1..] == sets[s + 1..];
  }

  // ----- messages against the stream

  lemma {:induction false} ScanConcat(k: Kind, p: Progress, axfr: bool, a: seq<RR>, b: seq<RR>)
    ensures var e := Scan(k, p, axfr, a);
            Scan(k, p, axfr, a + b) == if e.At? then e else Later(Scan(k, e.p, e.axfr, b), |a|)
    decreases |a|
  {
    if a == [] {
      assert a + b == b;
    } else {
      assert (a + b)[1..] == a[1..] + b;
      var o := Step(k, p, axfr, a[0]);
      if o.d == Continue {
        ScanConcat(k, o.p, o.axfr, a[1..], b);
      }
    }
  }

  /** A second record that is not an SOA cannot come: it came, or the records to come begin with the
  SOA records that an incremental answer begins with. */
  predicate SecondIsSoa(p: Progress, s: seq<RR>) {
    || p.secondRr
    || (p.firstSoa && (s == [] || s[0].Soa?))
    || (!p.firstSoa && (s == [] || (s[0].Soa? && (|s| == 1 || s[1].Soa?))))
  }

  /** Such records never make the scan believe in a full transfer. */
  lemma {:induction false} NeverAxfr(k: Kind, p: Progress, a: seq<RR>, b: seq<RR>)
    requires SecondIsSoa(p, a + b) && Scan(k, p, false, a).Open?
    ensures !Scan(k, p, false, a).axfr && SecondIsSoa(Scan(k, p, false, a).p, b)
    decreases |a|
  {
    if a == [] {
      assert a + b == b;
    } else {
      assert (a + b)[1..] == a[1..] + b && (a + b)[0] == a[0];
      if |a + b| > 1 {
        assert (a + b)[1] == (a[1..] + b)[0];
      }
      NeverAxfr(k, Step(k, p, false, a[0]).p, a[1..], b);
    }
  }

  lemma {:induction false} AxfrStays(p: Progress, a: seq<RR>)
    requires Scan(Axfr, p, true, a).Open?
    ensures Scan(Axfr, p, true, a).axfr
    decreases |a|
  {
    if a != [] {
      AxfrStays(Step(Axfr, p, true, a[0]).p, a[1..]);
    }
  }

  /** For a query for a full transfer, and for an answer whose second record is an SOA, it does not
  matter how the records are divided into messages. */
  lemma {:induction false} DivisionDoesNotMatter(k: Kind, p: Progress, msgs: seq<seq<RR>>)
    requires NoneEmpty(msgs) && (k.Axfr? || SecondIsSoa(p, Concat(msgs)))
    ensures Session(k, p, msgs) == Scan(k, p, k.Axfr?, Concat(msgs))
    decreases |msgs|
  {
    if msgs != [] {
      var rest := Concat(msgs[1..]);
      ScanConcat(k, p, k.Axfr?, msgs[0], rest);
      var e := Scan(k, p, k.Axfr?, msgs[0]);
      if e.Open? {
        if k.Axfr? {
          AxfrStays(p, msgs[0]);
        } else {
          NeverAxfr(k, p, msgs[0], rest);
        }
        DivisionDoesNotMatter(k, e.p, msgs[1..]);
      }
    }
  }

  // ----- full transfers

  predicate NoSoa(s: seq<RR>) {
    forall i :: 0 <= i < |s| ==> s[i].Other?
  }

  lemma {:induction false} NoSoaRest(s: seq<RR>, k: nat)
    requires NoSoa(s) && k <= |s|
    ensures NoSoa(s[k..])
  {
  }

  lemma {:induction false} OthersPass(k: Kind, p: Progress, axfr: bool, s: seq<RR>)
    requires p.firstSoa && NoSoa(s)
    ensures Scan(k, p, axfr, s) ==
            if s == [] then Open(p, axfr) else Open(p.(secondRr := true), axfr || !p.secondRr)
    decreases |s|
  {
    if s != [] {
      var o := Step(k, p, axfr, s[0]);
      OthersPass(k, o.p, o.axfr, s[1..]);
      assert p.secondRr ==> o.p == p;
    }
  }

  /** A query for a full transfer is complete at the second SOA, whatever came between and after. */
  lemma {:induction false} FullTransferEnds(serial: nat, body: seq<RR>, last: nat, after: seq<RR>, msgs: seq<seq<RR>>)
    requires NoneEmpty(msgs) && NoSoa(body)
    requires Concat(msgs) == [Soa(serial)] + body + [Soa(last)] + after
    ensures Session(Axfr, START, msgs) == At(|body| + 1, true)
  {
    var s := [Soa(serial)] + body + [Soa(last)] + after;
    DivisionDoesNotMatter(Axfr, START, msgs);
    var p := Step(Axfr, START, true, Soa(serial)).p;
    var tail := [Soa(last)] + after;
    assert s == [Soa(serial)] + (body + tail) && s[1..] == body + tail;
    OthersPass(Axfr, p, true, body);
    ScanConcat(Axfr, p, true, body, tail);
    assert tail[0] == Soa(last);
  }

  // ----- incremental transfers

  ghost function Occurrences(s: seq<RR>, r: RR): (n: nat) {
    if s == [] then 0 else (if s[0] == r then 1 else 0) + Occurrences(s[1..], r)
  }

  /** Once the second record has come as an SOA, the transfer is complete exactly at the second further
  SOA with the serial of the first, or at the first one if one has been seen. */
  lemma {:induction false} ThirdOccurrenceEnds(k: Kind, p: Progress, s: seq<RR>, i: nat)
    requires p.firstSoa && p.secondRr && i < |s|
    ensures var want := if p.firstRepeat then 0 else 1;
            Scan(k, p, false, s) == At(i, true) <==>
            s[i] == Soa(p.firstSerial) && Occurrences(s[..i], Soa(p.firstSerial)) == want
    decreases |s|
  {
    var o := Step(k, p, false, s[0]);
    if i == 0 {
      assert s[..0] == [];
      if o.d == Continue {
        assert Scan(k, p, false, s) != At(0, true);
      }
    } else {
      assert s[..i][1..] == s[1..][..i - 1] && s[..i][0] == s[0];
      if o.d == Continue {
        ThirdOccurrenceEnds(k, o.p, s[1..], i - 1);
        assert Scan(k, p, false, s) == Later(Scan(k, o.p, o.axfr, s[1..]), 1);
      }
    }
  }

  /** One difference sequence of section 4 of RFC 1995. */
  datatype Diff = Diff(from: nat, deleted: seq<RR>, to: nat, added: seq<RR>)

  function DiffRecords(d: Diff): seq<RR> {
    [Soa(d.from)] + d.deleted + [Soa(d.to)] + d.added
  }

  function AllDiffs(ds: seq<Diff>): seq<RR> {
    if ds == [] then [] else DiffRecords(ds[0]) + AllDiffs(ds[1..])
  }

  /** An incremental response: the new SOA, the difference sequences, the new SOA again. */
  function Incremental(serial: nat, ds: seq<Diff>): seq<RR> {
    [Soa(serial)] + AllDiffs(ds) + [Soa(serial)]
  }

  /** The differences lead to `serial` at their end and not before. */
  predicate LeadsTo(ds: seq<Diff>, serial: nat) {
    && ds != []
    && (forall i :: 0 <= i < |ds| ==> NoSoa(ds[i].deleted) && NoSoa(ds[i].added) && ds[i].from != serial)
    && (forall i :: 0 <= i < |ds| ==> (ds[i].to == serial <==> i == |ds| - 1))
  }

  lemma {:induction false} OccurrencesConcat(a: seq<RR>, b: seq<RR>, r: RR)
    ensures Occurrences(a + b, r) == Occurrences(a, r) + Occurrences(b, r)
  {
    if a == [] {
      assert a + b == b;
    } else {
      OccurrencesConcat(a[1..], b, r);
      assert (a + b)[1..] == a[1..] + b;
    }
  }

  lemma {:induction false} OthersDoNotOccur(s: seq<RR>, serial: nat)
    requires NoSoa(s)
    ensures Occurrences(s, Soa(serial)) == 0
  {
    if s != [] {
      OthersDoNotOccur(s[1..], serial);
    }
  }

  lemma {:induction false} DiffOccurrences(d: Diff, serial: nat)
    requires NoSoa(d.deleted) && NoSoa(d.added) && d.from != serial
    ensures Occurrences(DiffRecords(d), Soa(serial)) == if d.to == serial then 1 else 0
  {
    var o, n := [Soa(d.from)], [Soa(d.to)];
    OccurrencesConcat(o + d.deleted + n, d.added, Soa(serial));
    OccurrencesConcat(o + d.deleted, n, Soa(serial));
    OccurrencesConcat(o, d.deleted, Soa(serial));
    OthersDoNotOccur(d.deleted, serial);
    OthersDoNotOccur(d.added, serial);
    assert o[1..] == [] && n[1..] == [];
  }

  /** The new serial appears once among the difference sequences. */
  lemma {:induction false} DiffsOccurrences(ds: seq<Diff>, serial: nat)
    requires LeadsTo(ds, serial)
    ensures Occurrences(AllDiffs(ds), Soa(serial)) == 1
    decreases |ds|
  {
    DiffOccurrences(ds[0], serial);
    OccurrencesConcat(DiffRecords(ds[0]), AllDiffs(ds[1..]), Soa(serial));
    if |ds| > 1 {
      DiffsOccurrences(ds[1..], serial);
    }
  }

  /** Of any response framed as an incremental one, however its records are divided into messages, the
  last record is taken for the end if and only if the new serial appears in exactly one SOA record
  of the difference sequences. */
  lemma {:induction false} IncrementalEndsExactly(mine: nat, serial: nat, ds: seq<Diff>, after: seq<RR>, msgs: seq<seq<RR>>)
    requires NoneEmpty(msgs) && ds != [] && ds[0].from != serial && !SerialGe(mine, serial)
    requires Concat(msgs) == Incremental(serial, ds) + after
    ensures Session(Ixfr(mine), START, msgs) == At(|Incremental(serial, ds)| - 1, true) <==>
            Occurrences(AllDiffs(ds), Soa(serial)) == 1
  {
    var k, s, body := Ixfr(mine), Incremental(serial, ds) + after, AllDiffs(ds);
    assert body[0] == Soa(ds[0].from) && s[0] == Soa(serial) && s[1] == body[0];
    DivisionDoesNotMatter(k, START, msgs);
    var p1 := Step(k, START, false, s[0]).p;
    var p2 := Step(k, p1, false, s[1]).p;
    var rest := body[1..] + [Soa(serial)] + after;
    assert s[1..] == body + [Soa(serial)] + after && s[1..][1..] == rest;
    assert Occurrences(body[1..], Soa(serial)) == Occurrences(body, Soa(serial));
    assert rest[..|body| - 1] == body[1..];
    ThirdOccurrenceEnds(k, p2, rest, |body| - 1);
    assert Scan(k, START, false, s) == Later(Later(Scan(k, p2, false, rest), 1), 1);
  }

  /** A response whose intermediate serials differ from the new one is recognised as complete at its
  last record and not before, whatever follows. */
  lemma {:induction false} IncrementalTransferEnds(mine: nat, serial: nat, ds: seq<Diff>, after: seq<RR>, msgs: seq<seq<RR>>)
    requires NoneEmpty(msgs) && LeadsTo(ds, serial) && !SerialGe(mine, serial)
    requires Concat(msgs) == Incremental(serial, ds) + after
    ensures Session(Ixfr(mine), START, msgs) == At(|Incremental(serial, ds)| - 1, true)
  {
    DiffsOccurrences(ds, serial);
    IncrementalEndsExactly(mine, serial, ds, after, msgs);
  }

  /** An answer that says the client is up to date is complete at its first record. */
  lemma {:induction false} UpToDateEnds(mine: nat, serial: nat, after: seq<RR>, msgs: seq<seq<RR>>)
    requires NoneEmpty(msgs) && msgs != [] && SerialGe(mine, serial)
    requires Concat(msgs) == [Soa(serial)] + after
    ensures Session(Ixfr(mine), START, msgs) == At(0, true)
  {
    assert msgs[0][0] == Concat(msgs)[0];
  }

  /** An answer that does not begin with an SOA record has failed. */
  lemma {:induction false} NoSoaFails(k: Kind, msgs: seq<seq<RR>>)
    requires msgs != [] && msgs[0] != [] && msgs[0][0].Other?
    ensures Session(k, START, msgs) == At(0, false)
  {
  }

  /** A message without records ends any transfer as failed. */
  lemma {:induction false} EmptyMessageFails(k: Kind, p: Progress, msgs: seq<seq<RR>>)
    requires msgs != [] && msgs[0] == []
    ensures Session(k, p, msgs) == At(0, false)
  {
  }

  /** Two SOA records with the new serial at once are an empty zone, complete at the second. */
  lemma {:induction false} EmptyZoneEnds(mine: nat, serial: nat, after: seq<RR>, msgs: seq<seq<RR>>)
    requires NoneEmpty(msgs) && !SerialGe(mine, serial)
    requires Concat(msgs) == [Soa(serial), Soa(serial)] + after
    ensures Session(Ixfr(mine), START, msgs) == At(1, true)
  {
    var k, s := Ixfr(mine), [Soa(serial), Soa(serial)] + after;
    assert s[0] == Soa(serial) && s[1] == Soa(serial);
    DivisionDoesNotMatter(k, START, msgs);
    var p := Step(k, START, false, s[0]).p;
    assert s[1..][0] == Soa(serial);
    assert Scan(k, p, false, s[1..]) == At(0, true);
  }

  // ----- a full answer to an incremental query

  /** The message that holds record `i`. */
  function MessageOf(msgs: seq<seq<RR>>, i: nat): (m: nat)
    requires i < |Concat(msgs)|
    decreases |msgs|
  {
    if i < |msgs[0]| then 0 else 1 + MessageOf(msgs[1..], i - |msgs[0]|)
  }

  /** A full answer in place of an incremental one. */
  predicate FullAnswer(s: seq<RR>, serial: nat, last: nat) {
    |s| >= 3 && s[0] == Soa(serial) && s[|s| - 1] == Soa(last) && NoSoa(s[1..|s| - 1])
  }

  /** In a message after the one with the second record, the final SOA is not taken for the end. */
  lemma {:induction false} LaterMessagesWait(k: Kind, p: Progress, msgs: seq<seq<RR>>, last: nat)
    requires k.Ixfr? && p.firstSoa && p.secondRr && !p.firstRepeat && NoneEmpty(msgs) && msgs != []
    requires var s := Concat(msgs); |s| >= 1 && s[|s| - 1] == Soa(last) && NoSoa(s[..|s| - 1])
    ensures Session(k, p, msgs).Open?
    decreases |msgs|
  {
    var s := Concat(msgs);
    if |msgs| == 1 {
      assert msgs[1..] == [] && s == msgs[0];
      var body := s[..|s| - 1];
      assert s == body + [Soa(last)];
      OthersPass(k, p, false, body);
      ScanConcat(k, p, false, body, [Soa(last)]);
      assert [Soa(last)][1..] == [];
    } else {
      var rest := Concat(msgs[1..]);
      assert msgs[1..][0] != [];
      assert rest != [];
      assert forall i :: 0 <= i < |msgs[0]| ==> msgs[0][i] == s[..|s| - 1][i];
      OthersPass(k, p, false, msgs[0]);
      assert rest == s[|msgs[0]|..];
      NoSoaRest(s[..|s| - 1], |msgs[0]|);
      assert rest[..|rest| - 1] == s[..|s| - 1][|msgs[0]|..];
      LaterMessagesWait(k, p, msgs[1..], last);
    }
  }

  /** A full answer to an incremental query is recognised at its final SOA if and only if that SOA
  arrives in the same message as the record after the first SOA.  Otherwise the transfer stays
  open: the knowledge that this is a full transfer does not survive the message. */
  lemma {:induction false} FullAnswerNeedsOneMessage(mine: nat, serial: nat, last: nat, msgs: seq<seq<RR>>)
    requires NoneEmpty(msgs) && FullAnswer(Concat(msgs), serial, last) && !SerialGe(mine, serial)
    ensures var s := Concat(msgs);
            if MessageOf(msgs, 1) == MessageOf(msgs, |s| - 1)
            then Session(Ixfr(mine), START, msgs) == At(|s| - 1, true)
            else Session(Ixfr(mine), START, msgs).Open?
  {
    var k, s := Ixfr(mine), Concat(msgs);
    var p := Step(k, START, false, Soa(serial)).p;
    assert s[1..][..|s| - 2] == s[1..|s| - 1];
    if |msgs[0]| == 1 {
      assert msgs[0] == [s[0]] && s[1..] == Concat(msgs[1..]);
      assert Scan(k, START, false, msgs[0]) == Open(p, false) by { assert msgs[0][1..] == []; }
      assert msgs[1..][0] != [];
      FullAnswerBody(k, p, msgs[1..], last);
      assert Session(k, START, msgs) == Later(Session(k, p, msgs[1..]), 1);
      assert MessageOf(msgs, 1) == 1 + MessageOf(msgs[1..], 0) == 1;
      assert MessageOf(msgs, |s| - 1) == 1 + MessageOf(msgs[1..], |s| - 2);
    } else {
      var m := msgs[0][1..];
      var rest := [m] + msgs[1..];
      assert rest[1..] == msgs[1..];
      assert Concat(rest) == s[1..];
      FullAnswerBody(k, p, rest, last);
      assert msgs[0][0] == s[0];
      var e := Scan(k, p, false, m);
      assert Scan(k, START, false, msgs[0]) == Later(e, 1);
      assert Session(k, START, msgs) == Later(Session(k, p, rest), 1);
    }
  }

  /** The same from after the first SOA. */
  lemma {:induction false} FullAnswerBody(k: Kind, p: Progress, msgs: seq<seq<RR>>, last: nat)
    requires k.Ixfr? && p.firstSoa && !p.secondRr && !p.firstRepeat && NoneEmpty(msgs)
    requires var s := Concat(msgs); |s| >= 2 && s[|s| - 1] == Soa(last) && NoSoa(s[..|s| - 1])
    ensures var s := Concat(msgs);
            if MessageOf(msgs, |s| - 1) == 0 then Session(k, p, msgs) == At(|s| - 1, true)
            else Session(k, p, msgs).Open?
  {
    var s := Concat(msgs);
    var m, rest := msgs[0], Concat(msgs[1..]);
    if |m| == |s| {
      var body := m[..|m| - 1];
      assert m == s && m == body + [Soa(last)];
      OthersPass(k, p, false, body);
      ScanConcat(k, p, false, body, [Soa(last)]);
    } else {
      assert forall i :: 0 <= i < |m| ==> m[i] == s[..|s| - 1][i];
      OthersPass(k, p, false, m);
      assert rest == s[|m|..];
      NoSoaRest(s[..|s| - 1], |m|);
      assert rest[..|rest| - 1] == s[..|s| - 1][|m|..];
      LaterMessagesWait(k, p.(secondRr := true), msgs[1..], last);
    }
  }
}
