/** Signing the nodes of a zone with several worker tasks: the master hands out nodes (`assignwork`),
workers sign them (`sign`), the master writes them out and hands out the next (`writenode`).  Events
for the master are handled one at a time, but in any order allowed by the workers' progress. */
module ParallelSigning {
  import opened Options
  import opened Names
  import opened Zones
  import opened SignedNames

  /** What a worker is doing: its start event is queued, it has a node to sign, it has sent the signed
  node back, or it has been told that there is no more work. */
  datatype Worker = Waiting | Signing(node: nat) | Writing(node: nat) | Idle

  /** The node a worker holds, signed or not; and the node it holds unsigned. */
  function Held(w: Worker): (ns: multiset<nat>) {
    if w.Signing? || w.Writing? then multiset{w.node} else multiset{}
  }

  function Raw(w: Worker): (ns: multiset<nat>) {
    if w.Signing? then multiset{w.node} else multiset{}
  }

  function IsIdle(w: Worker): nat {
    if w.Idle? then 1 else 0
  }

  /** The events still to come from a worker's present task. */
  function Load(w: Worker): nat {
    match w
    case Waiting => 1
    case Signing(_) => 3
    case Writing(_) => 2
    case Idle => 0
  }

  ghost function InFlight(ws: seq<Worker>): (ns: multiset<nat>) {
    if ws == [] then multiset{} else InFlight(ws[1..]) + Held(ws[0])
  }

  ghost function Unsigned(ws: seq<Worker>): (ns: multiset<nat>) {
    if ws == [] then multiset{} else Unsigned(ws[1..]) + Raw(ws[0])
  }

  ghost function IdleCount(ws: seq<Worker>): (n: nat)
    ensures n <= |ws|
  {
    if ws == [] then 0 else IdleCount(ws[1..]) + IsIdle(ws[0])
  }

  lemma {:induction false} AllIdle(ws: seq<Worker>)
    requires forall i :: 0 <= i < |ws| ==> ws[i].Idle?
    ensures IdleCount(ws) == |ws|
  {
    if ws != [] {
      AllIdle(ws[1..]);
    }
  }

  ghost function Weight(ws: seq<Worker>): (n: nat) {
    if ws == [] then 0 else Weight(ws[1..]) + Load(ws[0])
  }

  lemma {:induction false} BagShift(a: multiset<nat>, b: multiset<nat>, c: multiset<nat>, d: multiset<nat>, h: multiset<nat>)
    requires a + b == c + d
    ensures a + h + b == c + h + d
  {
    assert a + h + b == a + b + h && c + h + d == c + d + h;
  }

  lemma {:induction false} Cancel(x: multiset<nat>, y: multiset<nat>, b: multiset<nat>)
    requires x + b == y + b
    ensures x == y
  {
    assert x + b - b == x && y + b - b == y;
  }

  lemma {:induction false} Swap(a: multiset<nat>, b: multiset<nat>, c: multiset<nat>)
    ensures a + b + c == a + c + b
  {
  }

  lemma {:induction false} MovesOver(s: seq<nat>, n: nat, left: multiset<nat>, was: multiset<nat>, all: multiset<nat>)
    requires left + multiset{n} == was && multiset(s) + was == all
    ensures multiset(s + [n]) + left == all
  {
    assert multiset(s + [n]) == multiset(s) + multiset{n};
    assert multiset(s) + multiset{n} + left == multiset(s) + (left + multiset{n});
  }

  lemma {:induction false} InFlightUpdate(ws: seq<Worker>, w: nat, x: Worker)
    requires w < |ws|
    ensures InFlight(ws[w := x]) + Held(ws[w]) == InFlight(ws) + Held(x)
    decreases |ws|
  {
    var us := ws[w := x];
    if w > 0 {
      InFlightUpdate(ws[1..], w - 1, x);
      assert us[1..] == ws[1..][w - 1 := x];
      BagShift(InFlight(us[1..]), Held(ws[w]), InFlight(ws[1..]), Held(x), Held(ws[0]));
    } else {
      assert us[1..] == ws[1..];
      Swap(InFlight(ws[1..]), Held(x), Held(ws[0]));
    }
  }

  lemma {:induction false} UnsignedUpdate(ws: seq<Worker>, w: nat, x: Worker)
    requires w < |ws|
    ensures Unsigned(ws[w := x]) + Raw(ws[w]) == Unsigned(ws) + Raw(x)
    decreases |ws|
  {
    var us := ws[w := x];
    if w > 0 {
      UnsignedUpdate(ws[1..], w - 1, x);
      assert us[1..] == ws[1..][w - 1 := x];
      BagShift(Unsigned(us[1..]), Raw(ws[w]), Unsigned(ws[1..]), Raw(x), Raw(ws[0]));
    } else {
      assert us[1..] == ws[1..];
      Swap(Unsigned(ws[1..]), Raw(x), Raw(ws[0]));
    }
  }

  lemma {:induction false} IdleUpdate(ws: seq<Worker>, w: nat, x: Worker)
    requires w < |ws|
    ensures IdleCount(ws[w := x]) + IsIdle(ws[w]) == IdleCount(ws) + IsIdle(x)
    decreases |ws|
  {
    var us := ws[w := x];
    if w > 0 {
      IdleUpdate(ws[1..], w - 1, x);
      assert us[1..] == ws[1..][w - 1 := x];
      assert IdleCount(us) == IdleCount(us[1..]) + IsIdle(ws[0]) && IdleCount(ws) == IdleCount(ws[1..]) + IsIdle(ws[0]);
    } else {
      assert us[1..] == ws[1..];
      assert IdleCount(us) == IdleCount(ws[1..]) + IsIdle(x) && IdleCount(ws) == IdleCount(ws[1..]) + IsIdle(ws[0]);
    }
  }

  lemma {:induction false} WeightUpdate(ws: seq<Worker>, w: nat, x: Worker)
    requires w < |ws|
    ensures Weight(ws[w := x]) + Load(ws[w]) == Weight(ws) + Load(x)
    decreases |ws|
  {
    var us := ws[w := x];
    if w > 0 {
      WeightUpdate(ws[1..], w - 1, x);
      assert us[1..] == ws[1..][w - 1 := x];
      assert Weight(us) == Weight(us[1..]) + Load(ws[0]) && Weight(ws) == Weight(ws[1..]) + Load(ws[0]);
    } else {
      assert us[1..] == ws[1..];
      assert Weight(us) == Weight(ws[1..]) + Load(x) && Weight(ws) == Weight(ws[1..]) + Load(ws[0]);
    }
  }

  lemma {:induction false} WorkerUpdate(ws: seq<Worker>, w: nat, x: Worker)
    requires w < |ws|
    ensures InFlight(ws[w := x]) + Held(ws[w]) == InFlight(ws) + Held(x)
    ensures Unsigned(ws[w := x]) + Raw(ws[w]) == Unsigned(ws) + Raw(x)
    ensures IdleCount(ws[w := x]) + IsIdle(ws[w]) == IdleCount(ws) + IsIdle(x)
    ensures Weight(ws[w := x]) + Load(ws[w]) == Weight(ws) + Load(x)
  {
    InFlightUpdate(ws, w, x);
    UnsignedUpdate(ws, w, x);
    IdleUpdate(ws, w, x);
    WeightUpdate(ws, w, x);
  }

  lemma {:induction false} Unit(m: multiset<nat>)
    ensures m + multiset{} == m
  {
  }

  /** The moves of a worker, in terms of the nodes in flight. */
  lemma {:induction false} BecomesIdle(ws: seq<Worker>, w: nat)
    requires w < |ws| && ws[w] == Waiting
    ensures InFlight(ws[w := Idle]) == InFlight(ws) && Unsigned(ws[w := Idle]) == Unsigned(ws)
    ensures IdleCount(ws[w := Idle]) == IdleCount(ws) + 1 && Weight(ws[w := Idle]) + 1 == Weight(ws)
  {
    var us := ws[w := Idle];
    WorkerUpdate(ws, w, Idle);
    Unit(InFlight(us));
    Unit(InFlight(ws));
    Unit(Unsigned(us));
    Unit(Unsigned(ws));
  }

  lemma {:induction false} GetsNode(ws: seq<Worker>, w: nat, n: nat)
    requires w < |ws| && ws[w] == Waiting
    ensures var us := ws[w := Signing(n)];
            && InFlight(us) == InFlight(ws) + multiset{n} && Unsigned(us) == Unsigned(ws) + multiset{n}
            && IdleCount(us) == IdleCount(ws) && Weight(us) == Weight(ws) + 2
  {
    var us := ws[w := Signing(n)];
    WorkerUpdate(ws, w, Signing(n));
    Unit(InFlight(us));
    Unit(Unsigned(us));
  }

  lemma {:induction false} SignsNode(ws: seq<Worker>, w: nat, n: nat)
    requires w < |ws| && ws[w] == Signing(n)
    ensures var us := ws[w := Writing(n)];
            && InFlight(us) == InFlight(ws) && Unsigned(us) + multiset{n} == Unsigned(ws)
            && IdleCount(us) == IdleCount(ws) && Weight(us) + 1 == Weight(ws)
  {
    var us := ws[w := Writing(n)];
    WorkerUpdate(ws, w, Writing(n));
    Unit(Unsigned(ws));
    Cancel(InFlight(us), InFlight(ws), multiset{n});
  }

  lemma {:induction false} ReturnsNode(ws: seq<Worker>, w: nat, n: nat)
    requires w < |ws| && ws[w] == Writing(n)
    ensures var us := ws[w := Waiting];
            && InFlight(us) + multiset{n} == InFlight(ws) && Unsigned(us) == Unsigned(ws)
            && IdleCount(us) == IdleCount(ws) && Weight(us) + 1 == Weight(ws)
  {
    var us := ws[w := Waiting];
    WorkerUpdate(ws, w, Waiting);
    Unit(InFlight(ws));
    Unit(Unsigned(us));
    Unit(Unsigned(ws));
  }

  lemma {:induction false} NoneInFlight(ws: seq<Worker>)
    requires IdleCount(ws) == |ws|
    ensures InFlight(ws) == multiset{} && Unsigned(ws) == multiset{}
  {
    if ws != [] {
      NoneInFlight(ws[1..]);
    }
  }

  /** A tree that holds only NSEC3 records: what the database puts beside the main tree. */
  predicate IsNsec3Tree(extra: seq<Node>) {
    forall i :: 0 <= i < |extra| ==> extra[i].rrs <= {NSEC3} && extra[i].nsec == None
  }

  predicate NoNsec3(nodes: seq<Node>) {
    forall i :: 0 <= i < |nodes| ==> NSEC3 !in nodes[i].rrs
  }

  class Signer {
    const origin: Name
    const withNsec3: bool
    const optout: bool
    /** The main tree in canonical order, and the NSEC3 tree.  The iterator runs through the first, then
    through the second, in which the database keeps a node named like the origin, too. */
    const nodes: seq<Node>
    const extra: seq<Node>
    const ntasks: nat
    ghost const apex: nat

    var pos: nat
    var finished: bool
    var ended: nat
    var zonecut: Option<Name>
    var workers: seq<Worker>
    /** The nodes written out, and the nodes signed, in order; how often the end was requested. */
    var dumped: seq<nat>
    var signed: seq<nat>
    var shutdowns: nat

    /** The state after `signapex`, which has signed and written the apex. */
    constructor (origin: Name, withNsec3: bool, optout: bool, nodes: seq<Node>, extra: seq<Node>, ntasks: nat,
                 ghost apex: nat)
      requires IsZone(nodes, origin, apex) && NoNsec3(nodes) && IsNsec3Tree(extra) && ntasks > 0
      ensures Valid() && this.nodes == nodes && this.extra == extra && this.apex == apex && this.ntasks == ntasks
      ensures this.origin == origin && this.withNsec3 == withNsec3 && this.optout == optout
    {
      this.origin, this.withNsec3, this.optout := origin, withNsec3, optout;
      this.nodes, this.extra, this.ntasks, this.apex := nodes, extra, ntasks, apex;
      pos, finished, ended, zonecut := 0, false, 0, None;
      workers := seq(ntasks, i => Waiting);
      dumped, signed, shutdowns := [], [], 0;
      new;
      AllWaiting(workers);
      assert Others(0) == {} && ToSignBelow(0) == {};
    }

    ghost function Total(): nat {
      |nodes| + |extra|
    }

    /** The node at a position of the iterator. */
    function Item(i: nat): Node
      requires i < |nodes| + |extra|
    {
      if i < |nodes| then nodes[i] else extra[i - |nodes|]
    }

    ghost predicate Trees() {
      IsZone(nodes, origin, apex) && NoNsec3(nodes) && IsNsec3Tree(extra)
    }

    /** Hidden by a delegation: in the main tree, below one; a name of the NSEC3 tree, at or below the
    last one of the main tree, which is still remembered. */
    ghost predicate Hidden(i: nat)
      requires i < Total()
    {
      if i < |nodes| then BelowCut(nodes, origin, nodes[i].name)
      else UnderCut(CutAfter(nodes, origin, |nodes|), extra[i - |nodes|].name)
    }

    /** What a node needs, from the two trees alone: with NSEC, the owners of NSEC records; with NSEC3,
    the owners of NSEC3 records and every other name of the zone that is not hidden and no insecure
    delegation under opt-out, nodes of the NSEC3 tree without records among them. */
    ghost predicate ToSign(i: nat)
      requires i < Total()
    {
      if !withNsec3 then Item(i).nsec.Some?
      else
        || NSEC3 in Item(i).rrs
        || (Subdomain(Item(i).name, origin) && !Hidden(i) && !(optout && InsecureDelegation(origin, Item(i))))
    }

    /** The positions below `n`, without those of nodes named like the origin. */
    ghost function Others(n: nat): (s: set<nat>)
      requires n <= Total()
    {
      if n == 0 then {} else Others(n - 1) + (if Item(n - 1).name != origin then {n - 1} else {})
    }

    lemma {:induction false} OthersAre(n: nat, i: nat)
      requires n <= Total()
      ensures i in Others(n) <==> i < n && Item(i).name != origin
      decreases n
    {
      if n > 0 {
        OthersAre(n - 1, i);
      }
    }

    ghost function ToSignBelow(n: nat): (s: set<nat>)
      requires n <= Total()
    {
      if n == 0 then {}
      else ToSignBelow(n - 1) + (if Item(n - 1).name != origin && ToSign(n - 1) then {n - 1} else {})
    }

    lemma {:induction false} ToSignBelowAre(n: nat, i: nat)
      requires n <= Total()
      ensures i in ToSignBelow(n) <==> i < n && Item(i).name != origin && ToSign(i)
      decreases n
    {
      if n > 0 {
        ToSignBelowAre(n - 1, i);
      }
    }

    /** A node of the NSEC3 tree that holds no record (any more) is handed out like a name of the zone;
    a hash label is hidden only by a last delegation of that very name. */
    lemma {:induction false} EmptiedNodeIsHandedOut(i: nat)
      requires Trees() && withNsec3 && |nodes| <= i < Total() && Item(i).rrs == {}
      requires |Item(i).name| == |origin| + 1
      ensures ToSign(i) <==> Subdomain(Item(i).name, origin) && CutAfter(nodes, origin, |nodes|) != Some(Item(i).name)
    {
      var cut := CutAfter(nodes, origin, |nodes|);
      if cut.Some? {
        CutIsBelowOrigin(nodes, origin, |nodes|);
        assert |cut.value| > |origin|;
        if Subdomain(Item(i).name, cut.value) {
          assert Item(i).name == cut.value;
        }
      }
    }

    /** Every node passed by the iterator has been written once or is with one worker; every node that
    needs it has been signed once or is about to be; and the end has been requested once if every
    worker is idle, never otherwise. */
    ghost predicate Valid()
      reads this
    {
      Trees() && Placed() && WrittenOk() && SignedOk() && EndOk()
    }

    ghost predicate WrittenOk()
      reads this`pos, this`dumped, this`workers
    {
      pos <= Total() && multiset(dumped) + InFlight(workers) == multiset(Others(pos))
    }

    ghost predicate SignedOk()
      reads this`pos, this`signed, this`workers
    {
      pos <= Total() && multiset(signed) + Unsigned(workers) == multiset(ToSignBelow(pos))
    }

    ghost predicate EndOk()
      reads this`finished, this`ended, this`shutdowns, this`workers
    {
      && |workers| == ntasks > 0
      && ended == IdleCount(workers)
      && (ended > 0 ==> finished)
      && shutdowns == (if ended == ntasks then 1 else 0)
    }

    ghost function Measure(): nat
      reads this
    {
      (if pos <= Total() then 3 * (Total() - pos) else 0) + Weight(workers)
    }

    // ----- handing out nodes

    /** The loop of `assignwork`: write out nodes that need no signature, up to one that does.  The
    caller has seen that there are nodes left. */
    method NextWork() returns (found: bool, node: nat)
      requires Valid() && !finished
      modifies this`pos, this`finished, this`zonecut, this`dumped
      ensures pos > old(pos) && Placed()
      ensures found ==> node == pos - 1 && Item(node).name != origin && ToSign(node)
      ensures !found ==> finished
      ensures Handed(old(pos), old(dumped), if found then multiset{node} else multiset{})
    {
      found, node := false, 0;
      while !found && !finished
        invariant pos >= old(pos) && Placed()
        invariant found ==> pos > old(pos) && node == pos - 1 && Item(node).name != origin && ToSign(node)
        invariant finished ==> pos > old(pos)
        invariant Handed(old(pos), old(dumped), if found then multiset{node} else multiset{})
        decreases Total() - pos, !found
      {
        node := pos;
        found := Visit(old(pos), old(dumped));
      }
    }

    /** The iterator and the remembered zone cut. */
    ghost predicate Placed()
      reads this`pos, this`finished, this`zonecut
    {
      && pos <= Total() && (finished <==> pos == Total())
      && (withNsec3 ==> zonecut == CutAfter(nodes, origin, if pos <= |nodes| then pos else |nodes|))
    }

    /** One turn of that loop. */
    method Visit(ghost from: nat, ghost before: seq<nat>) returns (found: bool)
      requires Trees() && Placed() && !finished && Handed(from, before, multiset{})
      modifies this`pos, this`finished, this`zonecut, this`dumped
      ensures Placed() && pos == old(pos) + 1
      ensures found ==> Item(old(pos)).name != origin && ToSign(old(pos))
      ensures Handed(from, before, if found then multiset{old(pos)} else multiset{})
    {
      ghost var p, written := pos, dumped;
      var skip;
      skip, found := Look();
      HandStep(from, before, pos, dumped, found);
      if !skip && !found {
        dumped := dumped + [pos];
      }
      assert dumped == if found || Item(p).name == origin then written else written + [p];
      Advance();
    }

    /** The tests on the node at the iterator; the origin was handled before. */
    method Look() returns (skip: bool, found: bool)
      requires Trees() && Placed() && !finished
      modifies this`zonecut
      ensures skip <==> Item(pos).name == origin
      ensures found <==> Item(pos).name != origin && ToSign(pos)
      ensures withNsec3 ==> zonecut == CutAfter(nodes, origin, if pos + 1 <= |nodes| then pos + 1 else |nodes|)
    {
      if Item(pos).name == origin {
        KeepsCutAtApex(pos);
        return true, false;
      }
      found := Inspect();
      return false, found;
    }

    method Advance()
      requires pos < Total()
      requires withNsec3 ==> zonecut == CutAfter(nodes, origin, if pos + 1 <= |nodes| then pos + 1 else |nodes|)
      modifies this`pos, this`finished
      ensures Placed() && pos == old(pos) + 1
    {
      pos := pos + 1;
      finished := pos == |nodes| + |extra|;
    }

    /** Between positions `from` and `pos`, nodes have been written or are `out`; those written needed
    no signature. */
    ghost predicate Handed(from: nat, before: seq<nat>, out: multiset<nat>)
      reads this`pos, this`dumped
    {
      HandedTo(from, before, pos, dumped, out)
    }

    ghost predicate HandedTo(from: nat, before: seq<nat>, p: nat, written: seq<nat>, out: multiset<nat>) {
      && from <= p <= Total()
      && multiset(written) + out + multiset(Others(from)) == multiset(before) + multiset(Others(p))
      && out + multiset(ToSignBelow(from)) == multiset(ToSignBelow(p))
    }

    lemma {:induction false} HandStep(from: nat, before: seq<nat>, p: nat, written: seq<nat>, found: bool)
      requires p < Total() && HandedTo(from, before, p, written, multiset{})
      requires found <==> Item(p).name != origin && ToSign(p)
      ensures HandedTo(from, before, p + 1,
                       if found || Item(p).name == origin then written else written + [p],
                       if found then multiset{p} else multiset{})
    {
      var own := if Item(p).name == origin then multiset{} else multiset{p};
      OthersAre(p, p);
      ToSignBelowAre(p, p);
      assert multiset(Others(p + 1)) == multiset(Others(p)) + own;
      var o := multiset(Others(from));
      var now := if found || Item(p).name == origin then written else written + [p];
      var out := if found then multiset{p} else multiset{};
      assert multiset(now) + out == multiset(written) + own;
      assert multiset(written) + own + o == multiset(written) + multiset{} + o + own;
    }

    lemma {:induction false} KeepsCutAtApex(i: nat)
      requires Trees() && i < |nodes| + |extra| && Item(i).name == origin
      ensures i < |nodes| ==> CutAfter(nodes, origin, i + 1) == CutAfter(nodes, origin, i)
    {
      if i < |nodes| {
        OnlyApexIsOrigin(nodes, origin, apex, i);
      }
    }

    /** `assignwork` for worker `w`, which holds nothing: give it a node, or tell it that there is none;
    the last worker to be told that requests the end. */
    method AssignWork(w: nat)
      requires w < |workers| && workers[w] == Waiting && Valid()
      modifies this
      ensures Valid() && Measure() < old(Measure()) && signed == old(signed)
    {
      if finished {
        Retire(w);
        return;
      }
      var found, node := NextWork();
      HandOut(w, old(pos), old(dumped), found, node);
    }

    /** No more work for worker `w`. */
    method Retire(w: nat)
      requires w < |workers| && workers[w] == Waiting && Valid() && finished
      modifies this`ended, this`workers, this`shutdowns
      ensures Valid() && Weight(workers) < old(Weight(workers))
    {
      BecomesIdle(workers, w);
      Ended(workers[w := Idle]);
    }

    /** One more worker is idle. */
    method Ended(now: seq<Worker>)
      requires Valid() && finished && |now| == |workers| && IdleCount(now) == IdleCount(workers) + 1
      requires InFlight(now) == InFlight(workers) && Unsigned(now) == Unsigned(workers)
      modifies this`ended, this`workers, this`shutdowns
      ensures Valid() && workers == now
    {
      workers, ended := now, ended + 1;
      if ended == ntasks {
        shutdowns := shutdowns + 1;
      }
    }

    /** The end of `assignwork` after its loop. */
    method HandOut(w: nat, ghost from: nat, ghost before: seq<nat>, found: bool, node: nat)
      requires Trees() && from <= Total() && w < |workers| == ntasks && workers[w] == Waiting && Placed()
      requires Handed(from, before, if found then multiset{node} else multiset{})
      requires multiset(before) + InFlight(workers) == multiset(Others(from)) && from < pos
      requires multiset(signed) + Unsigned(workers) == multiset(ToSignBelow(from))
      requires ended == IdleCount(workers) == 0 && shutdowns == 0
      requires !found ==> finished
      modifies this`ended, this`workers, this`shutdowns
      ensures Valid() && Weight(workers) < old(Weight(workers)) + 3
    {
      Balance(from, before, if found then multiset{node} else multiset{}, InFlight(workers), Unsigned(workers));
      if found {
        GetsNode(workers, w, node);
        workers := workers[w := Signing(node)];
      } else {
        Unit(InFlight(workers));
        Unit(Unsigned(workers));
        Retire(w);
      }
    }

    lemma {:induction false} Balance(from: nat, before: seq<nat>, out: multiset<nat>, flying: multiset<nat>, raw: multiset<nat>)
      requires from <= Total() && Handed(from, before, out)
      requires multiset(before) + flying == multiset(Others(from))
      requires multiset(signed) + raw == multiset(ToSignBelow(from))
      ensures multiset(dumped) + (flying + out) == multiset(Others(pos))
      ensures multiset(signed) + (raw + out) == multiset(ToSignBelow(pos))
    {
      var b, d := multiset(before), multiset(dumped);
      assert d + out + (b + flying) == d + (flying + out) + b;
      assert b + multiset(Others(pos)) == multiset(Others(pos)) + b;
      Cancel(d + (flying + out), multiset(Others(pos)), b);
      assert multiset(signed) + (raw + out) == out + (multiset(signed) + raw);
    }

    // ----- events

    /** `startworker`. */
    method StartWorker(w: nat)
      requires Valid() && w < |workers| && workers[w] == Waiting
      modifies this
      ensures Valid() && Measure() < old(Measure())
    {
      AssignWork(w);
    }

    /** `sign`, in worker `w`. */
    method Sign(w: nat)
      requires Valid() && w < |workers| && workers[w].Signing?
      modifies this`signed, this`workers
      ensures Valid() && Measure() < old(Measure())
    {
      var node := workers[w].node;
      var now := workers[w := Writing(node)];
      SignsNode(workers, w, node);
      MovesOver(signed, node, Unsigned(now), Unsigned(workers), multiset(ToSignBelow(pos)));
      signed := signed + [node];
      workers := now;
    }

    /** `writenode`. */
    method WriteNode(w: nat)
      requires Valid() && w < |workers| && workers[w].Writing?
      modifies this
      ensures Valid() && Measure() < old(Measure())
    {
      Dump(w);
      AssignWork(w);
    }

    method Dump(w: nat)
      requires Valid() && w < |workers| && workers[w].Writing?
      modifies this`dumped, this`workers
      ensures Valid() && workers == old(workers)[w := Waiting] && Weight(workers) < old(Weight(workers))
    {
      var node := workers[w].node;
      var now := workers[w := Waiting];
      ReturnsNode(workers, w, node);
      MovesOver(dumped, node, InFlight(now), InFlight(workers), multiset(Others(pos)));
      dumped := dumped + [node];
      workers := now;
    }

    /** Any interleaving: as long as some worker has an event outstanding, one of them is handled.  Every
    run ends; then every node not named like the origin has been written exactly once, those that need
    it have been signed exactly once, and the end has been requested exactly once. */
    method Run()
      requires Valid()
      modifies this
      ensures Valid() && shutdowns == 1
      ensures multiset(dumped) == multiset(Others(Total()))
      ensures multiset(signed) == multiset(ToSignBelow(Total()))
    {
      while exists w :: 0 <= w < |workers| && !workers[w].Idle?
        invariant Valid()
        decreases Measure()
      {
        var w :| 0 <= w < |workers| && !workers[w].Idle?;
        match workers[w] {
          case Waiting => StartWorker(w);
          case Signing(_) => Sign(w);
          case Writing(_) => WriteNode(w);
        }
      }
      AllIdle(workers);
      NoneInFlight(workers);
    }

    /** Whether the node at the iterator needs a signature; remembers zone cuts on the way. */
    method Inspect() returns (found: bool)
      requires Trees() && pos < Total() && Item(pos).name != origin
      requires withNsec3 ==> zonecut == CutAfter(nodes, origin, if pos <= |nodes| then pos else |nodes|)
      modifies this`zonecut
      ensures found <==> ToSign(pos)
      ensures withNsec3 ==> zonecut == CutAfter(nodes, origin, if pos + 1 <= |nodes| then pos + 1 else |nodes|)
    {
      var n := Item(pos);
      if pos < |nodes| {
        ZoneCutFilterExact(nodes, origin, pos);
      }
      found := if withNsec3 then NSEC3 in n.rrs else n.nsec.Some?;
      if !found && withNsec3 && Subdomain(n.name, origin) && !UnderCut(zonecut, n.name) {
        if Delegation(origin, n) {
          zonecut := Some(n.name);
          if !optout || Secure(origin, n) {
            found := true;
          }
        } else {
          found := true;
        }
      }
    }
  }

  lemma {:induction false} AllWaiting(ws: seq<Worker>)
    requires forall i :: 0 <= i < |ws| ==> ws[i] == Waiting
    ensures InFlight(ws) == Unsigned(ws) == multiset{}
    ensures |ws| > 0 ==> IdleCount(ws) == 0
    decreases |ws|
  {
    if |ws| > 1 {
      AllWaiting(ws[1..]);
    }
  }

  lemma {:induction false} CutIsBelowOrigin(nodes: seq<Node>, origin: Name, i: nat)
    requires i <= |nodes| && CutAfter(nodes, origin, i).Some?
    ensures Subdomain(CutAfter(nodes, origin, i).value, origin) && CutAfter(nodes, origin, i).value != origin
  {
    if CutAfter(nodes, origin, i - 1) == CutAfter(nodes, origin, i) {
      CutIsBelowOrigin(nodes, origin, i - 1);
    }
  }
}
