/** The verifier's own walk over a signed zone (`verifyzone`), without its signature checks. */
module VerifyZone {
  import opened Options
  import opened Names
  import opened Zones
  import opened SignedNames
  import opened Databases
  import opened Chains

  /** The nodes the verifier visits: in the zone, not below a cut, not empty. */
  ghost predicate Visited(nodes: seq<Node>, origin: Name, n: Node) {
    Subdomain(n.name, origin) && !BelowCut(nodes, origin, n.name) && !Empty(n)
  }

  ghost function VisitedFrom(nodes: seq<Node>, origin: Name, i: nat): (visited: seq<Node>)
    requires i <= |nodes|
    decreases |nodes| - i
  {
    if i == |nodes| then []
    else if Visited(nodes, origin, nodes[i]) then [nodes[i]] + VisitedFrom(nodes, origin, i + 1)
    else VisitedFrom(nodes, origin, i + 1)
  }

  /** A node outside the zone or below a cut that carries an NSEC RRset (`check_no_nsec`). */
  ghost predicate Stray(nodes: seq<Node>, origin: Name, n: Node) {
    (!Subdomain(n.name, origin) || BelowCut(nodes, origin, n.name)) && n.nsec.Some?
  }

  /** `verifynsec` at the `k`-th visited node: its NSEC names the next visited node, or the origin. */
  predicate NsecRight(visited: seq<Node>, origin: Name, k: nat)
    requires k < |visited|
  {
    visited[k].nsec == Some(if k + 1 < |visited| then visited[k + 1].name else origin)
  }

  // ----- NSEC3 look-ups

  /** One call of `verifynsec3`: the name, whether the visited node is a delegation, whether the name
  is an empty non-terminal, and whether the node has a DS RRset. */
  datatype Lookup = Lookup(name: Name, delegation: bool, empty: bool, ds: bool)

  /** The name of the NSEC3 tree, its parameters, and how names hash. */
  datatype Tree = Tree(m: map<nat, seq<Nsec3>>, params: Params, origin: Name, hash: Name -> nat)

  function At(t: Tree, name: Name): (recs: seq<Nsec3>) {
    if t.hash(name) in t.m then t.m[t.hash(name)] else []
  }

  /** `isoptout`: the flag of the first NSEC3 record of the apex. */
  predicate OptOut(t: Tree) {
    var recs := At(t, t.origin);
    recs != [] && recs[0].optOut
  }

  predicate Matches(r: Nsec3, params: Params) {
    r.params == params && r.nextLength == HASH_LENGTH
  }

  /** The index of the first matching record. */
  function FirstMatch(recs: seq<Nsec3>, params: Params): (k: nat) {
    if recs == [] || Matches(recs[0], params) then 0 else 1 + FirstMatch(recs[1..], params)
  }

  lemma {:induction false} FirstMatchIs(recs: seq<Nsec3>, params: Params, k: nat)
    requires k <= |recs| && (k < |recs| ==> Matches(recs[k], params))
    requires forall i :: 0 <= i < k ==> !Matches(recs[i], params)
    ensures FirstMatch(recs, params) == k
  {
    if recs != [] && k > 0 {
      FirstMatchIs(recs[1..], params, k - 1);
    }
  }

  /** No record of the sequence has these parameters. */
  predicate NoneWith(recs: seq<Nsec3>, params: Params) {
    recs == [] || (recs[0].params != params && NoneWith(recs[1..], params))
  }

  function ElemOf(params: Params, owner: nat, r: Nsec3): Elem {
    Elem(params.hash, params.iterations, params.saltLength, r.nextLength, params.salt, owner, r.next)
  }

  /** What a look-up records as expected. */
  function Records(t: Tree, l: Lookup): (elems: multiset<Elem>) {
    var recs := At(t, l.name);
    var k := FirstMatch(recs, t.params);
    if k < |recs| then multiset{ElemOf(t.params, t.hash(l.name), recs[k])} else multiset{}
  }

  /** Whether a look-up passes.  An absent record is forgiven at a delegation without DS, and at an
  empty non-terminal above a delegation when the chain opts out. */
  predicate Passes(t: Tree, l: Lookup) {
    var recs := At(t, l.name);
    var k := FirstMatch(recs, t.params);
    if recs == [] then l.delegation && (l.empty ==> OptOut(t)) && (!l.empty ==> !l.ds)
    else k < |recs| && NoneWith(recs[k + 1..], t.params)
  }

  /** In terms of the names and of what the nodes hold: visited is what is in the zone, not below an NS
  RRset (type 2) other than the origin's, and holds anything at all. */
  lemma {:induction false} VisitedExactly(nodes: seq<Node>, origin: Name, n: Node)
    ensures Visited(nodes, origin, n) <==>
            && origin <= n.name && (n.rrs != {} || n.nsec.Some? || n.sigs != {})
            && forall d :: 0 <= d < |nodes| && 2 in nodes[d].rrs && origin < nodes[d].name ==> !(nodes[d].name < n.name)
  {
    if forall d :: 0 <= d < |nodes| && 2 in nodes[d].rrs && origin < nodes[d].name ==> !(nodes[d].name < n.name) {
      assert !BelowCut(nodes, origin, n.name);
    } else {
      var d :| 0 <= d < |nodes| && 2 in nodes[d].rrs && origin < nodes[d].name && nodes[d].name < n.name;
      assert CutsOff(nodes[d], origin, n.name);
    }
  }

  /** Among the records of the name's hash: none at all, where that is forgiven; or one with the parameters
  of the chain and a next hash of 20 octets, after which none has the parameters. */
  lemma {:induction false} PassesExactly(t: Tree, l: Lookup)
    ensures var recs := if t.hash(l.name) in t.m then t.m[t.hash(l.name)] else [];
            var apex := if t.hash(t.origin) in t.m then t.m[t.hash(t.origin)] else [];
            Passes(t, l) <==>
            || (recs == [] && l.delegation && (if l.empty then apex != [] && apex[0].optOut else !l.ds))
            || exists k :: 0 <= k < |recs| && recs[k].params == t.params && recs[k].nextLength == 20
                           && (forall j :: 0 <= j < k ==> recs[j].params != t.params || recs[j].nextLength != 20)
                           && (forall j :: k < j < |recs| ==> recs[j].params != t.params)
  {
    var recs := At(t, l.name);
    var f := FirstMatch(recs, t.params);
    FirstMatchFinds(recs, t.params);
    if f < |recs| {
      NoneWithExactly(recs[f + 1..], t.params);
      assert forall j :: f < j < |recs| ==> recs[j] == recs[f + 1..][j - f - 1];
      var after := recs[f + 1..];
      assert forall j :: 0 <= j < |after| ==> after[j].params == recs[f + 1 + j].params;
    }
    if k :| 0 <= k < |recs| && recs[k].params == t.params && recs[k].nextLength == 20
            && (forall j :: 0 <= j < k ==> recs[j].params != t.params || recs[j].nextLength != 20)
            && (forall j :: k < j < |recs| ==> recs[j].params != t.params) {
      FirstMatchIs(recs, t.params, k);
    }
  }

  lemma {:induction false} FirstMatchFinds(recs: seq<Nsec3>, params: Params)
    ensures FirstMatch(recs, params) <= |recs|
    ensures FirstMatch(recs, params) < |recs| ==> Matches(recs[FirstMatch(recs, params)], params)
    ensures forall j :: 0 <= j < FirstMatch(recs, params) ==> !Matches(recs[j], params)
  {
    if recs != [] && !Matches(recs[0], params) {
      FirstMatchFinds(recs[1..], params);
    }
  }

  lemma {:induction false} NoneWithExactly(recs: seq<Nsec3>, params: Params)
    ensures NoneWith(recs, params) <==> forall j :: 0 <= j < |recs| ==> recs[j].params != params
  {
    if recs != [] {
      NoneWithExactly(recs[1..], params);
      assert forall j :: 1 <= j < |recs| ==> recs[j] == recs[1..][j - 1];
    }
  }

  /** The look-ups made for the empty non-terminals above a visited node: the suffixes of its name
  one label longer than what it shares with the name before it, up to one label short of it. */
  function EmptyLookups(origin: Name, prev: Name, n: Node): (ls: seq<Lookup>) {
    var c := Common(prev, n.name) + 1;
    seq(if c < |n.name| then |n.name| - c else 0,
    i requires 0 <= i < |n.name| - c => Lookup(n.name[..c + i], Delegation(origin, n), true, false))
  }

  /** The look-ups made for a visited node, `prev` being the name visited before it. */
  function NodeLookups(origin: Name, prev: Option<Name>, n: Node): (ls: seq<Lookup>) {
    [Lookup(n.name, Delegation(origin, n), false, DS in n.rrs)]
    + if prev.None? then [] else EmptyLookups(origin, prev.value, n)
  }

  /** All look-ups for the visited nodes, in the order in which they are made. */
  ghost function LookupsOf(origin: Name, ns: seq<Node>): (ls: seq<Lookup>) {
    if ns == [] then []
    else
      var n := |ns| - 1;
      LookupsOf(origin, ns[..n]) + NodeLookups(origin, if n == 0 then None else Some(ns[n - 1].name), ns[n])
  }

  function NamesOf(ls: seq<Lookup>): (names: seq<Name>)
    ensures |names| == |ls|
  {
    seq(|ls|, i requires 0 <= i < |ls| => ls[i].name)
  }

  function NodeNames(ns: seq<Node>): (names: seq<Name>)
    ensures |names| == |ns|
  {
    seq(|ns|, i requires 0 <= i < |ns| => ns[i].name)
  }

  ghost function Recorded(t: Tree, ls: seq<Lookup>): (elems: multiset<Elem>) {
    if ls == [] then multiset{} else Records(t, ls[0]) + Recorded(t, ls[1..])
  }

  ghost predicate AllPass(t: Tree, ls: seq<Lookup>) {
    ls == [] || (Passes(t, ls[0]) && AllPass(t, ls[1..]))
  }

  lemma {:induction false} AllPassEach(t: Tree, ls: seq<Lookup>)
    ensures AllPass(t, ls) <==> forall k :: 0 <= k < |ls| ==> Passes(t, ls[k])
  {
    if ls != [] {
      AllPassEach(t, ls[1..]);
      assert forall k :: 1 <= k < |ls| ==> ls[k] == ls[1..][k - 1];
    }
  }

  lemma {:induction false} LookupsConcat(t: Tree, a: seq<Lookup>, b: seq<Lookup>)
    ensures Recorded(t, a + b) == Recorded(t, a) + Recorded(t, b)
    ensures AllPass(t, a + b) <==> AllPass(t, a) && AllPass(t, b)
  {
    if a == [] {
      assert a + b == b;
    } else {
      LookupsConcat(t, a[1..], b);
      assert (a + b)[1..] == a[1..] + b && (a + b)[0] == a[0];
      Regroup(Records(t, a[0]), Recorded(t, a[1..]), Recorded(t, b));
    }
  }

  lemma {:induction false} Regroup(a: multiset<Elem>, b: multiset<Elem>, c: multiset<Elem>)
    ensures a + (b + c) == a + b + c
  {
  }

  // ----- the calls

  /** `match_nsec3` without the type bit maps. */
  method MatchNsec3(t: Tree, recs: seq<Nsec3>, name: Name, expected: Heap) returns (ok: bool)
    requires Ascending(expected.elems)
    modifies expected
    ensures Ascending(expected.elems)
    ensures var k := FirstMatch(recs, t.params);
            && (k >= |recs| ==> !ok && expected.elems == old(expected.elems))
            && (k < |recs| ==>
                  && multiset(expected.elems) ==
                     multiset(old(expected.elems)) + multiset{ElemOf(t.params, t.hash(name), recs[k])}
                  && (ok <==> NoneWith(recs[k + 1..], t.params)))
  {
    var k := 0;
    while k < |recs| && !Matches(recs[k], t.params)
      invariant k <= |recs| && forall i :: 0 <= i < k ==> !Matches(recs[i], t.params)
    {
      k := k + 1;
    }
    FirstMatchIs(recs, t.params, k);
    if k == |recs| {
      return false;
    }
    expected.Insert(ElemOf(t.params, t.hash(name), recs[k]));
    var i := k + 1;
    while i < |recs|
      invariant k < i <= |recs| && (NoneWith(recs[i..], t.params) <==> NoneWith(recs[k + 1..], t.params))
    {
      if recs[i].params == t.params {
        return false;
      }
      i := i + 1;
    }
    return true;
  }

  /** `verifynsec3`. */
  method VerifyNsec3(t: Tree, l: Lookup, expected: Heap) returns (ok: bool)
    requires Ascending(expected.elems)
    modifies expected
    ensures Ascending(expected.elems)
    ensures ok <==> Passes(t, l)
    ensures multiset(expected.elems) == multiset(old(expected.elems)) + Records(t, l)
  {
    var optout := OptOut(t);
    var recs := At(t, l.name);
    if recs == [] && (!l.delegation || (l.empty && !optout) || (!l.empty && l.ds)) {
      return false;
    } else if recs == [] {
      return true;
    }
    ok := MatchNsec3(t, recs, l.name, expected);
  }

  /** A run of `verifynsec3` calls: `verifynode` followed by the loop of `verifyemptynodes`. */
  method VerifyLookups(t: Tree, ls: seq<Lookup>, expected: Heap) returns (ok: bool)
    requires Ascending(expected.elems)
    modifies expected
    ensures Ascending(expected.elems)
    ensures ok <==> AllPass(t, ls)
    ensures multiset(expected.elems) == multiset(old(expected.elems)) + Recorded(t, ls)
  {
    ok := true;
    var k := 0;
    while k < |ls|
      invariant 0 <= k <= |ls| && Ascending(expected.elems)
      invariant ok && AllPass(t, ls[k..]) <==> AllPass(t, ls)
      invariant multiset(expected.elems) + Recorded(t, ls[k..]) == multiset(old(expected.elems)) + Recorded(t, ls)
    {
      var passed := VerifyNsec3(t, ls[k], expected);
      ok := ok && passed;
      k := k + 1;
    }
  }

  // ----- the walk

  lemma {:induction false} VisitedByCut(nodes: seq<Node>, origin: Name, i: nat)
    requires InOrder(nodes) && i < |nodes|
    ensures var cut, n := CutAfter(nodes, origin, i), nodes[i];
            && (BelowCut(nodes, origin, n.name) <==> UnderCut(cut, n.name))
            && CutAfter(nodes, origin, i + 1) ==
               (if Visited(nodes, origin, n) && Delegation(origin, n) then Some(n.name) else cut)
  {
    ZoneCutFilterExact(nodes, origin, i);
  }

  ghost predicate StrayIn(nodes: seq<Node>, origin: Name, from: nat, to: nat)
    requires to <= |nodes|
  {
    exists k :: from <= k < to && Stray(nodes, origin, nodes[k])
  }

  /** The inner loop of `verifyzone`. */
  method NextVisited(nodes: seq<Node>, origin: Name, i: nat, zonecut: Option<Name>) returns (fatal: bool, j: nat)
    requires InOrder(nodes) && i < |nodes| && zonecut == CutAfter(nodes, origin, i + 1)
    ensures i < j <= |nodes|
    ensures fatal ==> StrayIn(nodes, origin, 0, |nodes|)
    ensures !fatal ==> !StrayIn(nodes, origin, i + 1, j)
    ensures !fatal ==> zonecut == CutAfter(nodes, origin, j)
    ensures !fatal && j < |nodes| ==> Visited(nodes, origin, nodes[j])
    ensures !fatal ==> VisitedFrom(nodes, origin, i + 1) == VisitedFrom(nodes, origin, j)
  {
    j := i + 1;
    while j < |nodes|
      invariant i < j <= |nodes| && zonecut == CutAfter(nodes, origin, j)
      invariant !StrayIn(nodes, origin, i + 1, j)
      invariant VisitedFrom(nodes, origin, i + 1) == VisitedFrom(nodes, origin, j)
    {
      VisitedByCut(nodes, origin, j);
      var n := nodes[j];
      if !Subdomain(n.name, origin) || UnderCut(zonecut, n.name) {
        if n.nsec.Some? {
          assert Stray(nodes, origin, nodes[j]);
          return true, j;
        }
        j := j + 1;
        continue;
      }
      if Empty(n) {
        j := j + 1;
        continue;
      }
      return false, j;
    }
    return false, j;
  }

  /** What the walk has established after visiting the nodes `ns`. */
  ghost predicate WalkedNsec3(t: Option<Tree>, origin: Name, ns: seq<Node>, ok: bool, elems: seq<Elem>) {
    && Ascending(elems)
    && (t.None? ==> ok && elems == [])
    && (t.Some? ==> (ok <==> AllPass(t.value, LookupsOf(origin, ns)))
                    && multiset(elems) == Recorded(t.value, LookupsOf(origin, ns)))
  }

  ghost predicate WalkedNsec(used: bool, visited: seq<Node>, origin: Name, n: nat, ok: bool)
    requires n <= |visited|
  {
    ok <==> (used ==> forall k :: 0 <= k < n ==> NsecRight(visited, origin, k))
  }

  /** The visiting step for NSEC3. */
  method VisitNsec3(t: Option<Tree>, origin: Name, prev: Option<Name>, n: Node, ok: bool, expected: Heap,
                    ghost ns: seq<Node>)
    returns (ok': bool)
    requires t.Some? ==> t.value.origin == origin
    requires prev == if ns == [] then None else Some(ns[|ns| - 1].name)
    requires WalkedNsec3(t, origin, ns, ok, expected.elems)
    modifies expected
    ensures WalkedNsec3(t, origin, ns + [n], ok', expected.elems)
  {
    if t.None? {
      return ok;
    }
    ghost var before := expected.elems;
    var passed := VerifyLookups(t.value, NodeLookups(origin, prev, n), expected);
    WalkedStep(t.value, origin, ns, n, ok, passed, before, expected.elems);
    return ok && passed;
  }

  lemma {:induction false} WalkedStep(t: Tree, origin: Name, ns: seq<Node>, n: Node, ok: bool, passed: bool, was: seq<Elem>, now: seq<Elem>)
    requires WalkedNsec3(Some(t), origin, ns, ok, was) && Ascending(now)
    requires var ls := NodeLookups(origin, if ns == [] then None else Some(ns[|ns| - 1].name), n);
             passed == AllPass(t, ls) && multiset(now) == multiset(was) + Recorded(t, ls)
    ensures WalkedNsec3(Some(t), origin, ns + [n], ok && passed, now)
  {
    var ls := NodeLookups(origin, if ns == [] then None else Some(ns[|ns| - 1].name), n);
    LookupsAppend(origin, ns, n);
    LookupsConcat(t, LookupsOf(origin, ns), ls);
    assert multiset(now) == Recorded(t, LookupsOf(origin, ns) + ls);
  }

  lemma {:induction false} LookupsAppend(origin: Name, ns: seq<Node>, n: Node)
    ensures LookupsOf(origin, ns + [n]) ==
            LookupsOf(origin, ns) + NodeLookups(origin, if ns == [] then None else Some(ns[|ns| - 1].name), n)
  {
    assert (ns + [n])[..|ns|] == ns;
  }

  /** The walk of `verifyzone` over the main tree.  `useNsec` is whether the apex has an NSEC RRset,
  `t` the NSEC3 tree when the apex has an NSEC3PARAM record. */
  method VerifyWalk(nodes: seq<Node>, origin: Name, useNsec: bool, t: Option<Tree>, expected: Heap, ghost apex: nat)
    returns (fatal: bool, nsecOk: bool, nsec3Ok: bool)
    requires IsZone(nodes, origin, apex) && expected.elems == []
    requires t.Some? ==> t.value.origin == origin
    modifies expected
    ensures fatal <==> StrayIn(nodes, origin, 0, |nodes|)
    ensures !fatal ==>
              var visited := VisitedFrom(nodes, origin, 0);
              && WalkedNsec(useNsec, visited, origin, |visited|, nsecOk)
              && WalkedNsec3(t, origin, visited, nsec3Ok, expected.elems)
  {
    ghost var visited := VisitedFrom(nodes, origin, 0);
    ghost var ns: seq<Node> := [];
    fatal, nsecOk, nsec3Ok := false, true, true;
    var i, done := 0, false;
    var zonecut: Option<Name>, prevname: Option<Name> := None, None;
    ApexIsSigned(nodes, origin, apex, false, 0);
    while !done
      invariant 0 <= i <= |nodes| && (done <==> i == |nodes|)
      invariant WalkPosition(nodes, origin, apex, i, ns, zonecut, prevname)
      invariant WalkedNsec(useNsec, visited, origin, |ns|, nsecOk)
      invariant WalkedNsec3(t, origin, ns, nsec3Ok, expected.elems)
      decreases |nodes| - i
    {
      var n := nodes[i];
      WalkForward(nodes, origin, apex, i, ns, zonecut, prevname);
      if !Subdomain(n.name, origin) {
        if n.nsec.Some? {
          assert Stray(nodes, origin, nodes[i]);
          return true, nsecOk, nsec3Ok;
        }
        i := i + 1;
        done := i == |nodes|;
        continue;
      }
      if Delegation(origin, n) {
        zonecut := Some(n.name);
      }
      var j;
      fatal, j := NextVisited(nodes, origin, i, zonecut);
      if fatal {
        return;
      }
      var nextname := if j == |nodes| then origin else nodes[j].name;
      NextPosition(nodes, origin, apex, ns, i, j, prevname);
      NextNameRight(nodes, origin, ns, n, j, visited);
      WalkedNsecStep(useNsec, visited, origin, |ns|, nsecOk);
      nsecOk := nsecOk && (!useNsec || n.nsec == Some(nextname));
      nsec3Ok := VisitNsec3(t, origin, prevname, n, nsec3Ok, expected, ns);
      ns, prevname := ns + [n], Some(n.name);
      done := j == |nodes|;
      i := j;
    }
    assert ns + [] == ns;
  }

  lemma {:induction false} WalkedNsecStep(used: bool, visited: seq<Node>, origin: Name, n: nat, ok: bool)
    requires n < |visited| && WalkedNsec(used, visited, origin, n, ok)
    ensures WalkedNsec(used, visited, origin, n + 1, ok && (!used || NsecRight(visited, origin, n)))
  {
  }

  /** Where the walk stands: `ns` visited, no stray NSEC met, at a node to visit or before the apex. */
  ghost predicate WalkPosition(nodes: seq<Node>, origin: Name, apex: nat, i: nat, ns: seq<Node>,
                               zonecut: Option<Name>, prevname: Option<Name>)
  {
    && i <= |nodes| && zonecut == CutAfter(nodes, origin, i)
    && (i < apex || i == |nodes| || Visited(nodes, origin, nodes[i]))
    && ns + VisitedFrom(nodes, origin, i) == VisitedFrom(nodes, origin, 0)
    && prevname == (if ns == [] then None else Some(ns[|ns| - 1].name))
    && !StrayIn(nodes, origin, 0, i)
  }

  lemma {:induction false} WalkForward(nodes: seq<Node>, origin: Name, apex: nat, i: nat, ns: seq<Node>, zonecut: Option<Name>,
                                       prevname: Option<Name>)
    requires IsZone(nodes, origin, apex) && i < |nodes|
    requires WalkPosition(nodes, origin, apex, i, ns, zonecut, prevname)
    ensures var n := nodes[i];
            && (!Subdomain(n.name, origin) && n.nsec.None? ==>
                  i + 1 < |nodes| && WalkPosition(nodes, origin, apex, i + 1, ns, zonecut, prevname))
            && (Subdomain(n.name, origin) ==>
                  Visited(nodes, origin, n)
                  && CutAfter(nodes, origin, i + 1) == if Delegation(origin, n) then Some(n.name) else zonecut)
  {
    BeforeApexIsOutside(nodes, origin, apex, i);
    VisitedByCut(nodes, origin, i);
    ApexIsSigned(nodes, origin, apex, false, 0);
  }

  lemma {:induction false} NextPosition(nodes: seq<Node>, origin: Name, apex: nat, ns: seq<Node>, i: nat, j: nat, prevname: Option<Name>)
    requires i < j <= |nodes| && Visited(nodes, origin, nodes[i])
    requires WalkPosition(nodes, origin, apex, i, ns, CutAfter(nodes, origin, i), prevname)
    requires VisitedFrom(nodes, origin, i + 1) == VisitedFrom(nodes, origin, j)
    requires j < |nodes| ==> Visited(nodes, origin, nodes[j])
    requires !StrayIn(nodes, origin, i + 1, j)
    ensures WalkPosition(nodes, origin, apex, j, ns + [nodes[i]], CutAfter(nodes, origin, j), Some(nodes[i].name))
  {
    assert VisitedFrom(nodes, origin, i) == [nodes[i]] + VisitedFrom(nodes, origin, j);
    MoveOver(ns, nodes[i], VisitedFrom(nodes, origin, j));
    assert !Stray(nodes, origin, nodes[i]);
  }

  lemma {:induction false} MoveOver(a: seq<Node>, n: Node, b: seq<Node>)
    ensures a + ([n] + b) == a + [n] + b
  {
  }

  lemma {:induction false} NextNameRight(nodes: seq<Node>, origin: Name, ns: seq<Node>, n: Node, j: nat, visited: seq<Node>)
    requires j <= |nodes| && ns + [n] + VisitedFrom(nodes, origin, j) == visited
    requires j < |nodes| ==> Visited(nodes, origin, nodes[j])
    ensures |ns| < |visited|
    ensures NsecRight(visited, origin, |ns|) <==> n.nsec == Some(if j == |nodes| then origin else nodes[j].name)
  {
    var rest := VisitedFrom(nodes, origin, j);
    assert visited[|ns|] == n && (rest != [] ==> visited[|ns| + 1] == rest[0]);
    assert j < |nodes| ==> rest[0] == nodes[j];
  }

  // ----- found records and the whole verdict

  /** The found records of one owner (`record_found`). */
  ghost function FoundAt(params: Params, owner: nat, recs: seq<Nsec3>): (elems: multiset<Elem>) {
    if recs == [] then multiset{}
    else (if Matches(recs[0], params) then multiset{ElemOf(params, owner, recs[0])} else multiset{})
         + FoundAt(params, owner, recs[1..])
  }

  /** The found records of some owners, in whatever order they are come by. */
  ghost function FoundIn(params: Params, m: map<nat, seq<Nsec3>>, hs: set<nat>): (elems: multiset<Elem>)
    requires hs <= m.Keys
    decreases hs
  {
    if hs == {} then multiset{}
    else FoundIn(params, m, hs - {Any(hs)}) + FoundAt(params, Any(hs), m[Any(hs)])
  }

  ghost function Any(hs: set<nat>): (h: nat)
    requires hs != {}
    ensures h in hs
  {
    var h :| h in hs;
    h
  }

  lemma {:induction false} FoundInMore(params: Params, m: map<nat, seq<Nsec3>>, hs: set<nat>, h: nat)
    requires hs <= m.Keys && h in m && h !in hs
    ensures FoundIn(params, m, hs + {h}) == FoundIn(params, m, hs) + FoundAt(params, h, m[h])
    decreases |hs|
  {
    var all := hs + {h};
    var x := Any(all);
    if x == h {
      assert all - {x} == hs;
    } else {
      var rest := hs - {x};
      assert all - {x} == rest + {h} && rest + {x} == hs;
      FoundInMore(params, m, rest, h);
      FoundInMore(params, m, rest, x);
      Exchange(FoundIn(params, m, rest), FoundAt(params, h, m[h]), FoundAt(params, x, m[x]));
    }
  }

  lemma {:induction false} Exchange(a: multiset<Elem>, b: multiset<Elem>, c: multiset<Elem>)
    ensures a + b + c == a + c + b
  {
  }

  method RecordFound(params: Params, owner: nat, recs: seq<Nsec3>, found: Heap)
    requires Ascending(found.elems)
    modifies found
    ensures Ascending(found.elems)
    ensures multiset(found.elems) == multiset(old(found.elems)) + FoundAt(params, owner, recs)
  {
    var k := 0;
    while k < |recs|
      invariant 0 <= k <= |recs| && Ascending(found.elems)
      invariant multiset(found.elems) + FoundAt(params, owner, recs[k..]) ==
                multiset(old(found.elems)) + FoundAt(params, owner, recs)
    {
      if Matches(recs[k], params) {
        found.Insert(ElemOf(params, owner, recs[k]));
      }
      k := k + 1;
    }
  }

  method RecordAllFound(params: Params, m: map<nat, seq<Nsec3>>, found: Heap)
    requires found.elems == []
    modifies found
    ensures Ascending(found.elems) && multiset(found.elems) == FoundIn(params, m, m.Keys)
  {
    var left := m.Keys;
    while left != {}
      invariant left <= m.Keys && Ascending(found.elems)
      invariant multiset(found.elems) == FoundIn(params, m, m.Keys - left)
      decreases |left|
    {
      var h :| h in left;
      RecordFound(params, h, m[h], found);
      FoundInMore(params, m, m.Keys - left, h);
      assert m.Keys - left + {h} == m.Keys - (left - {h});
      left := left - {h};
    }
    assert m.Keys - left == m.Keys;
  }

  /** The expected records are the found ones, and in ascending order every chain is closed. */
  ghost predicate ChainsOk(recorded: multiset<Elem>, found: multiset<Elem>) {
    && recorded == found
    && exists s :: Ascending(s) && multiset(s) == recorded && Closed(s)
  }

  /** What the verifier accepts: no stray NSEC; if the apex has an NSEC, a right NSEC at every visited
  node; if the apex has an NSEC3PARAM, every look-up passes and the chains are in order. */
  ghost predicate Accepted(nodes: seq<Node>, origin: Name, apex: nat, m: map<nat, seq<Nsec3>>, param: Option<Params>,
                           hash: Name -> nat)
    requires apex < |nodes|
  {
    var visited := VisitedFrom(nodes, origin, 0);
    && !StrayIn(nodes, origin, 0, |nodes|)
    && (nodes[apex].nsec.Some? ==> forall k :: 0 <= k < |visited| ==> NsecRight(visited, origin, k))
    && (param.Some? ==>
          var t := Tree(m, param.value, origin, hash);
          && AllPass(t, LookupsOf(origin, visited))
          && ChainsOk(Recorded(t, LookupsOf(origin, visited)), FoundIn(param.value, m, m.Keys)))
  }

  method FindApex(nodes: seq<Node>, origin: Name, ghost apex: nat) returns (k: nat)
    requires IsZone(nodes, origin, apex)
    ensures k == apex
  {
    k := 0;
    while nodes[k].name != origin
      invariant 0 <= k <= apex
      decreases apex - k
    {
      k := k + 1;
    }
    OrderTotal(origin, origin);
    assert InOrder(nodes) && !Less(nodes[k].name, nodes[apex].name);
  }

  /** The verifier's verdict on the chains of a signed zone. */
  method Verify(db: Database, hash: Name -> nat, ghost apex: nat) returns (ok: bool)
    requires IsZone(db.nodes, db.origin, apex)
    ensures ok <==> Accepted(db.nodes, db.origin, apex, db.nsec3, db.nsec3param, hash)
  {
    var expected := new Heap();
    var found := new Heap();
    var nodes, origin, param := db.nodes, db.origin, db.nsec3param;
    var k := FindApex(nodes, origin, apex);
    var t := if param.None? then None else Some(Tree(db.nsec3, param.value, origin, hash));
    var fatal, nsecOk, nsec3Ok := VerifyWalk(nodes, origin, nodes[k].nsec.Some?, t, expected, apex);
    if param.Some? {
      RecordAllFound(param.value, db.nsec3, found);
    }
    if fatal {
      return false;
    }
    ghost var e, f := expected.elems, found.elems;
    var verdict := VerifyChains(expected, found);
    ok := nsecOk && nsec3Ok && verdict == Success;
    if t.Some? {
      ListingsAgree(Recorded(t.value, LookupsOf(origin, VisitedFrom(nodes, origin, 0))),
                    FoundIn(param.value, db.nsec3, db.nsec3.Keys), e, f);
    }
  }

  lemma {:induction false} ListingsAgree(recorded: multiset<Elem>, foundElems: multiset<Elem>, e: seq<Elem>, f: seq<Elem>)
    requires Ascending(e) && multiset(e) == recorded && multiset(f) == foundElems
    ensures ChainsOk(recorded, foundElems) <==> multiset(e) == multiset(f) && Closed(e)
  {
    if ChainsOk(recorded, foundElems) {
      var s :| Ascending(s) && multiset(s) == recorded && Closed(s);
      AscendingUnique(s, e);
    }
  }
}
