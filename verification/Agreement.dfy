/** The signer's output against the verifier's independent walk. */
module Agreement {
  import opened Options
  import opened Names
  import opened Zones
  import opened SignedNames
  import opened Databases
  import opened HashLists
  import opened Chains
  import opened VerifyZone
  import SignNsec
  import SignNsec3

  // ----- what both signers leave for the verifier to visit

  /** The zone after signing: same data, nodes from the apex on emptied unless they hold data. */
  ghost predicate Settled(orig: seq<Node>, nodes: seq<Node>, apex: nat) {
    && SameData(orig, nodes)
    && (forall k :: 0 <= k < apex && k < |orig| ==> nodes[k] == orig[k])
    && (forall k :: apex <= k < |nodes| ==> (!Active(nodes[k]) ==> Empty(nodes[k])))
  }

  /** The verifier visits exactly the names kept without opt-out. */
  lemma {:induction false} VisitsKept(orig: seq<Node>, nodes: seq<Node>, origin: Name, apex: nat, k: nat)
    requires IsZone(orig, origin, apex) && Settled(orig, nodes, apex) && k < |nodes|
    ensures Visited(nodes, origin, nodes[k]) <==> Signed(orig, origin, false, orig[k])
    ensures BelowCut(nodes, origin, nodes[k].name) <==> BelowCut(orig, origin, orig[k].name)
  {
    SignedIgnoresSignatures(orig, nodes, origin, false, k);
    BeforeApexIsOutside(orig, origin, apex, k);
  }

  lemma {:induction false} VisitedNames(orig: seq<Node>, nodes: seq<Node>, origin: Name, apex: nat, i: nat)
    requires IsZone(orig, origin, apex) && Settled(orig, nodes, apex) && i <= |nodes|
    ensures NodeNames(VisitedFrom(nodes, origin, i)) == SignedFrom(orig, origin, false, i)
    decreases |nodes| - i
  {
    if i < |nodes| {
      VisitsKept(orig, nodes, origin, apex, i);
      VisitedNames(orig, nodes, origin, apex, i + 1);
      var rest := VisitedFrom(nodes, origin, i + 1);
      assert NodeNames([nodes[i]] + rest) == [nodes[i].name] + NodeNames(rest);
    }
  }

  /** No NSEC RRset at an out-of-zone name that sorts before the origin.  The signers never look
  at those nodes again, so what is there stays there. */
  ghost predicate NoNsecBeforeApex(nodes: seq<Node>, apex: nat) {
    forall k :: 0 <= k < apex && k < |nodes| ==> nodes[k].nsec == None
  }

  // ----- NSEC

  lemma {:induction false} NsecLinks(orig: seq<Node>, nodes: seq<Node>, origin: Name, apex: nat, i: nat, k: nat)
    requires IsZone(orig, origin, apex) && Settled(orig, nodes, apex) && apex <= i <= |nodes|
    requires SignNsec.NsecDoneIn(orig, nodes, origin, apex, |nodes|)
    requires k < |VisitedFrom(nodes, origin, i)|
    ensures NsecRight(VisitedFrom(nodes, origin, i), origin, k)
    decreases |nodes| - i
  {
    VisitsKept(orig, nodes, origin, apex, i);
    VisitedNames(orig, nodes, origin, apex, i + 1);
    var rest := VisitedFrom(nodes, origin, i + 1);
    assert SignNsec.NsecDone(orig, origin, i, nodes[i]);
    if !Visited(nodes, origin, nodes[i]) {
      NsecLinks(orig, nodes, origin, apex, i + 1, k);
    } else if k > 0 {
      NsecLinks(orig, nodes, origin, apex, i + 1, k - 1);
      assert ([nodes[i]] + rest)[k] == rest[k - 1];
    } else if rest != [] {
      assert NodeNames(rest)[0] == rest[0].name;
    }
  }

  /** Signing with NSEC satisfies the verifier exactly when no out-of-zone name before the origin
  carries an NSEC RRset. */
  lemma {:induction false} NsecAgreement(orig: seq<Node>, nodes: seq<Node>, origin: Name, apex: nat, hash: Name -> nat)
    requires IsZone(orig, origin, apex) && Settled(orig, nodes, apex)
    requires SignNsec.NsecDoneIn(orig, nodes, origin, apex, |nodes|)
    ensures Accepted(nodes, origin, apex, map[], None, hash) <==> NoNsecBeforeApex(orig, apex)
  {
    ApexIsSigned(orig, origin, apex, false, 0);
    VisitedNames(orig, nodes, origin, apex, 0);
    StrayOnlyBefore(orig, nodes, origin, apex);
    ZoneStart(orig, nodes, origin, apex, 0);
    forall k | 0 <= k < |VisitedFrom(nodes, origin, 0)|
      ensures NsecRight(VisitedFrom(nodes, origin, 0), origin, k)
    {
      NsecLinks(orig, nodes, origin, apex, apex, k);
    }
  }

  lemma {:induction false} ZoneStart(orig: seq<Node>, nodes: seq<Node>, origin: Name, apex: nat, i: nat)
    requires IsZone(orig, origin, apex) && Settled(orig, nodes, apex) && i <= apex
    ensures VisitedFrom(nodes, origin, i) == VisitedFrom(nodes, origin, apex)
    decreases apex - i
  {
    if i < apex {
      BeforeApexIsOutside(orig, origin, apex, i);
      ZoneStart(orig, nodes, origin, apex, i + 1);
      assert !Visited(nodes, origin, nodes[i]);
    }
  }

  lemma {:induction false} StrayOnlyBefore(orig: seq<Node>, nodes: seq<Node>, origin: Name, apex: nat)
    requires IsZone(orig, origin, apex) && Settled(orig, nodes, apex)
    requires forall k :: apex <= k < |nodes| && nodes[k].nsec.Some? ==> Visited(nodes, origin, nodes[k])
    ensures StrayIn(nodes, origin, 0, |nodes|) <==> !NoNsecBeforeApex(orig, apex)
  {
    forall k | 0 <= k < |nodes|
      ensures Stray(nodes, origin, nodes[k]) <==> k < apex && orig[k].nsec.Some?
    {
      BeforeApexIsOutside(orig, origin, apex, k);
    }
    if !NoNsecBeforeApex(orig, apex) {
      var k :| 0 <= k < apex && k < |orig| && orig[k].nsec != None;
      assert Stray(nodes, origin, nodes[k]);
    }
  }

  // ----- NSEC3: which names are looked up

  lemma {:induction false} LookupNames(origin: Name, ns: seq<Node>)
    ensures multiset(NamesOf(LookupsOf(origin, ns))) == Entered(NodeNames(ns))
    decreases |ns|
  {
    if ns != [] {
      var n := |ns| - 1;
      var prev := if n == 0 then None else Some(ns[n - 1].name);
      var before, own := LookupsOf(origin, ns[..n]), NodeLookups(origin, prev, ns[n]);
      LookupNames(origin, ns[..n]);
      NamesOfConcat(before, own);
      NodeLookupNames(origin, prev, ns[n]);
      assert multiset(NamesOf(before + own)) == multiset(NamesOf(before)) + multiset(NamesOf(own));
      EnteredStep(ns);
    }
  }

  lemma {:induction false} EnteredStep(ns: seq<Node>)
    requires ns != []
    ensures var n := |ns| - 1;
            Entered(NodeNames(ns)) ==
            Entered(NodeNames(ns[..n]))
            + (multiset{ns[n].name} + if n == 0 then multiset{} else multiset(Between(ns[n - 1].name, ns[n].name)))
  {
    var n, names := |ns| - 1, NodeNames(ns);
    assert names[..n] == NodeNames(ns[..n]);
    assert names[n] == ns[n].name && (n > 0 ==> names[n - 1] == ns[n - 1].name);
    if n > 0 {
      Grouped(Entered(names[..n]), multiset{names[n]}, multiset(Between(names[n - 1], names[n])));
    } else {
      Grouped(Entered(names[..n]), multiset{names[n]}, multiset{});
    }
  }

  lemma {:induction false} Grouped(a: multiset<Name>, b: multiset<Name>, c: multiset<Name>)
    ensures a + b + c == a + (b + c)
  {
  }

  lemma {:induction false} NamesOfConcat(a: seq<Lookup>, b: seq<Lookup>)
    ensures NamesOf(a + b) == NamesOf(a) + NamesOf(b)
  {
  }

  lemma {:induction false} NodeLookupNames(origin: Name, prev: Option<Name>, n: Node)
    ensures multiset(NamesOf(NodeLookups(origin, prev, n))) ==
            multiset{n.name} + (if prev.None? then multiset{} else multiset(Between(prev.value, n.name)))
  {
    var first := Lookup(n.name, Delegation(origin, n), false, DS in n.rrs);
    if prev.Some? {
      var ents := EmptyLookups(origin, prev.value, n);
      NamesOfConcat([first], ents);
      assert NamesOf([first]) == [n.name];
      ListsAncestors(n.name, Common(prev.value, n.name) + 1, NamesOf(ents), 0);
      assert NamesOf(ents)[0..] == NamesOf(ents);
    } else {
      assert NamesOf([first] + []) == [n.name];
    }
  }

  lemma {:induction false} ListsAncestors(name: Name, c: nat, names: seq<Name>, k: nat)
    requires |names| == (if c < |name| then |name| - c else 0) && k <= |names|
    requires forall i :: 0 <= i < |names| ==> names[i] == name[..c + i]
    ensures multiset(names[k..]) == multiset(Ancestors(name, c + k))
    decreases |names| - k
  {
    if k < |names| {
      ListsAncestors(name, c, names, k + 1);
      AncestorsStep(name, c + k);
      DisjointBag(Ancestors(name, c + k + 1), {name[..c + k]});
      FirstOfRest(names, k);
    }
  }

  lemma {:induction false} FirstOfRest(names: seq<Name>, k: nat)
    requires k < |names|
    ensures multiset(names[k..]) == multiset{names[k]} + multiset(names[k + 1..])
  {
    assert names[k..] == [names[k]] + names[k + 1..];
  }

  /** Every look-up belongs to a visited node: its name is the node's or an in-zone ancestor of it,
  and the delegation and DS flags are the node's. */
  ghost predicate LookupFrom(origin: Name, n: Node, l: Lookup) {
    && l.delegation == Delegation(origin, n)
    && (!l.empty ==> l.name == n.name && l.ds == (DS in n.rrs))
    && origin <= l.name <= n.name
  }

  lemma {:induction false} LookupsHaveNodes(origin: Name, ns: seq<Node>, l: Lookup)
    requires forall k :: 0 <= k < |ns| ==> Subdomain(ns[k].name, origin)
    requires l in LookupsOf(origin, ns)
    ensures exists k :: 0 <= k < |ns| && LookupFrom(origin, ns[k], l)
    decreases |ns|
  {
    var n := |ns| - 1;
    var prev := if n == 0 then None else Some(ns[n - 1].name);
    if l in LookupsOf(origin, ns[..n]) {
      LookupsHaveNodes(origin, ns[..n], l);
      var k :| 0 <= k < n && LookupFrom(origin, ns[..n][k], l);
      assert LookupFrom(origin, ns[k], l);
    } else {
      if prev.Some? {
        CommonIsDeepest(origin, prev.value, ns[n].name);
      }
      assert LookupFrom(origin, ns[n], l);
    }
  }

  // ----- NSEC3: what a look-up finds

  /** The chain element of hash `h`. */
  ghost function RingElem(m: map<nat, seq<Nsec3>>, params: Params, h: nat): Elem
    requires h in m && m[h] != []
  {
    ElemOf(params, h, m[h][0])
  }

  lemma {:induction false} LookupOnRing(t: Tree, ring: set<nat>, optout: bool, l: Lookup)
    requires SignNsec3.HoldsRing(t.m, ring, t.params, optout)
    ensures t.hash(l.name) in ring ==>
              Passes(t, l) && Records(t, l) == multiset{RingElem(t.m, t.params, t.hash(l.name))}
    ensures t.hash(l.name) !in ring ==>
              Records(t, l) == multiset{}
              && (Passes(t, l) <==> l.delegation && (l.empty ==> OptOut(t)) && (!l.empty ==> !l.ds))
  {
    var h := t.hash(l.name);
    if h in ring {
      assert SignNsec3.Linked(t.m, ring, t.params, optout, h);
      var recs := At(t, l.name);
      assert recs[1..] == [];
    }
  }

  /** The elements of the ring. */
  ghost function RingElems(m: map<nat, seq<Nsec3>>, params: Params, hs: set<nat>): (elems: set<Elem>)
    requires forall h :: h in hs ==> h in m && m[h] != []
  {
    set h | h in hs :: RingElem(m, params, h)
  }

  lemma {:induction false} RingElemsAdd(m: map<nat, seq<Nsec3>>, params: Params, hs: set<nat>, h: nat)
    requires forall x :: x in hs + {h} ==> x in m && m[x] != []
    requires h !in hs
    ensures multiset(RingElems(m, params, hs + {h})) ==
            multiset(RingElems(m, params, hs)) + multiset{RingElem(m, params, h)}
  {
    var e := RingElem(m, params, h);
    assert RingElems(m, params, hs + {h}) == RingElems(m, params, hs) + {e};
    assert e !in RingElems(m, params, hs);
  }

  /** The hashes of the ring that the look-ups hit. */
  ghost function Hit(t: Tree, ring: set<nat>, ls: seq<Lookup>): (hs: set<nat>) {
    set l | l in ls && t.hash(l.name) in ring :: t.hash(l.name)
  }

  lemma {:induction false} HitStep(t: Tree, ring: set<nat>, ls: seq<Lookup>)
    requires ls != []
    ensures Hit(t, ring, ls) == Hit(t, ring, ls[1..]) + (if t.hash(ls[0].name) in ring then {t.hash(ls[0].name)} else {})
  {
    assert forall l :: l in ls <==> l == ls[0] || l in ls[1..];
    assert ls[0] in ls;
  }

  /** When the look-ups hit no hash of the ring twice, they record each hit once. */
  lemma {:induction false} RecordedOnce(t: Tree, ring: set<nat>, optout: bool, ls: seq<Lookup>)
    requires SignNsec3.HoldsRing(t.m, ring, t.params, optout)
    requires forall i, j :: 0 <= i < j < |ls| && t.hash(ls[i].name) in ring ==> t.hash(ls[i].name) != t.hash(ls[j].name)
    ensures forall h :: h in Hit(t, ring, ls) ==> SignNsec3.Linked(t.m, ring, t.params, optout, h)
    ensures Recorded(t, ls) == multiset(RingElems(t.m, t.params, Hit(t, ring, ls)))
  {
    if ls == [] {
      assert Hit(t, ring, ls) == {};
    } else {
      var h := t.hash(ls[0].name);
      RecordedOnce(t, ring, optout, ls[1..]);
      HitStep(t, ring, ls);
      LookupOnRing(t, ring, optout, ls[0]);
      if h in ring {
        assert h !in Hit(t, ring, ls[1..]);
        RingElemsAdd(t.m, t.params, Hit(t, ring, ls[1..]), h);
      }
    }
  }

  /** Two look-ups with the same hash of the ring record its element twice. */
  lemma {:induction false} RecordedTwice(t: Tree, ring: set<nat>, optout: bool, ls: seq<Lookup>, i: nat, j: nat)
    requires SignNsec3.HoldsRing(t.m, ring, t.params, optout)
    requires i < j < |ls| && t.hash(ls[i].name) == t.hash(ls[j].name) && t.hash(ls[i].name) in ring
    ensures SignNsec3.Linked(t.m, ring, t.params, optout, t.hash(ls[i].name))
    ensures Recorded(t, ls)[RingElem(t.m, t.params, t.hash(ls[i].name))] >= 2
  {
    LookupOnRing(t, ring, optout, ls[i]);
    LookupOnRing(t, ring, optout, ls[j]);
    RecordedHas(t, ls, j);
    assert ls[..j][i] == ls[i];
    RecordedHas(t, ls[..j], i);
  }

  lemma {:induction false} RecordedHas(t: Tree, ls: seq<Lookup>, j: nat)
    requires j < |ls|
    ensures Recorded(t, ls) >= Recorded(t, ls[..j]) + Records(t, ls[j])
  {
    assert ls == ls[..j] + ls[j..];
    LookupsConcat(t, ls[..j], ls[j..]);
  }

  lemma {:induction false} FoundOnRing(m: map<nat, seq<Nsec3>>, ring: set<nat>, params: Params, optout: bool, hs: set<nat>)
    requires SignNsec3.HoldsRing(m, ring, params, optout) && hs <= m.Keys
    ensures forall h :: h in ring ==> SignNsec3.Linked(m, ring, params, optout, h)
    ensures FoundIn(params, m, hs) == multiset(RingElems(m, params, hs * ring))
    decreases hs
  {
    if hs == {} {
      assert hs * ring == {};
    } else {
      var h := Any(hs);
      FoundOnRing(m, ring, params, optout, hs - {h});
      RingGains(m, ring, params, optout, hs - {h}, h);
      assert hs - {h} + {h} == hs;
    }
  }

  lemma {:induction false} RingGains(m: map<nat, seq<Nsec3>>, ring: set<nat>, params: Params, optout: bool, hs: set<nat>, h: nat)
    requires SignNsec3.HoldsRing(m, ring, params, optout) && hs <= m.Keys && h in m && h !in hs
    ensures forall x :: x in ring ==> SignNsec3.Linked(m, ring, params, optout, x)
    ensures multiset(RingElems(m, params, (hs + {h}) * ring)) ==
            multiset(RingElems(m, params, hs * ring)) + FoundAt(params, h, m[h])
  {
    assert forall x :: x in ring ==> SignNsec3.Linked(m, ring, params, optout, x);
    if h in ring {
      FoundSingle(params, h, m[h]);
      RingElemsAdd(m, params, hs * ring, h);
      assert (hs + {h}) * ring == hs * ring + {h};
    } else {
      assert m[h] == [] && (hs + {h}) * ring == hs * ring;
    }
  }

  lemma {:induction false} FoundSingle(params: Params, owner: nat, recs: seq<Nsec3>)
    requires |recs| == 1 && Matches(recs[0], params)
    ensures FoundAt(params, owner, recs) == multiset{ElemOf(params, owner, recs[0])}
  {
    assert FoundAt(params, owner, recs[1..]) == multiset{};
  }

  // ----- NSEC3: the ring is a closed chain

  /** Every finite set of numbers has an increasing listing. */
  lemma {:induction false} ListingExists(s: set<nat>) returns (r: seq<nat>)
    ensures Listing(s, r)
    decreases |s|
  {
    if s == {} {
      r := [];
    } else {
      var top := Largest(s);
      var init := ListingExists(s - {top});
      r := init + [top];
      assert forall x :: x in r <==> x in init || x == top;
      assert forall x :: x in init <==> x in s - {top};
      assert s == (set x | x in r);
      forall a | 0 <= a < |init| ensures init[a] < top {
        assert init[a] in init;
        assert init[a] in s - {top};
      }
    }
  }

  lemma {:induction false} Largest(s: set<nat>) returns (top: nat)
    requires s != {}
    ensures top in s && forall x :: x in s ==> x <= top
    decreases |s|
  {
    var y :| y in s;
    if s == {y} {
      top := y;
    } else {
      assert s - {y} != {};
      var z := Largest(s - {y});
      top := if y < z then z else y;
      forall x | x in s ensures x <= top {
        assert x == y || x in s - {y};
      }
    }
  }

  function Chain(m: map<nat, seq<Nsec3>>, params: Params, r: seq<nat>): (c: seq<Elem>)
    requires forall k :: 0 <= k < |r| ==> r[k] in m && m[r[k]] != []
  {
    seq(|r|, k requires 0 <= k < |r| => ElemOf(params, r[k], m[r[k]][0]))
  }

  /** Listed by owner, the records of the ring form one closed chain. */
  lemma {:induction false} RingCloses(m: map<nat, seq<Nsec3>>, ring: set<nat>, params: Params, optout: bool, r: seq<nat>)
    requires SignNsec3.HoldsRing(m, ring, params, optout) && Listing(ring, r)
    ensures forall k :: 0 <= k < |r| ==> SignNsec3.Linked(m, ring, params, optout, r[k])
    ensures Ascending(Chain(m, params, r)) && Closed(Chain(m, params, r))
  {
    forall k | 0 <= k < |r| ensures SignNsec3.Linked(m, ring, params, optout, r[k]) {
      assert r[k] in r;
    }
    ChainAscends(m, params, r);
    ChainsClose(m, ring, params, optout, r);
  }

  lemma {:induction false} ChainAscends(m: map<nat, seq<Nsec3>>, params: Params, r: seq<nat>)
    requires forall a, b :: 0 <= a < b < |r| ==> r[a] < r[b]
    requires forall k :: 0 <= k < |r| ==> r[k] in m && m[r[k]] != []
    requires forall k :: 0 <= k < |r| ==> m[r[k]][0].nextLength == HASH_LENGTH
    ensures Ascending(Chain(m, params, r))
  {
  }

  lemma {:induction false} ChainsClose(m: map<nat, seq<Nsec3>>, ring: set<nat>, params: Params, optout: bool, r: seq<nat>)
    requires Listing(ring, r)
    requires forall k :: 0 <= k < |r| ==> r[k] in m && m[r[k]] != []
    requires forall k :: 0 <= k < |r| ==> SignNsec3.Linked(m, ring, params, optout, r[k])
    ensures Closed(Chain(m, params, r))
  {
    forall i | 0 <= i < |r| ensures Closes(Chain(m, params, r), i) {
      ChainCloses(m, ring, params, optout, r, i);
    }
  }

  lemma {:induction false} ChainCloses(m: map<nat, seq<Nsec3>>, ring: set<nat>, params: Params, optout: bool, r: seq<nat>, i: nat)
    requires Listing(ring, r) && i < |r|
    requires forall k :: 0 <= k < |r| ==> r[k] in m && m[r[k]] != []
    requires forall k :: 0 <= k < |r| ==> SignNsec3.Linked(m, ring, params, optout, r[k])
    ensures Closes(Chain(m, params, r), i)
  {
    var c := Chain(m, params, r);
    RingStep(ring, r, i);
    assert SignNsec3.Linked(m, ring, params, optout, r[i]);
    CyclicNextUnique(ring, r[i], c[i].next, r[Around(i, 1, |r|)]);
    forall k | 0 <= k < |c| ensures !NewChain(c[0], c[k]) {
      assert SignNsec3.Linked(m, ring, params, optout, r[0]) && SignNsec3.Linked(m, ring, params, optout, r[k]);
    }
    OneChain(c, i);
  }

  lemma {:induction false} OneChain(c: seq<Elem>, i: nat)
    requires i < |c| && forall k :: 0 <= k < |c| ==> !NewChain(c[0], c[k])
    ensures ChainStart(c, i) == 0
    decreases i
  {
    if i > 0 {
      assert !NewChain(c[i - 1], c[i]);
      OneChain(c, i - 1);
    }
  }

  lemma {:induction false} ChainBag(m: map<nat, seq<Nsec3>>, params: Params, ring: set<nat>, r: seq<nat>)
    requires Listing(ring, r) && forall h :: h in ring ==> h in m && m[h] != []
    ensures forall k :: 0 <= k < |r| ==> r[k] in m && m[r[k]] != []
    ensures multiset(Chain(m, params, r)) == multiset(RingElems(m, params, ring))
    decreases |r|
  {
    forall k | 0 <= k < |r| ensures r[k] in ring {
      assert r[k] in r;
    }
    if r == [] {
      assert ring == {};
    } else {
      var n := |r| - 1;
      var init, h := r[..n], r[n];
      assert forall x :: x in r <==> x in init || x == h;
      assert h !in init;
      assert Listing(ring - {h}, init);
      ChainBag(m, params, ring - {h}, init);
      RingElemsAdd(m, params, ring - {h}, h);
      assert ring - {h} + {h} == ring;
      assert Chain(m, params, r) == Chain(m, params, init) + [ElemOf(params, h, m[h][0])];
    }
  }

  // ----- NSEC3: agreement

  /** No name that the verifier looks up but the signer left without a record has the hash of a name
  that has one.  Without opt-out there is no such name. */
  ghost predicate NoFalseHit(orig: seq<Node>, origin: Name, optout: bool, hash: Name -> nat) {
    forall v :: v in SignNsec3.ChainNames(orig, origin, false) && v !in SignNsec3.ChainNames(orig, origin, optout) ==>
                  hash(v) !in SignNsec3.HashSet(SignNsec3.ChainNames(orig, origin, optout), hash)
  }

  lemma {:induction false} OptOutShrinks(orig: seq<Node>, origin: Name, v: Name)
    requires v in SignNsec3.ChainNames(orig, origin, true)
    ensures v in SignNsec3.ChainNames(orig, origin, false)
  {
    var some, all := SignedFrom(orig, origin, true, 0), SignedFrom(orig, origin, false, 0);
    var k, len :| 0 <= k < |some| && |origin| <= len <= |some[k]| && v == some[k][..len];
    assert some[k] in some;
    SignedFromMembers(orig, origin, true, 0, some[k]);
    SignedFromMembers(orig, origin, false, 0, some[k]);
    var j :| 0 <= j < |all| && all[j] == some[k];
    assert v == all[j][..len];
  }

  /** An ancestor of a name that has a record has one too. */
  lemma {:induction false} AncestorInChain(orig: seq<Node>, origin: Name, optout: bool, name: Name, p: Name)
    requires name in SignedFrom(orig, origin, optout, 0) && origin <= p <= name
    ensures p in SignNsec3.ChainNames(orig, origin, optout)
  {
    var all := SignedFrom(orig, origin, optout, 0);
    var k :| 0 <= k < |all| && all[k] == name;
    assert p == all[k][..|p|];
  }

  lemma {:induction false} OriginInChain(orig: seq<Node>, origin: Name, apex: nat, optout: bool)
    requires IsZone(orig, origin, apex)
    ensures origin in SignNsec3.ChainNames(orig, origin, optout)
  {
    ApexIsSigned(orig, origin, apex, optout, 0);
    AncestorInChain(orig, origin, optout, origin, origin);
  }

  /** The setting of the theorem: a zone, what signing left of it, and the NSEC3 tree. */
  ghost predicate SignedZone(orig: seq<Node>, nodes: seq<Node>, origin: Name, apex: nat, optout: bool, t: Tree) {
    && IsZone(orig, origin, apex) && Settled(orig, nodes, apex)
    && t.origin == origin
    && SignNsec3.Injective(t.hash, SignNsec3.ChainNames(orig, origin, optout))
    && SignNsec3.HoldsRing(t.m, SignNsec3.HashSet(SignNsec3.ChainNames(orig, origin, optout), t.hash), t.params, optout)
  }

  /** A look-up for a name without a record, and without a false hit, is forgiven. */
  lemma {:induction false} MissIsForgiven(orig: seq<Node>, nodes: seq<Node>, origin: Name, apex: nat, optout: bool, t: Tree, l: Lookup)
    requires SignedZone(orig, nodes, origin, apex, optout, t)
    requires l in LookupsOf(origin, VisitedFrom(nodes, origin, 0))
    ensures l.name in SignNsec3.ChainNames(orig, origin, false)
    ensures l.name !in SignNsec3.ChainNames(orig, origin, optout) ==>
              l.delegation && (l.empty ==> OptOut(t)) && (!l.empty ==> !l.ds)
  {
    var visited := VisitedFrom(nodes, origin, 0);
    var ring := SignNsec3.HashSet(SignNsec3.ChainNames(orig, origin, optout), t.hash);
    VisitedAre(nodes, origin, 0);
    LookupsHaveNodes(origin, visited, l);
    var k :| 0 <= k < |visited| && LookupFrom(origin, visited[k], l);
    var i :| 0 <= i < |nodes| && nodes[i] == visited[k] && Visited(nodes, origin, nodes[i]);
    VisitsKept(orig, nodes, origin, apex, i);
    SignedFromMembers(orig, origin, false, 0, orig[i].name);
    AncestorInChain(orig, origin, false, orig[i].name, l.name);
    SignedFromMembers(orig, origin, optout, 0, orig[i].name);
    if l.name !in SignNsec3.ChainNames(orig, origin, optout) {
      if Signed(orig, origin, optout, orig[i]) {
        AncestorInChain(orig, origin, optout, orig[i].name, l.name);
        assert false;
      }
      OriginInChain(orig, origin, apex, optout);
      assert SignNsec3.Linked(t.m, ring, t.params, optout, t.hash(origin));
    }
  }

  lemma {:induction false} VisitedAre(nodes: seq<Node>, origin: Name, i: nat)
    requires i <= |nodes|
    ensures forall k :: 0 <= k < |VisitedFrom(nodes, origin, i)| ==>
                          Subdomain(VisitedFrom(nodes, origin, i)[k].name, origin)
                          && exists j :: i <= j < |nodes| && nodes[j] == VisitedFrom(nodes, origin, i)[k] && Visited(nodes, origin, nodes[j])
    decreases |nodes| - i
  {
    if i < |nodes| {
      VisitedAre(nodes, origin, i + 1);
    }
  }

  /** The verifier looks up every name kept without opt-out, and its in-zone ancestors, once each. */
  lemma {:induction false} LookedUpOnce(orig: seq<Node>, nodes: seq<Node>, origin: Name, apex: nat)
    requires IsZone(orig, origin, apex) && Settled(orig, nodes, apex)
    ensures multiset(NamesOf(LookupsOf(origin, VisitedFrom(nodes, origin, 0)))) ==
            multiset(SignNsec3.ChainNames(orig, origin, false))
  {
    LookupNames(origin, VisitedFrom(nodes, origin, 0));
    VisitedNames(orig, nodes, origin, apex, 0);
    SignedFromSorted(orig, origin, false, 0);
    ApexIsSigned(orig, origin, apex, false, 0);
    EmptyNonTerminalsExact(SignedFrom(orig, origin, false, 0), origin);
  }

  /** Signer and verifier agree on NSEC3 exactly when there is no false hit and no NSEC before the
  apex. */
  lemma {:induction false} Nsec3Agreement(orig: seq<Node>, nodes: seq<Node>, origin: Name, apex: nat, optout: bool, t: Tree)
    requires SignedZone(orig, nodes, origin, apex, optout, t)
    requires forall k :: apex <= k < |nodes| ==> nodes[k].nsec == None
    ensures Accepted(nodes, origin, apex, t.m, Some(t.params), t.hash) <==>
            NoNsecBeforeApex(orig, apex) && NoFalseHit(orig, origin, optout, t.hash)
  {
    var ls := LookupsOf(origin, VisitedFrom(nodes, origin, 0));
    StrayOnlyBefore(orig, nodes, origin, apex);
    if NoFalseHit(orig, origin, optout, t.hash) {
      LookupsAllPass(orig, nodes, origin, apex, optout, t);
      ChainsMatch(orig, nodes, origin, apex, optout, t);
    } else {
      FalseHitFails(orig, nodes, origin, apex, optout, t);
    }
  }

  lemma {:induction false} LookupsAllPass(orig: seq<Node>, nodes: seq<Node>, origin: Name, apex: nat, optout: bool, t: Tree)
    requires SignedZone(orig, nodes, origin, apex, optout, t) && NoFalseHit(orig, origin, optout, t.hash)
    ensures AllPass(t, LookupsOf(origin, VisitedFrom(nodes, origin, 0)))
  {
    var ls := LookupsOf(origin, VisitedFrom(nodes, origin, 0));
    var ring := SignNsec3.HashSet(SignNsec3.ChainNames(orig, origin, optout), t.hash);
    AllPassEach(t, ls);
    forall k | 0 <= k < |ls| ensures Passes(t, ls[k]) {
      assert ls[k] in ls;
      LookupOnRing(t, ring, optout, ls[k]);
      MissIsForgiven(orig, nodes, origin, apex, optout, t, ls[k]);
    }
  }

  lemma {:induction false} ChainsMatch(orig: seq<Node>, nodes: seq<Node>, origin: Name, apex: nat, optout: bool, t: Tree)
    requires SignedZone(orig, nodes, origin, apex, optout, t) && NoFalseHit(orig, origin, optout, t.hash)
    ensures ChainsOk(Recorded(t, LookupsOf(origin, VisitedFrom(nodes, origin, 0))), FoundIn(t.params, t.m, t.m.Keys))
  {
    var ls := LookupsOf(origin, VisitedFrom(nodes, origin, 0));
    var ring := SignNsec3.HashSet(SignNsec3.ChainNames(orig, origin, optout), t.hash);
    LookedUpOnce(orig, nodes, origin, apex);
    HitsAreDistinct(orig, origin, optout, t, ls);
    RecordedOnce(t, ring, optout, ls);
    AllAreHit(orig, origin, optout, t, ls);
    FoundOnRing(t.m, ring, t.params, optout, t.m.Keys);
    assert t.m.Keys * ring == ring;
    var r := ListingExists(ring);
    RingCloses(t.m, ring, t.params, optout, r);
    ChainBag(t.m, t.params, ring, r);
  }

  lemma {:induction false} HitsAreDistinct(orig: seq<Node>, origin: Name, optout: bool, t: Tree, ls: seq<Lookup>)
    requires SignNsec3.Injective(t.hash, SignNsec3.ChainNames(orig, origin, optout))
    requires NoFalseHit(orig, origin, optout, t.hash)
    requires multiset(NamesOf(ls)) == multiset(SignNsec3.ChainNames(orig, origin, false))
    ensures forall i, j :: 0 <= i < j < |ls|
                           && t.hash(ls[i].name) in SignNsec3.HashSet(SignNsec3.ChainNames(orig, origin, optout), t.hash)
                           ==> t.hash(ls[i].name) != t.hash(ls[j].name)
  {
    var ring := SignNsec3.HashSet(SignNsec3.ChainNames(orig, origin, optout), t.hash);
    var names := NamesOf(ls);
    forall i, j | 0 <= i < j < |ls| && t.hash(ls[i].name) in ring && t.hash(ls[i].name) == t.hash(ls[j].name)
      ensures false
    {
      NameLookedUp(names, SignNsec3.ChainNames(orig, origin, false), i);
      NameLookedUp(names, SignNsec3.ChainNames(orig, origin, false), j);
      assert names[i] == names[j];
      CountTwice(names, i, j);
    }
  }

  lemma {:induction false} NameLookedUp(names: seq<Name>, all: set<Name>, i: nat)
    requires multiset(names) == multiset(all) && i < |names|
    ensures names[i] in all
  {
    assert names[i] in multiset(names);
  }

  lemma {:induction false} AllAreHit(orig: seq<Node>, origin: Name, optout: bool, t: Tree, ls: seq<Lookup>)
    requires multiset(NamesOf(ls)) == multiset(SignNsec3.ChainNames(orig, origin, false))
    ensures var ring := SignNsec3.HashSet(SignNsec3.ChainNames(orig, origin, optout), t.hash);
            Hit(t, ring, ls) == ring
  {
    var ring := SignNsec3.HashSet(SignNsec3.ChainNames(orig, origin, optout), t.hash);
    forall h | h in ring ensures h in Hit(t, ring, ls) {
      var v :| v in SignNsec3.ChainNames(orig, origin, optout) && t.hash(v) == h;
      var i := LookupIndex(orig, origin, optout, ls, v);
      assert ls[i] in ls;
    }
  }

  lemma {:induction false} LookupIndex(orig: seq<Node>, origin: Name, optout: bool, ls: seq<Lookup>, v: Name) returns (i: nat)
    requires multiset(NamesOf(ls)) == multiset(SignNsec3.ChainNames(orig, origin, false))
    requires v in SignNsec3.ChainNames(orig, origin, optout)
    ensures i < |ls| && ls[i].name == v
  {
    if optout {
      OptOutShrinks(orig, origin, v);
    }
    assert v in multiset(NamesOf(ls));
    i :| 0 <= i < |ls| && NamesOf(ls)[i] == v;
  }

  lemma {:induction false} FalseHitFails(orig: seq<Node>, nodes: seq<Node>, origin: Name, apex: nat, optout: bool, t: Tree)
    requires SignedZone(orig, nodes, origin, apex, optout, t) && !NoFalseHit(orig, origin, optout, t.hash)
    ensures Recorded(t, LookupsOf(origin, VisitedFrom(nodes, origin, 0))) != FoundIn(t.params, t.m, t.m.Keys)
  {
    var ls := LookupsOf(origin, VisitedFrom(nodes, origin, 0));
    var ring := SignNsec3.HashSet(SignNsec3.ChainNames(orig, origin, optout), t.hash);
    LookedUpOnce(orig, nodes, origin, apex);
    var i, j := FalseHitTwice(orig, origin, optout, t, ls);
    RecordedTwice(t, ring, optout, ls, i, j);
    FoundAtMostOnce(t, ring, optout, t.hash(ls[i].name));
  }

  /** A false hit is looked up besides the name it collides with. */
  lemma {:induction false} FalseHitTwice(orig: seq<Node>, origin: Name, optout: bool, t: Tree, ls: seq<Lookup>) returns (i: nat, j: nat)
    requires !NoFalseHit(orig, origin, optout, t.hash)
    requires multiset(NamesOf(ls)) == multiset(SignNsec3.ChainNames(orig, origin, false))
    ensures i < j < |ls| && t.hash(ls[i].name) == t.hash(ls[j].name)
    ensures t.hash(ls[i].name) in SignNsec3.HashSet(SignNsec3.ChainNames(orig, origin, optout), t.hash)
  {
    var some := SignNsec3.ChainNames(orig, origin, optout);
    var v :| v in SignNsec3.ChainNames(orig, origin, false) && v !in some && t.hash(v) in SignNsec3.HashSet(some, t.hash);
    var u :| u in some && t.hash(u) == t.hash(v);
    i := LookupIndex(orig, origin, false, ls, v);
    j := LookupIndex(orig, origin, optout, ls, u);
    if j < i {
      i, j := j, i;
    }
  }

  lemma {:induction false} FoundAtMostOnce(t: Tree, ring: set<nat>, optout: bool, h: nat)
    requires SignNsec3.HoldsRing(t.m, ring, t.params, optout) && h in ring
    ensures SignNsec3.Linked(t.m, ring, t.params, optout, h)
    ensures FoundIn(t.params, t.m, t.m.Keys)[RingElem(t.m, t.params, h)] <= 1
  {
    FoundOnRing(t.m, ring, t.params, optout, t.m.Keys);
  }

  // ----- the programs run one after the other

  /** `dnssec-signzone` with NSEC, then its own check of the result. */
  method SignAndVerifyNsec(db: Database, updateChain: bool, hash: Name -> nat, ghost apex: nat)
    returns (signed: bool, ok: bool)
    requires IsZone(db.nodes, db.origin, apex)
    modifies db
    ensures signed <==> old(db.nsec3param) == None || updateChain
    ensures signed ==> (ok <==> NoNsecBeforeApex(old(db.nodes), apex))
  {
    ghost var orig := db.nodes;
    var fatal := SignNsec.Nsecify(db, updateChain, apex);
    if fatal {
      return false, false;
    }
    assert forall k :: apex <= k < |db.nodes| ==> SignNsec.NsecDone(orig, db.origin, k, db.nodes[k]);
    SignNsec3.ZoneKeepsShape(orig, db.nodes, db.origin, apex);
    ok := Verify(db, hash, apex);
    NsecAgreement(orig, db.nodes, db.origin, apex, hash);
    return true, ok;
  }

  /** `dnssec-signzone` with NSEC3, then its own check of the result. */
  method SignAndVerifyNsec3(db: Database, params: Params, optout: bool, hash: Name -> nat, updateChain: bool,
                            ghost apex: nat)
    returns (outcome: SignNsec3.Outcome, ok: bool)
    requires IsZone(db.nodes, db.origin, apex)
    modifies db
    ensures outcome == SignNsec3.Signed3 <==>
            && !(SignNsec3.ApexHasNsec(old(db.nodes), apex) && !updateChain)
            && SignNsec3.Injective(hash, SignNsec3.ChainNames(old(db.nodes), db.origin, optout))
    ensures outcome == SignNsec3.Signed3 ==>
              (ok <==> NoNsecBeforeApex(old(db.nodes), apex) && NoFalseHit(old(db.nodes), db.origin, optout, hash))
    ensures outcome == SignNsec3.Signed3 && !optout ==> (ok <==> NoNsecBeforeApex(old(db.nodes), apex))
  {
    ghost var orig := db.nodes;
    outcome := SignNsec3.Nsec3ify(db, params, optout, hash, updateChain, apex);
    if outcome != SignNsec3.Signed3 {
      return outcome, false;
    }
    assert forall k :: apex <= k < |db.nodes| ==> SignNsec3.Cleaned(orig, db.origin, k, db.nodes[k]);
    SignNsec3.ZoneKeepsShape(orig, db.nodes, db.origin, apex);
    ok := Verify(db, hash, apex);
    Nsec3Agreement(orig, db.nodes, db.origin, apex, optout, Tree(db.nsec3, params, db.origin, hash));
    NoFalseHitWithoutOptOut(orig, db.origin, hash);
  }

  /** Without opt-out the condition on false hits is empty. */
  lemma {:induction false} NoFalseHitWithoutOptOut(orig: seq<Node>, origin: Name, hash: Name -> nat)
    ensures NoFalseHit(orig, origin, false, hash)
  {
  }
}
