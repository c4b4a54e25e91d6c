/** The signer from end to end: the chain is built, and then the nodes are signed by the workers.  Which
nodes are signed is stated on the zone as it was before. */
module SigningRuns {
  import opened Options
  import opened Names
  import opened Zones
  import opened SignedNames
  import opened Databases
  import opened ParallelSigning
  import SignNsec
  import SignNsec3
  import Agreement

  /** Positions in the main tree of the zone's own nodes, the apex excepted, and of nodes before it that
  carry an NSEC RRset of their own. */
  ghost predicate NsecNode(orig: seq<Node>, origin: Name, apex: nat, k: nat) {
    && k < |orig| && k != apex
    && if k < apex then orig[k].nsec.Some? else Signed(orig, origin, false, orig[k])
  }

  /** Everything in both trees that is not named like the origin. */
  ghost predicate Written(orig: seq<Node>, extra: seq<Node>, origin: Name, apex: nat, k: nat) {
    if k < |orig| then k != apex else k < |orig| + |extra| && extra[k - |orig|].name != origin
  }

  lemma {:induction false} WrittenOnce(s: Signer, orig: seq<Node>)
    requires s.Trees() && SameData(orig, s.nodes) && multiset(s.dumped) == multiset(s.Others(s.Total()))
    ensures forall k: nat :: multiset(s.dumped)[k] == if Written(orig, s.extra, s.origin, s.apex, k) then 1 else 0
  {
    forall k: nat
      ensures multiset(s.dumped)[k] == if Written(orig, s.extra, s.origin, s.apex, k) then 1 else 0
    {
      s.OthersAre(s.Total(), k);
      if k < |orig| && s.nodes[k].name == s.origin {
        OnlyApexIsOrigin(s.nodes, s.origin, s.apex, k);
      }
    }
  }

  lemma {:induction false} NsecNodeToSign(s: Signer, orig: seq<Node>, k: nat)
    requires s.Trees() && !s.withNsec3 && k < s.Total()
    requires IsZone(orig, s.origin, s.apex) && |orig| == |s.nodes| && SameIn(orig, s.nodes, 0, s.apex)
    requires SignNsec.NsecDoneIn(orig, s.nodes, s.origin, s.apex, |orig|)
    ensures k in s.ToSignBelow(s.Total()) <==> NsecNode(orig, s.origin, s.apex, k)
  {
    s.ToSignBelowAre(s.Total(), k);
    if k < |orig| {
      if s.nodes[k].name == s.origin {
        OnlyApexIsOrigin(s.nodes, s.origin, s.apex, k);
      }
      assert k >= s.apex ==> SignNsec.NsecDone(orig, s.origin, k, s.nodes[k]);
    }
  }

  /** Signing with NSEC: exactly the zone's own nodes are signed, each once.  Nodes before the apex that
  have an NSEC RRset are signed with them, having been left alone. */
  method SignWithNsec(db: Database, updateChain: bool, extra: seq<Node>, ntasks: nat, ghost apex: nat)
    returns (fatal: bool, signed: seq<nat>, dumped: seq<nat>)
    requires IsZone(db.nodes, db.origin, apex) && NoNsec3(db.nodes) && IsNsec3Tree(extra) && ntasks > 0
    modifies db
    ensures fatal <==> old(db.nsec3param).Some? && !updateChain
    ensures !fatal ==> forall k: nat ::
                multiset(signed)[k] == if NsecNode(old(db.nodes), db.origin, apex, k) then 1 else 0
    ensures !fatal && Agreement.NoNsecBeforeApex(old(db.nodes), apex) ==>
              forall k: nat :: k in signed <==>
                               k < |old(db.nodes)| && k != apex && Signed(old(db.nodes), db.origin, false, old(db.nodes)[k])
    ensures !fatal ==> forall k: nat ::
                multiset(dumped)[k] == if Written(old(db.nodes), extra, db.origin, apex, k) then 1 else 0
  {
    ghost var orig := db.nodes;
    fatal := SignNsec.Nsecify(db, updateChain, apex);
    if fatal {
      return true, [], [];
    }
    SignNsec3.ZoneKeepsShape(orig, db.nodes, db.origin, apex);
    var signer := new Signer(db.origin, false, false, db.nodes, extra, ntasks, apex);
    signer.Run();
    forall k: nat
      ensures multiset(signer.signed)[k] == if NsecNode(orig, db.origin, apex, k) then 1 else 0
    {
      signer.ToSignBelowAre(signer.Total(), k);
      if k < signer.Total() {
        NsecNodeToSign(signer, orig, k);
      }
    }
    forall k: nat
      ensures k in signer.signed <==> NsecNode(orig, db.origin, apex, k)
    {
      assert k in signer.signed <==> k in multiset(signer.signed);
    }
    BeforeApexUnsigned(orig, db.origin, apex);
    WrittenOnce(signer, orig);
    return false, signer.signed, signer.dumped;
  }

  lemma {:induction false} BeforeApexUnsigned(orig: seq<Node>, origin: Name, apex: nat)
    requires IsZone(orig, origin, apex)
    ensures forall k :: 0 <= k < apex ==> !Signed(orig, origin, false, orig[k])
  {
    forall k | 0 <= k < apex
      ensures !Signed(orig, origin, false, orig[k])
    {
      BeforeApexIsOutside(orig, origin, apex, k);
    }
  }

  // ----- NSEC3

  /** The nodes of the NSEC3 tree: one named like the origin, and one for each hash, which may hold
  records or not. */
  function OwnerNode(origin: Name, encode: nat -> Label, m: map<nat, seq<Nsec3>>, h: nat): Node
    requires h in m
  {
    Node(origin + [encode(h)], if m[h] != [] then {NSEC3} else {}, None, {})
  }

  ghost predicate IsTreeOf(extra: seq<Node>, owners: seq<nat>, origin: Name, encode: nat -> Label, m: map<nat, seq<Nsec3>>) {
    && |extra| == |owners| + 1 && extra[0] == Node(origin, {}, None, {})
    && (forall h :: h in owners <==> h in m)
    && (forall j :: 0 <= j < |owners| ==> owners[j] in m && extra[j + 1] == OwnerNode(origin, encode, m, owners[j]))
  }

  method Nsec3Tree(origin: Name, encode: nat -> Label, m: map<nat, seq<Nsec3>>) returns (extra: seq<Node>, owners: seq<nat>)
    ensures IsTreeOf(extra, owners, origin, encode, m) && IsNsec3Tree(extra)
  {
    extra, owners := [Node(origin, {}, None, {})], [];
    var left := m.Keys;
    while left != {}
      invariant left <= m.Keys && |extra| == |owners| + 1 && extra[0] == Node(origin, {}, None, {})
      invariant forall h :: h in owners <==> h in m && h !in left
      invariant forall j :: 0 <= j < |owners| ==> owners[j] in m && extra[j + 1] == OwnerNode(origin, encode, m, owners[j])
      invariant IsNsec3Tree(extra)
      decreases |left|
    {
      var h :| h in left;
      extra, owners, left := extra + [OwnerNode(origin, encode, m, h)], owners + [h], left - {h};
    }
  }

  /** A node of the main tree that is signed: the zone's own, with data or without. */
  ghost predicate Nsec3Node(orig: seq<Node>, origin: Name, apex: nat, optout: bool, k: nat) {
    && k < |orig| && k != apex && Subdomain(orig[k].name, origin) && !BelowCut(orig, origin, orig[k].name)
    && !(optout && InsecureDelegation(origin, orig[k]))
  }

  /** A node of the NSEC3 tree that is signed: one of the ring, or one without records whose name is not
  that of the last delegation. */
  ghost predicate OwnerSigned(orig: seq<Node>, origin: Name, encode: nat -> Label, ring: set<nat>, h: nat) {
    h in ring || CutAfter(orig, origin, |orig|) != Some(origin + [encode(h)])
  }

  lemma {:induction false} Nsec3NodeToSign(s: Signer, orig: seq<Node>, k: nat)
    requires s.Trees() && s.withNsec3 && SameData(orig, s.nodes) && IsZone(orig, s.origin, s.apex) && k < |orig|
    ensures k in s.ToSignBelow(s.Total()) <==> Nsec3Node(orig, s.origin, s.apex, s.optout, k)
  {
    s.ToSignBelowAre(s.Total(), k);
    SignedIgnoresSignatures(orig, s.nodes, s.origin, s.optout, k);
    if s.nodes[k].name == s.origin {
      OnlyApexIsOrigin(s.nodes, s.origin, s.apex, k);
    }
  }

  lemma {:induction false} OwnerToSign(s: Signer, orig: seq<Node>, params: Params, m: map<nat, seq<Nsec3>>, ring: set<nat>,
                                       encode: nat -> Label, owners: seq<nat>, j: nat)
    requires s.Trees() && s.withNsec3 && SameData(orig, s.nodes) && j < |owners|
    requires IsTreeOf(s.extra, owners, s.origin, encode, m) && SignNsec3.HoldsRing(m, ring, params, s.optout)
    ensures |orig| + 1 + j in s.ToSignBelow(s.Total()) <==> OwnerSigned(orig, s.origin, encode, ring, owners[j])
  {
    var k, h := |orig| + 1 + j, owners[j];
    s.ToSignBelowAre(s.Total(), k);
    CutIgnoresSignatures(orig, s.nodes, s.origin, |orig|);
    assert s.Item(k) == OwnerNode(s.origin, encode, m, h);
    assert s.Item(k).name != s.origin && |s.Item(k).name| == |s.origin| + 1;
    if h in ring {
      assert SignNsec3.Linked(m, ring, params, s.optout, h);
    } else {
      assert m[h] == [];
      s.EmptiedNodeIsHandedOut(k);
    }
  }

  /** What has been signed: of the main tree exactly the zone's own nodes, among those with data exactly
  the owners of the chain that have data; of the NSEC3 tree every owner of the ring; each once. */
  ghost predicate SignedRight(orig: seq<Node>, origin: Name, apex: nat, optout: bool, encode: nat -> Label, ring: set<nat>,
                              signed: seq<nat>, owners: seq<nat>)
  {
    && (forall k :: 0 <= k < |orig| ==>
                      multiset(signed)[k] == if Nsec3Node(orig, origin, apex, optout, k) then 1 else 0)
    && (forall k :: 0 <= k < |orig| && k != apex && Active(orig[k]) ==>
                      (multiset(signed)[k] == 1 <==> Signed(orig, origin, optout, orig[k])))
    && (forall h :: h in ring ==> h in owners)
    && (forall j :: 0 <= j < |owners| ==>
                      multiset(signed)[|orig| + 1 + j] == if OwnerSigned(orig, origin, encode, ring, owners[j]) then 1 else 0)
  }

  lemma {:induction false} RunIsRight(s: Signer, orig: seq<Node>, params: Params, m: map<nat, seq<Nsec3>>, ring: set<nat>,
                                      encode: nat -> Label, owners: seq<nat>)
    requires s.Trees() && s.withNsec3 && SameData(orig, s.nodes) && IsZone(orig, s.origin, s.apex)
    requires IsTreeOf(s.extra, owners, s.origin, encode, m) && SignNsec3.HoldsRing(m, ring, params, s.optout)
    requires multiset(s.signed) == multiset(s.ToSignBelow(s.Total()))
    ensures SignedRight(orig, s.origin, s.apex, s.optout, encode, ring, s.signed, owners)
  {
    forall k | 0 <= k < |orig|
      ensures multiset(s.signed)[k] == if Nsec3Node(orig, s.origin, s.apex, s.optout, k) then 1 else 0
    {
      Nsec3NodeToSign(s, orig, k);
    }
    forall j | 0 <= j < |owners|
      ensures multiset(s.signed)[|orig| + 1 + j] == if OwnerSigned(orig, s.origin, encode, ring, owners[j]) then 1 else 0
    {
      OwnerToSign(s, orig, params, m, ring, encode, owners, j);
    }
    forall h | h in ring
      ensures h in owners
    {
      assert SignNsec3.Linked(m, ring, params, s.optout, h);
    }
  }

  /** Signing with NSEC3, from the zone as it was. */
  method SignWithNsec3(db: Database, params: Params, optout: bool, hash: Name -> nat, updateChain: bool,
                       encode: nat -> Label, ntasks: nat, ghost apex: nat)
    returns (outcome: SignNsec3.Outcome, signed: seq<nat>, owners: seq<nat>)
    requires IsZone(db.nodes, db.origin, apex) && NoNsec3(db.nodes) && ntasks > 0
    modifies db
    ensures outcome == SignNsec3.Signed3 ==>
              var ring := SignNsec3.HashSet(SignNsec3.ChainNames(old(db.nodes), db.origin, optout), hash);
              SignedRight(old(db.nodes), db.origin, apex, optout, encode, ring, signed, owners)
  {
    ghost var orig := db.nodes;
    outcome := SignNsec3.Nsec3ify(db, params, optout, hash, updateChain, apex);
    if outcome != SignNsec3.Signed3 {
      return outcome, [], [];
    }
    SignNsec3.ZoneKeepsShape(orig, db.nodes, db.origin, apex);
    var extra;
    extra, owners := Nsec3Tree(db.origin, encode, db.nsec3);
    var signer := new Signer(db.origin, true, optout, db.nodes, extra, ntasks, apex);
    signer.Run();
    ghost var ring := SignNsec3.HashSet(SignNsec3.ChainNames(orig, db.origin, optout), hash);
    RunIsRight(signer, orig, params, db.nsec3, ring, encode, owners);
    return outcome, signer.signed, owners;
  }
}
