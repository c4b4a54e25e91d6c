/** Building the NSEC chain (`nsecify`). */
module SignNsec {
  import opened Options
  import opened Names
  import opened Zones
  import opened SignedNames
  import opened Databases

  /** What signing with NSEC leaves at node `k`: kept names point at the next kept name, nothing else
  at or after the apex has an NSEC, nodes without data have been emptied, and only nodes with authoritative
  data have signatures. */
  ghost predicate NsecDone(orig: seq<Node>, origin: Name, k: nat, n: Node)
    requires k < |orig|
  {
    && n.name == orig[k].name && n.rrs == orig[k].rrs
    && n.nsec == (if Signed(orig, origin, false, orig[k]) then Some(NextSigned(orig, origin, false, k)) else None)
    && (!Active(n) ==> Empty(n))
    && (!Signed(orig, origin, false, orig[k]) || Delegation(origin, orig[k]) ==> n.sigs == {})
  }

  ghost predicate NsecDoneIn(orig: seq<Node>, nodes: seq<Node>, origin: Name, from: nat, to: nat)
    requires to <= |orig| && |orig| == |nodes|
  {
    forall k :: from <= k < to ==> NsecDone(orig, origin, k, nodes[k])
  }

  /** The state of the outer loop: the nodes from the apex to before `i` are done. */
  ghost predicate Built(orig: seq<Node>, nodes: seq<Node>, origin: Name, apex: nat, i: nat) {
    && apex < |orig| && i <= |orig| && SameData(orig, nodes)
    && (i <= apex ==> nodes == orig)
    && (i > apex ==> NsecDoneIn(orig, nodes, origin, apex, i))
    && SameIn(orig, nodes, 0, apex)
    && (i < apex || i == |orig| || Signed(orig, origin, false, orig[i]))
  }

  lemma {:induction false} LinkNode(orig: seq<Node>, was: seq<Node>, nodes: seq<Node>, origin: Name, apex: nat, i: nat, j: nat)
    requires Built(orig, was, origin, apex, i) && apex <= i < j <= |orig| && SameData(orig, nodes)
    requires SameIn(was, nodes, 0, i) && NsecDoneIn(orig, nodes, origin, i + 1, j)
    requires nodes[i].nsec == Some(if j == |orig| then origin else orig[j].name)
    requires Delegation(origin, orig[i]) ==> nodes[i].sigs == {}
    requires j < |orig| ==> Signed(orig, origin, false, orig[j])
    requires SignedFrom(orig, origin, false, i + 1) == SignedFrom(orig, origin, false, j)
    ensures Built(orig, nodes, origin, apex, j)
  {
    assert NextSigned(orig, origin, false, i) == nodes[i].nsec.value;
    assert NsecDone(orig, origin, i, nodes[i]);
  }

  /** `nsecify`.  The only fatal exit is an NSEC3PARAM RRset without permission to replace it. */
  method Nsecify(db: Database, updateChain: bool, ghost apex: nat) returns (fatal: bool)
    requires IsZone(db.nodes, db.origin, apex)
    modifies db
    ensures fatal <==> old(db.nsec3param).Some? && !updateChain
    ensures !fatal ==>
              && db.nsec3 == map[] && db.nsec3param == None
              && SameData(old(db.nodes), db.nodes)
              && SameIn(old(db.nodes), db.nodes, 0, apex)
              && NsecDoneIn(old(db.nodes), db.nodes, db.origin, apex, |db.nodes|)
  {
    ghost var orig := db.nodes;
    var origin := db.origin;
    db.nsec3 := map[];
    var i, done := 0, false;
    var zonecut: Option<Name> := None;
    ApexIsSigned(orig, origin, apex, false, apex);
    while !done
      invariant 0 <= i <= |orig| && (done <==> i == |orig|)
      invariant zonecut == CutAfter(orig, origin, i)
      invariant Built(orig, db.nodes, origin, apex, i)
      invariant db.nsec3param == if i <= apex then old(db.nsec3param) else None
      invariant i > apex ==> old(db.nsec3param) == None || updateChain
      invariant db.nsec3 == map[]
      decreases |orig| - i
    {
      BeforeApexIsOutside(orig, origin, apex, i);
      KeptByCut(orig, origin, i);
      var name := db.nodes[i].name;
      if !Subdomain(name, origin) {
        i := i + 1;
        done := i == |db.nodes|;
        continue;
      }
      if name == origin {
        OnlyApexIsOrigin(orig, origin, apex, i);
        if db.nsec3param.Some? && !updateChain {
          return true;
        }
        db.nsec3param := None;
      }
      db.nodes, zonecut, i := Link(db.nodes, origin, i, zonecut, orig, apex);
      done := i == |db.nodes|;
    }
    return false;
  }

  /** The rest of the outer loop's body: give the node its NSEC record and move to the next one. */
  method Link(was: seq<Node>, origin: Name, i: nat, cut: Option<Name>, ghost orig: seq<Node>, ghost apex: nat)
    returns (nodes: seq<Node>, zonecut: Option<Name>, j: nat)
    requires InOrder(orig) && Built(orig, was, origin, apex, i) && apex <= i < |orig|
    requires cut == CutAfter(orig, origin, i)
    ensures i < j <= |orig| && Built(orig, nodes, origin, apex, j)
    ensures zonecut == CutAfter(orig, origin, j)
  {
    KeptByCut(orig, origin, i);
    nodes, zonecut := was, cut;
    if Delegation(origin, nodes[i]) {
      zonecut := Some(nodes[i].name);
      nodes := nodes[i := RemoveSigs(nodes[i])];
    }
    nodes, j := NextNode(nodes, origin, i, zonecut, orig);
    var nextname := if j == |nodes| then origin else nodes[j].name;
    nodes := nodes[i := nodes[i].(nsec := Some(nextname))];
    LinkNode(orig, was, nodes, origin, apex, i, j);
  }

  /** The state of the inner loop: nodes strictly between `i` and `j` have been passed over. */
  ghost predicate Passed(orig: seq<Node>, was: seq<Node>, nodes: seq<Node>, origin: Name, i: nat, j: nat) {
    && i < j <= |orig| == |was| == |nodes|
    && SameIn(was, nodes, 0, i + 1)
    && NsecDoneIn(orig, nodes, origin, i + 1, j)
    && SameIn(was, nodes, j, |orig|)
    && CutAfter(orig, origin, j) == CutAfter(orig, origin, i + 1)
    && SignedFrom(orig, origin, false, i + 1) == SignedFrom(orig, origin, false, j)
  }

  lemma {:induction false} PassOver(orig: seq<Node>, was: seq<Node>, nodes: seq<Node>, origin: Name, i: nat, j: nat, n: Node)
    requires InOrder(orig) && Passed(orig, was, nodes, origin, i, j) && j < |orig|
    requires !Signed(orig, origin, false, orig[j]) && n.name == orig[j].name && n.rrs == orig[j].rrs
    requires n.nsec == None && n.sigs == {}
    ensures Passed(orig, was, nodes[j := n], origin, i, j + 1)
  {
    KeptByCut(orig, origin, j);
  }

  /** The inner loop of `nsecify`: move to the next node that gets an NSEC record, tidying the nodes
  it passes and taking the NSEC records and signatures off those outside the zone or below a cut. */
  method NextNode(was: seq<Node>, origin: Name, i: nat, zonecut: Option<Name>, ghost orig: seq<Node>)
    returns (nodes: seq<Node>, j: nat)
    requires InOrder(orig) && SameData(orig, was)
    requires i < |orig| && zonecut == CutAfter(orig, origin, i + 1)
    ensures SameData(orig, nodes) && i < j <= |orig|
    ensures SameIn(was, nodes, 0, i + 1) && NsecDoneIn(orig, nodes, origin, i + 1, j)
    ensures CutAfter(orig, origin, j) == zonecut
    ensures j < |orig| ==> Signed(orig, origin, false, orig[j])
    ensures SignedFrom(orig, origin, false, i + 1) == SignedFrom(orig, origin, false, j)
  {
    nodes, j := was, i + 1;
    while j < |nodes|
      invariant Passed(orig, was, nodes, origin, i, j)
    {
      var n := nodes[j];
      KeptByCut(orig, origin, j);
      if !Active(n) {
        PassOver(orig, was, nodes, origin, i, j, Tidied(n, false));
        nodes := nodes[j := Tidied(n, false)];
        j := j + 1;
        continue;
      }
      if !Subdomain(n.name, origin) || UnderCut(zonecut, n.name) {
        PassOver(orig, was, nodes, origin, i, j, RemoveNsec(RemoveSigs(Tidied(n, false))));
        nodes := nodes[j := RemoveNsec(RemoveSigs(Tidied(n, false)))];
        j := j + 1;
        continue;
      }
      nodes := nodes[j := Tidied(n, false)];
      break;
    }
  }
}
