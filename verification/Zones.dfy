/** The zone database as the signer and the verifier walk it, and the zone-cut filter. */
module Zones {
  import opened Options
  import opened Names

  /** Resource record type codes that the walks test for. */
  const NS: nat := 2
  const DS: nat := 43
  const NSEC: nat := 47
  const NSEC3: nat := 50

  /** A node of the main tree.  `rrs` holds the types present at the node other than NSEC and
  RRSIG (NSEC3 records live in a tree of their own), `nsec` the next name of its NSEC RRset, and
  `sigs` the types covered by its RRSIG RRsets. */
  datatype Node = Node(name: Name, rrs: set<nat>, nsec: Option<Name>, sigs: set<nat>)

  /** The verdict of `active_node`: the node holds something other than NSEC, NSEC3 and RRSIG. */
  predicate Active(n: Node) {
    n.rrs != {}
  }

  /** `is_empty`: the node holds nothing at all. */
  predicate Empty(n: Node) {
    n.rrs == {} && n.nsec == None && n.sigs == {}
  }

  /** `is_delegation`: an NS RRset anywhere but at the origin. */
  predicate Delegation(origin: Name, n: Node) {
    n.name != origin && NS in n.rrs
  }

  /** `secure`: a DS RRset anywhere but at the origin. */
  predicate Secure(origin: Name, n: Node) {
    n.name != origin && DS in n.rrs
  }

  /** The nodes a database iterator yields: strictly increasing names. */
  predicate InOrder(nodes: seq<Node>) {
    forall i, j {:trigger Less(nodes[i].name, nodes[j].name)} ::
      0 <= i < j < |nodes| ==> Less(nodes[i].name, nodes[j].name)
  }

  /** A loaded zone: nodes in order, with an origin node that holds data (at least the SOA). */
  predicate IsZone(nodes: seq<Node>, origin: Name, apex: nat) {
    && InOrder(nodes)
    && apex < |nodes|
    && nodes[apex].name == origin
    && Active(nodes[apex])
  }

  /** What the walks may not change: the names and the data other than NSEC and RRSIG. */
  predicate SameData(a: seq<Node>, b: seq<Node>) {
    |a| == |b| && forall i :: 0 <= i < |a| ==> a[i].name == b[i].name && a[i].rrs == b[i].rrs
  }

  /** Nodes that have not changed at all. */
  ghost predicate SameIn(orig: seq<Node>, nodes: seq<Node>, from: nat, to: nat)
    requires to <= |orig| && |orig| == |nodes|
  {
    forall k :: from <= k < to ==> nodes[k] == orig[k]
  }

  /** The declarative meaning of "below a zone cut": some delegation point of the zone is a proper
  ancestor of the name. */
  ghost predicate BelowCut(nodes: seq<Node>, origin: Name, name: Name) {
    exists d :: 0 <= d < |nodes| && CutsOff(nodes[d], origin, name)
  }

  predicate CutsOff(d: Node, origin: Name, name: Name) {
    Subdomain(d.name, origin) && Delegation(origin, d) && d.name < name
  }

  /** The single variable `zonecut`, after the walk has passed the first `i` nodes: a node that is
  not below the remembered cut and is itself a delegation replaces it. */
  function CutAfter(nodes: seq<Node>, origin: Name, i: nat): (cut: Option<Name>)
    requires i <= |nodes|
  {
    if i == 0 then None
    else
      var cut, n := CutAfter(nodes, origin, i - 1), nodes[i - 1];
      if Subdomain(n.name, origin) && !UnderCut(cut, n.name) && Delegation(origin, n) then Some(n.name)
      else cut
  }

  predicate UnderCut(cut: Option<Name>, name: Name) {
    cut.Some? && Subdomain(name, cut.value)
  }

  /** The remembered cut is a delegation point already passed, and no delegation point passed so
  far lies outside it unless everything below that one has been passed too. */
  lemma {:induction false} CutInvariant(nodes: seq<Node>, origin: Name, i: nat, name: Name)
    requires InOrder(nodes) && i <= |nodes|
    requires forall k :: 0 <= k < i ==> Less(nodes[k].name, name)
    ensures UnderCut(CutAfter(nodes, origin, i), name) <==>
            exists d :: 0 <= d < i && CutsOff(nodes[d], origin, name)
    ensures CutAfter(nodes, origin, i).Some? ==>
              exists d :: 0 <= d < i && nodes[d].name == CutAfter(nodes, origin, i).value
                          && Subdomain(nodes[d].name, origin) && Delegation(origin, nodes[d])
    decreases i
  {
    if i > 0 {
      var n := nodes[i - 1];
      var before, after := CutAfter(nodes, origin, i - 1), CutAfter(nodes, origin, i);
      CutInvariant(nodes, origin, i - 1, name);
      CutInvariant(nodes, origin, i - 1, n.name);
      OrderTotal(n.name, name);
      if after != before {
        // An earlier cut over `name` would lie over the node that replaced it.
        forall d | 0 <= d < i - 1 && CutsOff(nodes[d], origin, name)
          ensures false
        {
          AncestorFirst(nodes[d].name, nodes[d].name);
          SubtreeContiguous(nodes[d].name, nodes[d].name, n.name, name);
          OrderTotal(nodes[d].name, n.name);
        }
        assert after == Some(n.name);
        if Subdomain(name, n.name) {
          assert CutsOff(nodes[i - 1], origin, name);
        }
      } else if CutsOff(n, origin, name) {
        // The node was itself below the remembered cut, and so is everything below it.
        assert UnderCut(before, n.name);
      }
    }
  }

  /** The one-variable filter is exact: a node is skipped as glue just when some delegation point
  of the zone, anywhere in it, is a proper ancestor of the node. */
  lemma {:induction false} ZoneCutFilterExact(nodes: seq<Node>, origin: Name, i: nat)
    requires InOrder(nodes) && i < |nodes|
    ensures UnderCut(CutAfter(nodes, origin, i), nodes[i].name) <==> BelowCut(nodes, origin, nodes[i].name)
  {
    CutInvariant(nodes, origin, i, nodes[i].name);
    forall d | 0 <= d < |nodes| && CutsOff(nodes[d], origin, nodes[i].name)
      ensures d < i
    {
      AncestorFirst(nodes[d].name, nodes[i].name);
      OrderTotal(nodes[i].name, nodes[d].name);
    }
  }

  /** The topmost delegation points alone decide the filter: a delegation point below another one
  hides nothing that is not hidden already. */
  lemma {:induction false} TopmostCutDecides(nodes: seq<Node>, origin: Name, d: nat, name: Name)
    requires d < |nodes| && CutsOff(nodes[d], origin, name)
    ensures exists t :: 0 <= t < |nodes| && CutsOff(nodes[t], origin, name)
                        && !BelowCut(nodes, origin, nodes[t].name)
    decreases |nodes[d].name|
  {
    if BelowCut(nodes, origin, nodes[d].name) {
      var e :| 0 <= e < |nodes| && CutsOff(nodes[e], origin, nodes[d].name);
      TopmostCutDecides(nodes, origin, e, name);
    }
  }

  lemma {:induction false} CutIgnoresSignatures(a: seq<Node>, b: seq<Node>, origin: Name, i: nat)
    requires SameData(a, b) && i <= |a|
    ensures CutAfter(a, origin, i) == CutAfter(b, origin, i)
    decreases i
  {
    if i > 0 {
      CutIgnoresSignatures(a, b, origin, i - 1);
    }
  }

  /** Membership in the zone is contiguous too: nodes before the apex are out of the zone. */
  lemma {:induction false} BeforeApexIsOutside(nodes: seq<Node>, origin: Name, apex: nat, i: nat)
    requires IsZone(nodes, origin, apex) && i < |nodes|
    ensures i < apex ==> !Subdomain(nodes[i].name, origin)
  {
    if i < apex && Subdomain(nodes[i].name, origin) {
      AncestorFirst(origin, nodes[i].name);
      OrderTotal(origin, nodes[i].name);
    }
  }

  lemma {:induction false} OnlyApexIsOrigin(nodes: seq<Node>, origin: Name, apex: nat, i: nat)
    requires IsZone(nodes, origin, apex) && i < |nodes| && nodes[i].name == origin
    ensures i == apex
  {
    OrderTotal(origin, origin);
  }
}
