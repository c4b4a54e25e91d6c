/** The database that the signer edits in place and the verifier reads. */
module Databases {
  import opened Options
  import opened Names
  import opened Zones
  import opened SignedNames

  /** An NSEC3PARAM record with zero flags; salts are represented as in the chain records. */
  datatype Params = Params(hash: nat, iterations: nat, saltLength: nat, salt: nat)

  /** An NSEC3 record without its type bit map. */
  datatype Nsec3 = Nsec3(params: Params, optOut: bool, nextLength: nat, next: nat)

  /** The length of a SHA-1 hash, the only hash the signer uses. */
  const HASH_LENGTH: nat := 20

  /** `nodes` is the main tree in canonical order, `nsec3` the NSEC3 tree keyed by the hash that its
  owner names encode, and `nsec3param` the NSEC3PARAM RRset of the apex. */
  class Database {
    const origin: Name
    var nodes: seq<Node>
    var nsec3: map<nat, seq<Nsec3>>
    var nsec3param: Option<Params>

    constructor (origin: Name, nodes: seq<Node>)
      ensures this.origin == origin && this.nodes == nodes && nsec3 == map[] && nsec3param == None
    {
      this.origin, this.nodes, nsec3, nsec3param := origin, nodes, map[], None;
    }
  }

  /** What `active_node` leaves of a node when it signs with NSEC, or with NSEC3. */
  function Tidied(n: Node, withNsec3: bool): (m: Node)
    ensures m.name == n.name && m.rrs == n.rrs
    ensures !Active(n) ==> Empty(m)
    ensures withNsec3 ==> m.nsec == None
    ensures Active(n) && !withNsec3 ==> m.nsec == n.nsec
    ensures Active(n) ==> forall t :: t != NSEC ==> (t in m.sigs <==> t in n.sigs && t in n.rrs)
    ensures withNsec3 ==> NSEC !in m.sigs
    ensures Active(n) && !withNsec3 && NSEC !in n.rrs ==> (NSEC in m.sigs <==> NSEC in n.sigs && n.nsec.Some?)
  {
    if !Active(n) && !withNsec3 then n.(nsec := None, sigs := {})
    else
      var m := if withNsec3 then RemoveNsec(n) else n;
      m.(sigs := set t | t in m.sigs && (t in m.rrs || (t == NSEC && m.nsec.Some?)))
  }

  function RemoveSigs(n: Node): Node {
    n.(sigs := {})
  }

  function RemoveNsec(n: Node): Node {
    n.(nsec := None, sigs := n.sigs - {NSEC})
  }

  /** The walk's own test for a kept node, and how it moves the cut, agree with the zone. */
  lemma {:induction false} KeptByCut(nodes: seq<Node>, origin: Name, i: nat)
    requires InOrder(nodes) && i < |nodes|
    ensures var cut, n := CutAfter(nodes, origin, i), nodes[i];
            && (Kept(nodes, origin, n) <==> Subdomain(n.name, origin) && Active(n) && !UnderCut(cut, n.name))
            && CutAfter(nodes, origin, i + 1) ==
               (if Kept(nodes, origin, n) && Delegation(origin, n) then Some(n.name) else cut)
  {
    ZoneCutFilterExact(nodes, origin, i);
  }
}
