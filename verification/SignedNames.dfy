/** Which names of a zone get a chain record, as a property of the whole zone, and the empty
non-terminals between them. */
module SignedNames {
  import opened Names
  import opened Zones

  /** The node holds authoritative data or a delegation: in the zone, with data, not below a cut. */
  ghost predicate Kept(nodes: seq<Node>, origin: Name, n: Node) {
    Subdomain(n.name, origin) && Active(n) && !BelowCut(nodes, origin, n.name)
  }

  /** With opt-out, delegations without a DS RRset get no record of their own. */
  ghost predicate Signed(nodes: seq<Node>, origin: Name, optout: bool, n: Node) {
    Kept(nodes, origin, n) && !(optout && InsecureDelegation(origin, n))
  }

  predicate InsecureDelegation(origin: Name, n: Node) {
    Delegation(origin, n) && !Secure(origin, n)
  }

  /** In terms of the names and the types present: a name of the zone that holds data, no proper ancestor
  of which below the origin holds an NS RRset (type 2), and which, under opt-out, does not itself hold
  one without a DS RRset (type 43). */
  lemma {:induction false} SignedExactly(nodes: seq<Node>, origin: Name, optout: bool, n: Node)
    ensures Signed(nodes, origin, optout, n) <==>
            && origin <= n.name && n.rrs != {}
            && (forall d :: 0 <= d < |nodes| && 2 in nodes[d].rrs && origin < nodes[d].name ==> !(nodes[d].name < n.name))
            && !(optout && n.name != origin && 2 in n.rrs && 43 !in n.rrs)
  {
    if forall d :: 0 <= d < |nodes| && 2 in nodes[d].rrs && origin < nodes[d].name ==> !(nodes[d].name < n.name) {
      assert !BelowCut(nodes, origin, n.name);
    } else {
      var d :| 0 <= d < |nodes| && 2 in nodes[d].rrs && origin < nodes[d].name && nodes[d].name < n.name;
      assert CutsOff(nodes[d], origin, n.name);
    }
  }

  /** The names, from position `i` on, that get a chain record. */
  ghost function SignedFrom(nodes: seq<Node>, origin: Name, optout: bool, i: nat): (names: seq<Name>)
    requires i <= |nodes|
    decreases |nodes| - i
  {
    if i == |nodes| then []
    else if Signed(nodes, origin, optout, nodes[i]) then [nodes[i].name] + SignedFrom(nodes, origin, optout, i + 1)
    else SignedFrom(nodes, origin, optout, i + 1)
  }

  lemma {:induction false} SignedFromMembers(nodes: seq<Node>, origin: Name, optout: bool, i: nat, name: Name)
    requires i <= |nodes|
    ensures name in SignedFrom(nodes, origin, optout, i) <==>
            exists k :: i <= k < |nodes| && nodes[k].name == name && Signed(nodes, origin, optout, nodes[k])
    decreases |nodes| - i
  {
    if i < |nodes| {
      SignedFromMembers(nodes, origin, optout, i + 1, name);
    }
  }

  lemma {:induction false} SignedFromSorted(nodes: seq<Node>, origin: Name, optout: bool, i: nat)
    requires InOrder(nodes) && i <= |nodes|
    ensures Sorted(SignedFrom(nodes, origin, optout, i))
    ensures forall name :: name in SignedFrom(nodes, origin, optout, i) ==> Subdomain(name, origin)
    decreases |nodes| - i
  {
    if i < |nodes| {
      SignedFromSorted(nodes, origin, optout, i + 1);
      var rest := SignedFrom(nodes, origin, optout, i + 1);
      forall name | name in rest
        ensures Less(nodes[i].name, name)
      {
        SignedFromMembers(nodes, origin, optout, i + 1, name);
      }
    }
  }

  /** Nothing above the apex cuts it off, so the apex is the first name of the chain. */
  lemma {:induction false} ApexIsSigned(nodes: seq<Node>, origin: Name, apex: nat, optout: bool, i: nat)
    requires IsZone(nodes, origin, apex) && i <= apex
    ensures Signed(nodes, origin, optout, nodes[apex])
    ensures SignedFrom(nodes, origin, optout, i) == SignedFrom(nodes, origin, optout, apex)
    ensures SignedFrom(nodes, origin, optout, i) == [origin] + SignedFrom(nodes, origin, optout, apex + 1)
    decreases apex - i
  {
    assert !BelowCut(nodes, origin, origin);
    if i < apex {
      BeforeApexIsOutside(nodes, origin, apex, i);
      ApexIsSigned(nodes, origin, apex, optout, i + 1);
    }
  }

  /** The next name of the chain after node `i`; the last name leads back to the origin. */
  ghost function NextSigned(nodes: seq<Node>, origin: Name, optout: bool, i: nat): (next: Name)
    requires i < |nodes|
  {
    var rest := SignedFrom(nodes, origin, optout, i + 1);
    if rest == [] then origin else rest[0]
  }

  lemma {:induction false} SignedIgnoresSignatures(a: seq<Node>, b: seq<Node>, origin: Name, optout: bool, i: nat)
    requires SameData(a, b) && i < |a|
    ensures Signed(a, origin, optout, a[i]) <==> Signed(b, origin, optout, b[i])
    ensures BelowCut(a, origin, a[i].name) <==> BelowCut(b, origin, b[i].name)
  {
    if BelowCut(a, origin, a[i].name) {
      var d :| 0 <= d < |a| && CutsOff(a[d], origin, a[i].name);
      assert CutsOff(b[d], origin, b[i].name);
    }
    if BelowCut(b, origin, b[i].name) {
      var d :| 0 <= d < |b| && CutsOff(b[d], origin, b[i].name);
      assert CutsOff(a[d], origin, a[i].name);
    }
  }

  lemma {:induction false} SignedFromIgnoresSignatures(a: seq<Node>, b: seq<Node>, origin: Name, optout: bool, i: nat)
    requires SameData(a, b) && i <= |a|
    ensures SignedFrom(a, origin, optout, i) == SignedFrom(b, origin, optout, i)
    decreases |a| - i
  {
    if i < |a| {
      SignedIgnoresSignatures(a, b, origin, optout, i);
      SignedFromIgnoresSignatures(a, b, origin, optout, i + 1);
    }
  }

  // ----- empty non-terminals

  /** The proper ancestors of a name that have at least `least` labels. */
  ghost function Ancestors(name: Name, least: nat): (ps: set<Name>)
    ensures least >= |name| ==> ps == {}
  {
    set len | least <= len < |name| :: name[..len]
  }

  lemma {:induction false} AncestorsStep(name: Name, least: nat)
    requires least < |name|
    ensures Ancestors(name, least) == Ancestors(name, least + 1) + {name[..least]}
    ensures name[..least] !in Ancestors(name, least + 1)
  {
    forall p | p in Ancestors(name, least)
      ensures p in Ancestors(name, least + 1) + {name[..least]}
    {
      var len :| least <= len < |name| && p == name[..len];
    }
    forall p | p in Ancestors(name, least + 1)
      ensures p in Ancestors(name, least) && |p| > least
    {
      var len :| least + 1 <= len < |name| && p == name[..len];
    }
  }

  /** The empty non-terminals added between two consecutive names: the ancestors of `next` strictly
  deeper than what it has in common with `name`. */
  ghost function Between(name: Name, next: Name): (ents: set<Name>) {
    Ancestors(next, Common(name, next) + 1)
  }

  /** The owners the walk over `names` enters, with multiplicity. */
  ghost function Entered(names: seq<Name>): (owners: multiset<Name>) {
    if |names| == 0 then multiset{}
    else
      var last := |names| - 1;
      Entered(names[..last]) + multiset{names[last]}
      + (if last == 0 then multiset{} else multiset(Between(names[last - 1], names[last])))
  }

  /** The names and all their ancestors down from the origin. */
  ghost function Closure(names: seq<Name>, origin: Name): (c: set<Name>) {
    set k, len | 0 <= k < |names| && |origin| <= len <= |names[k]| :: names[k][..len]
  }

  lemma {:induction false} ClosureOfLast(names: seq<Name>, origin: Name)
    requires names != [] && forall k :: 0 <= k < |names| ==> Subdomain(names[k], origin)
    ensures var last := names[|names| - 1];
            Closure(names, origin) ==
            Closure(names[..|names| - 1], origin) + (set len | |origin| <= len <= |last| :: last[..len])
  {
    var shorter, last := names[..|names| - 1], names[|names| - 1];
    forall p | p in Closure(names, origin)
      ensures p in Closure(shorter, origin) || p in (set len | |origin| <= len <= |last| :: last[..len])
    {
      var k, len :| 0 <= k < |names| && |origin| <= len <= |names[k]| && p == names[k][..len];
      if k < |shorter| {
        assert shorter[k] == names[k];
      }
    }
    forall p | p in Closure(shorter, origin)
      ensures p in Closure(names, origin)
    {
      var k, len :| 0 <= k < |shorter| && |origin| <= len <= |shorter[k]| && p == shorter[k][..len];
      assert names[k] == shorter[k];
    }
    forall p | p in (set len | |origin| <= len <= |last| :: last[..len])
      ensures p in Closure(names, origin)
    {
      var len :| |origin| <= len <= |last| && p == last[..len];
      assert names[|names| - 1] == last;
    }
  }

  /** An ancestor of the newest name is new exactly when it is deeper than what that name has in
  common with the one before. */
  lemma {:induction false} NewAncestors(names: seq<Name>, origin: Name, len: nat)
    requires |names| >= 2 && Sorted(names)
    requires forall k :: 0 <= k < |names| ==> Subdomain(names[k], origin)
    requires |origin| <= len <= |names[|names| - 1]|
    ensures var last := |names| - 1;
            names[last][..len] in Closure(names[..last], origin) <==> len <= Common(names[last - 1], names[last])
  {
    var last := |names| - 1;
    var prev, name := names[last - 1], names[last];
    var p := name[..len];
    var shorter := names[..last];
    if len <= Common(prev, name) {
      assert p == prev[..Common(prev, name)][..len] == prev[..len];
      assert shorter[last - 1] == prev;
    }
    if p in Closure(shorter, origin) {
      var k, l :| 0 <= k < |shorter| && |origin| <= l <= |shorter[k]| && p == shorter[k][..l];
      assert p <= shorter[k] && p <= name;
      SubtreeContiguous(p, names[k], prev, name);
      CommonIsDeepest(p, prev, name);
    }
  }

  /** The walk enters each name and each of its in-zone ancestors exactly once, and nothing else. */
  lemma {:induction false} EmptyNonTerminalsExact(names: seq<Name>, origin: Name)
    requires Sorted(names) && names != [] && names[0] == origin
    requires forall k :: 0 <= k < |names| ==> Subdomain(names[k], origin)
    ensures Entered(names) == multiset(Closure(names, origin))
    decreases |names|
  {
    var last := |names| - 1;
    if last == 0 {
      OriginAlone(names, origin);
    } else {
      EmptyNonTerminalsExact(names[..last], origin);
      ClosureOfLast(names, origin);
      FreshPart(names, origin);
      var ents := Between(names[last - 1], names[last]);
      DisjointBag(Closure(names[..last], origin), ents + {names[last]});
      assert names[last] !in ents;
      DisjointBag(ents, {names[last]});
    }
  }

  lemma {:induction false} DisjointBag(a: set<Name>, b: set<Name>)
    requires a !! b
    ensures multiset(a + b) == multiset(a) + multiset(b)
  {
  }

  lemma {:induction false} OriginAlone(names: seq<Name>, origin: Name)
    requires names == [origin]
    ensures Entered(names) == multiset(Closure(names, origin))
  {
    assert names[..0] == [];
    assert Entered(names) == multiset{origin};
    assert Closure(names, origin) == {origin} by {
      assert names[0][..|origin|] == origin;
    }
  }

  lemma {:induction false} FreshPart(names: seq<Name>, origin: Name)
    requires |names| >= 2 && Sorted(names)
    requires forall k :: 0 <= k < |names| ==> Subdomain(names[k], origin)
    ensures var last := |names| - 1;
            var c := Closure(names[..last], origin);
            var added := Between(names[last - 1], names[last]) + {names[last]};
            c !! added &&
            c + (set len | |origin| <= len <= |names[last]| :: names[last][..len]) == c + added
  {
    var last := |names| - 1;
    var prev, name := names[last - 1], names[last];
    var c := Closure(names[..last], origin);
    var own := set len | |origin| <= len <= |name| :: name[..len];
    var added := Between(prev, name) + {name};
    CommonIsDeepest(origin, prev, name);
    assert prev != name && Common(prev, name) < |name| by {
      OrderTotal(prev, name);
      if Common(prev, name) == |name| {
        assert name <= prev;
        AncestorFirst(name, prev);
        OrderTotal(prev, name);
      }
    }
    assert name == name[..|name|];
    forall p | p in added
      ensures p in own && p !in c
    {
      var len :| Common(prev, name) < len <= |name| && p == name[..len];
      NewAncestors(names, origin, len);
    }
    forall p | p in own
      ensures p in c || p in added
    {
      var len :| |origin| <= len <= |name| && p == name[..len];
      NewAncestors(names, origin, len);
    }
  }
}
