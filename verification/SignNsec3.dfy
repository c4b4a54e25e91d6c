/** Building the NSEC3 chain (`nsec3ify`): one walk collects the hashes of the owners, a second walk
over the same names writes their records. */
module SignNsec3 {
  import opened Options
  import opened Names
  import opened Zones
  import opened SignedNames
  import opened Databases
  import opened HashLists

  /** The label of a wildcard name. */
  const WILDCARD: Label := [42]

  /** Names longer than this in wire form do not exist. */
  const MAX_NAME: nat := 255

  /** The number of octets of a name in wire form, the root label included. */
  function WireLength(name: Name): (n: nat) {
    if name == [] then 1 else 1 + |name[0]| + WireLength(name[1..])
  }

  // ----- the walk

  /** What the first walk leaves at node `k`. */
  ghost predicate Cleaned(orig: seq<Node>, origin: Name, k: nat, n: Node)
    requires k < |orig|
  {
    && n.name == orig[k].name && n.rrs == orig[k].rrs && n.nsec == None && (!Active(n) ==> Empty(n))
    && (!Signed(orig, origin, false, orig[k]) || Delegation(origin, orig[k]) ==> n.sigs == {})
  }

  ghost predicate CleanedIn(orig: seq<Node>, origin: Name, nodes: seq<Node>, from: nat, to: nat)
    requires to <= |orig| && |orig| == |nodes|
  {
    forall k :: from <= k < to ==> Cleaned(orig, origin, k, nodes[k])
  }

  /** The cut remembered when the walk stands at node `i`, which it has already tested. */
  function CutAt(nodes: seq<Node>, origin: Name, i: nat): (cut: Option<Name>)
    requires i <= |nodes|
  {
    CutAfter(nodes, origin, if i < |nodes| then i + 1 else i)
  }

  /** The inner loop of the first walk: move to the next node that gets a record. */
  method NextNode(was: seq<Node>, origin: Name, optout: bool, i: nat, cut: Option<Name>, ghost orig: seq<Node>)
    returns (nodes: seq<Node>, j: nat, zonecut: Option<Name>)
    requires InOrder(orig) && SameData(orig, was)
    requires i < |orig| && cut == CutAt(orig, origin, i)
    ensures SameData(orig, nodes) && i < j <= |orig|
    ensures SameIn(was, nodes, 0, i + 1)
    ensures CleanedIn(orig, origin, nodes, i + 1, if j < |orig| then j + 1 else j)
    ensures zonecut == CutAt(orig, origin, j)
    ensures j < |orig| ==> Signed(orig, origin, optout, orig[j])
    ensures SignedFrom(orig, origin, optout, i + 1) == SignedFrom(orig, origin, optout, j)
  {
    nodes, j, zonecut := was, i + 1, cut;
    while j < |nodes|
      invariant Passed(orig, was, nodes, origin, optout, i, j) && zonecut == CutAfter(orig, origin, j)
    {
      var n := nodes[j];
      KeptByCut(orig, origin, j);
      PassOver(orig, was, nodes, origin, optout, i, j, RemoveSigs(Tidied(n, true)));
      if !Active(n) {
        PassOver(orig, was, nodes, origin, optout, i, j, Tidied(n, true));
        nodes := nodes[j := Tidied(n, true)];
        j := j + 1;
        continue;
      }
      if !Subdomain(n.name, origin) || UnderCut(zonecut, n.name) {
        nodes := nodes[j := RemoveSigs(Tidied(n, true))];
        j := j + 1;
        continue;
      }
      if !Delegation(origin, n) {
        PassOver(orig, was, nodes, origin, optout, i, j, Tidied(n, true));
        nodes := nodes[j := Tidied(n, true)];
        break;
      }
      zonecut := Some(n.name);
      nodes := nodes[j := RemoveSigs(Tidied(n, true))];
      if optout && !Secure(origin, n) {
        j := j + 1;
        continue;
      }
      break;
    }
  }

  /** The state of that loop: nodes strictly between `i` and `j` have been passed over. */
  ghost predicate Passed(orig: seq<Node>, was: seq<Node>, nodes: seq<Node>, origin: Name, optout: bool, i: nat, j: nat) {
    && i < j <= |orig| == |was| == |nodes|
    && SameIn(was, nodes, 0, i + 1)
    && CleanedIn(orig, origin, nodes, i + 1, j)
    && SameIn(was, nodes, j, |orig|)
    && SignedFrom(orig, origin, optout, i + 1) == SignedFrom(orig, origin, optout, j)
  }

  lemma {:induction false} PassOver(orig: seq<Node>, was: seq<Node>, nodes: seq<Node>, origin: Name, optout: bool, i: nat, j: nat, n: Node)
    requires Passed(orig, was, nodes, origin, optout, i, j) && j < |orig|
    requires Cleaned(orig, origin, j, n)
    ensures !Signed(orig, origin, optout, orig[j]) ==> Passed(orig, was, nodes[j := n], origin, optout, i, j + 1)
    ensures CleanedIn(orig, origin, nodes[j := n], i + 1, j + 1) && SameIn(was, nodes[j := n], 0, i + 1)
  {
  }

  /** The inner loop of the second walk, which changes nothing. */
  method NextOwner(nodes: seq<Node>, origin: Name, optout: bool, i: nat, cut: Option<Name>)
    returns (j: nat, zonecut: Option<Name>)
    requires InOrder(nodes)
    requires i < |nodes| && cut == CutAt(nodes, origin, i)
    ensures i < j <= |nodes|
    ensures zonecut == CutAt(nodes, origin, j)
    ensures j < |nodes| ==> Signed(nodes, origin, optout, nodes[j])
    ensures SignedFrom(nodes, origin, optout, i + 1) == SignedFrom(nodes, origin, optout, j)
  {
    j, zonecut := i + 1, cut;
    while j < |nodes|
      invariant i < j <= |nodes| && zonecut == CutAfter(nodes, origin, j)
      invariant SignedFrom(nodes, origin, optout, i + 1) == SignedFrom(nodes, origin, optout, j)
    {
      KeptByCut(nodes, origin, j);
      var n := nodes[j];
      if !Active(n) {
        j := j + 1;
        continue;
      }
      if !Subdomain(n.name, origin) || UnderCut(zonecut, n.name) {
        j := j + 1;
        continue;
      }
      if Delegation(origin, n) {
        zonecut := Some(n.name);
        if optout && !Secure(origin, n) {
          j := j + 1;
          continue;
        }
      }
      break;
    }
  }

  /** The loop that strips labels from `next` down to one more than it shares with `name`. */
  method EmptyNodes(name: Name, next: Name) returns (ents: seq<Name>)
    ensures multiset(ents) == multiset(Between(name, next))
  {
    var nlabels, count, nextname := Common(name, next), |next|, next;
    ents := [];
    while count > nlabels + 1
      invariant count <= |next| && (count == |next| || nlabels < count) && nextname == next[..count]
      invariant multiset(ents) == multiset(Ancestors(next, count))
    {
      count := count - 1;
      nextname := nextname[..count];
      AncestorsStep(next, count);
      ents := ents + [nextname];
    }
  }

  /** The owners entered so far are those of the names passed, and the empty non-terminals up to the
  name the walk stands at. */
  ghost predicate Bag(passed: seq<Name>, owners: seq<Name>, at: Name) {
    multiset(owners) == Entered(passed)
    + (if passed == [] then multiset{} else multiset(Between(passed[|passed| - 1], at)))
  }

  lemma {:induction false} BagStep(passed: seq<Name>, owners: seq<Name>, name: Name, next: Name, ents: seq<Name>)
    requires Bag(passed, owners, name) && multiset(ents) == multiset(Between(name, next))
    ensures Bag(passed + [name], owners + [name] + ents, next)
  {
    assert (passed + [name])[..|passed|] == passed;
  }

  /** After the walk the owners are the names of the chain with their in-zone ancestors, once each. */
  lemma {:induction false} BagComplete(nodes: seq<Node>, origin: Name, apex: nat, optout: bool, passed: seq<Name>, owners: seq<Name>)
    requires IsZone(nodes, origin, apex) && passed == SignedFrom(nodes, origin, optout, 0)
    requires Bag(passed, owners, origin)
    ensures multiset(owners) == multiset(Closure(passed, origin))
  {
    SignedFromSorted(nodes, origin, optout, 0);
    ApexIsSigned(nodes, origin, apex, optout, 0);
    EmptyNonTerminalsExact(passed, origin);
    CommonIsDeepest(origin, passed[|passed| - 1], origin);
    assert Between(passed[|passed| - 1], origin) == {};
  }

  // ----- first pass: collecting hashes

  function Hashes(names: seq<Name>, hash: Name -> nat): (hs: seq<nat>)
    ensures |hs| == |names|
  {
    seq(|names|, i requires 0 <= i < |names| => hash(names[i]))
  }

  /** Enter an owner's hash, and the speculative hash of its wildcard child unless that child
  exists or its name would be too long (`hashlist_add_dns_name`, `addnowildcardhash`). */
  method AddOwner(list: HashList, hash: Name -> nat, nodes: seq<Node>, name: Name)
    requires list.Valid()
    modifies list
    ensures list.Valid() && Plain(list.entries) == Plain(old(list.entries)) + [hash(name)]
    ensures var wild := name + [[42]];
            list.entries == old(list.entries) + [Entry(hash(name), false)]
            + (if WireLength(wild) > 255 || (exists k :: 0 <= k < |nodes| && nodes[k].name == wild) then []
               else [Entry(hash(wild), true)])
  {
    PlainAppend(list.entries, Entry(hash(name), false));
    list.Add(hash(name), false);
    var wild := name + [WILDCARD];
    if WireLength(wild) > MAX_NAME {
      return;
    }
    if exists k :: 0 <= k < |nodes| && nodes[k].name == wild {
      return;
    }
    PlainAppend(list.entries, Entry(hash(wild), true));
    list.Add(hash(wild), true);
  }

  method AddOwners(list: HashList, hash: Name -> nat, nodes: seq<Node>, names: seq<Name>)
    requires list.Valid()
    modifies list
    ensures list.Valid() && Plain(list.entries) == Plain(old(list.entries)) + Hashes(names, hash)
  {
    var k := 0;
    while k < |names|
      invariant 0 <= k <= |names| && list.Valid()
      invariant Plain(list.entries) == Plain(old(list.entries)) + Hashes(names[..k], hash)
    {
      AddOwner(list, hash, nodes, names[k]);
      assert names[..k + 1] == names[..k] + [names[k]];
      assert Hashes(names[..k + 1], hash) == Hashes(names[..k], hash) + [hash(names[k])];
      k := k + 1;
    }
    assert names[..k] == names;
  }

  /** The first walk of `nsec3ify`. */
  method CollectHashes(db: Database, optout: bool, hash: Name -> nat, updateChain: bool, list: HashList,
                       ghost apex: nat)
    returns (fatal: bool, ghost owners: seq<Name>)
    requires IsZone(db.nodes, db.origin, apex) && list.Valid() && list.entries == []
    modifies db`nodes, list
    ensures fatal <==> ApexHasNsec(old(db.nodes), apex) && !updateChain
    ensures !fatal ==>
              && list.Valid() && SameData(old(db.nodes), db.nodes)
              && SameIn(old(db.nodes), db.nodes, 0, apex)
              && CleanedIn(old(db.nodes), db.origin, db.nodes, apex, |db.nodes|)
              && Plain(list.entries) == Hashes(owners, hash)
              && multiset(owners) ==
                 multiset(Closure(SignedFrom(old(db.nodes), db.origin, optout, 0), db.origin))
  {
    ghost var orig := db.nodes;
    var origin := db.origin;
    var i, done := 0, false;
    var zonecut: Option<Name> := None;
    ghost var passed: seq<Name> := [];
    owners := [];
    ghost var all := SignedFrom(orig, origin, optout, 0);
    ApexIsSigned(orig, origin, apex, optout, 0);
    CutBeforeApex(orig, origin, apex, 1);
    while !done
      invariant 0 <= i <= |orig| && (done <==> i == |orig|)
      invariant zonecut == CutAt(orig, origin, i)
      invariant Collected(orig, db.nodes, origin, apex, optout, i)
      invariant i > apex ==> !(ApexHasNsec(orig, apex) && !updateChain)
      invariant list.Valid()
      invariant Tally(Plain(list.entries), hash, owners, passed, if i < |orig| then orig[i].name else origin,
                      SignedFrom(orig, origin, optout, i), all)
      invariant i <= apex ==> passed == []
      decreases |orig| - i
    {
      var name := db.nodes[i].name;
      BeforeApexIsOutside(orig, origin, apex, i);
      if !Subdomain(name, origin) {
        CutBeforeApex(orig, origin, apex, i + 1);
        CutBeforeApex(orig, origin, apex, i + 2);
        i := i + 1;
        done := i == |db.nodes|;
        continue;
      }
      if name == origin {
        OnlyApexIsOrigin(orig, origin, apex, i);
        if ApexHasNsec(db.nodes, i) && !updateChain {
          return true, owners;
        }
      }
      i, zonecut, owners, passed := CollectAt(db, optout, hash, list, i, zonecut, orig, apex, owners, passed);
      done := i == |db.nodes|;
    }
    assert passed + [] == passed;
    BagComplete(orig, origin, apex, optout, passed, owners);
    return false, owners;
  }

  lemma {:induction false} CutBeforeApex(nodes: seq<Node>, origin: Name, apex: nat, i: nat)
    requires IsZone(nodes, origin, apex) && i <= apex + 1
    ensures CutAfter(nodes, origin, i) == None
    decreases i
  {
    if i > 0 {
      CutBeforeApex(nodes, origin, apex, i - 1);
      BeforeApexIsOutside(nodes, origin, apex, i - 1);
    }
  }

  /** One turn of the first walk at an in-zone node: find the next one, then enter the hashes of this
  name and of the empty non-terminals between the two. */
  method CollectAt(db: Database, optout: bool, hash: Name -> nat, list: HashList, i: nat, zonecut: Option<Name>,
                   ghost orig: seq<Node>, ghost apex: nat, ghost owners: seq<Name>, ghost passed: seq<Name>)
    returns (j: nat, cut: Option<Name>, ghost owners': seq<Name>, ghost passed': seq<Name>)
    requires IsZone(orig, db.origin, apex) && apex <= i < |orig|
    requires Collected(orig, db.nodes, db.origin, apex, optout, i) && Signed(orig, db.origin, optout, orig[i])
    requires zonecut == CutAt(orig, db.origin, i)
    requires list.Valid()
    requires Tally(Plain(list.entries), hash, owners, passed, orig[i].name, SignedFrom(orig, db.origin, optout, i),
                   SignedFrom(orig, db.origin, optout, 0))
    modifies db`nodes, list
    ensures i < j <= |orig| && cut == CutAt(orig, db.origin, j)
    ensures Collected(orig, db.nodes, db.origin, apex, optout, j)
    ensures list.Valid()
    ensures Tally(Plain(list.entries), hash, owners', passed', if j < |orig| then orig[j].name else db.origin,
                  SignedFrom(orig, db.origin, optout, j), SignedFrom(orig, db.origin, optout, 0))
  {
    var name := db.nodes[i].name;
    var edited := db.nodes;
    if name == db.origin {
      edited := edited[i := RemoveNsec(edited[i])];
      OnlyApexIsOrigin(orig, db.origin, apex, i);
    }
    var nodes;
    nodes, j, cut := NextNode(edited, db.origin, optout, i, zonecut, orig);
    CollectStep(orig, db.nodes, edited, nodes, db.origin, apex, optout, i, j);
    var nextname := if j == |nodes| then db.origin else nodes[j].name;
    db.nodes := nodes;
    var ents := EmptyNodes(name, nextname);
    TallyStep(Plain(list.entries), hash, owners, passed, name, SignedFrom(orig, db.origin, optout, j),
              SignedFrom(orig, db.origin, optout, 0), nextname, ents);
    AddOwners(list, hash, nodes, [name] + ents);
    owners', passed' := owners + [name] + ents, passed + [name];
  }

  /** The list holds the hashes of the owners entered so far. */
  ghost predicate Tally(plain: seq<nat>, hash: Name -> nat, owners: seq<Name>, passed: seq<Name>, at: Name,
                        rest: seq<Name>, all: seq<Name>)
  {
    plain == Hashes(owners, hash) && Bag(passed, owners, at) && passed + rest == all
  }

  lemma {:induction false} TallyStep(plain: seq<nat>, hash: Name -> nat, owners: seq<Name>, passed: seq<Name>, name: Name,
                                     rest: seq<Name>, all: seq<Name>, next: Name, ents: seq<Name>)
    requires Tally(plain, hash, owners, passed, name, [name] + rest, all)
    requires multiset(ents) == multiset(Between(name, next))
    ensures Tally(plain + Hashes([name] + ents, hash), hash, owners + [name] + ents, passed + [name], next, rest, all)
  {
    BagStep(passed, owners, name, next, ents);
    assert owners + [name] + ents == owners + ([name] + ents);
    assert passed + ([name] + rest) == passed + [name] + rest;
  }

  /** The node holds an NSEC RRset or a signature over one. */
  predicate ApexHasNsec(nodes: seq<Node>, apex: nat)
    requires apex < |nodes|
  {
    nodes[apex].nsec.Some? || NSEC in nodes[apex].sigs
  }

  ghost predicate Collected(orig: seq<Node>, nodes: seq<Node>, origin: Name, apex: nat, optout: bool, i: nat) {
    && apex < |orig| && i <= |orig| && SameData(orig, nodes)
    && (i <= apex ==> nodes == orig)
    && (i > apex ==> CleanedIn(orig, origin, nodes, apex, if i < |orig| then i + 1 else i))
    && SameIn(orig, nodes, 0, apex)
    && (i < apex || i == |orig| || Signed(orig, origin, optout, orig[i]))
  }

  lemma {:induction false} CollectStep(orig: seq<Node>, was: seq<Node>, edited: seq<Node>, nodes: seq<Node>, origin: Name, apex: nat,
                                       optout: bool, i: nat, j: nat)
    requires Collected(orig, was, origin, apex, optout, i) && apex <= i < j <= |orig|
    requires edited == if i == apex then was[i := RemoveNsec(was[i])] else was
    requires SameData(orig, nodes) && SameIn(edited, nodes, 0, i + 1)
    requires Active(orig[apex]) && orig[apex].name == origin
    requires CleanedIn(orig, origin, nodes, i + 1, if j < |orig| then j + 1 else j)
    requires j < |orig| ==> Signed(orig, origin, optout, orig[j])
    ensures Collected(orig, nodes, origin, apex, optout, j)
  {
  }

  // ----- second pass: writing the records

  /** The names that own a record of the chain. */
  ghost function ChainNames(nodes: seq<Node>, origin: Name, optout: bool): (names: set<Name>) {
    Closure(SignedFrom(nodes, origin, optout, 0), origin)
  }

  ghost function HashSet(names: set<Name>, hash: Name -> nat): (hs: set<nat>) {
    set o | o in names :: hash(o)
  }

  ghost predicate Injective(hash: Name -> nat, names: set<Name>) {
    forall a, b :: a in names && b in names && hash(a) == hash(b) ==> a == b
  }

  /** Hash `h` owns one record, of this chain, that points at the next hash of the ring. */
  ghost predicate Linked(m: map<nat, seq<Nsec3>>, ring: set<nat>, params: Params, optout: bool, h: nat) {
    h in m && |m[h]| == 1
    && m[h][0] == Nsec3(params, optout, HASH_LENGTH, m[h][0].next)
    && CyclicNext(ring, h, m[h][0].next)
  }

  /** The NSEC3 tree holds the ring and nothing else. */
  ghost predicate HoldsRing(m: map<nat, seq<Nsec3>>, ring: set<nat>, params: Params, optout: bool) {
    && (forall h :: h in ring ==> Linked(m, ring, params, optout, h))
    && OnlyAt(m, ring)
  }

  ghost predicate OnlyAt(m: map<nat, seq<Nsec3>>, ring: set<nat>) {
    forall h :: h in m && h !in ring ==> m[h] == []
  }

  function SameParams(recs: seq<Nsec3>, params: Params): (kept: seq<Nsec3>) {
    if recs == [] then []
    else (if recs[0].params == params then [recs[0]] else []) + SameParams(recs[1..], params)
  }

  /** `nsec3clean` over the NSEC3 tree: delete the records of other chains, and those of this chain at
  hashes that are not in the list. */
  method CleanChain(db: Database, params: Params, list: HashList)
    requires Ordered(list.entries)
    modifies db`nsec3
    ensures OnlyAt(db.nsec3, Owners(list.entries))
  {
    var left := db.nsec3.Keys;
    while left != {}
      invariant left <= db.nsec3.Keys
      invariant forall h :: h in db.nsec3 && h !in left && h !in Owners(list.entries) ==> db.nsec3[h] == []
      decreases |left|
    {
      var h :| h in left;
      var known := list.Exists(h);
      db.nsec3 := db.nsec3[h := if known then SameParams(db.nsec3[h], params) else []];
      left := left - {h};
    }
  }

  /** `addnsec3`: the record replaces whatever the owner had. */
  method AddNsec3(db: Database, params: Params, optout: bool, list: HashList, hash: Name -> nat, name: Name)
    requires Ordered(list.entries) && !HasDuplicate(list.entries) && hash(name) in Owners(list.entries)
    modifies db`nsec3
    ensures db.nsec3.Keys == old(db.nsec3).Keys + {hash(name)}
    ensures Linked(db.nsec3, Owners(list.entries), params, optout, hash(name))
    ensures forall h :: h in old(db.nsec3) && h != hash(name) ==> db.nsec3[h] == old(db.nsec3)[h]
  {
    OwnersMember(list.entries, hash(name));
    var nexthash := list.FindNext(hash(name));
    db.nsec3 := db.nsec3[hash(name) := [Nsec3(params, optout, HASH_LENGTH, nexthash)]];
  }

  /** Every owner passed so far has its record. */
  ghost predicate Written(m: map<nat, seq<Nsec3>>, ring: set<nat>, params: Params, optout: bool,
                          hash: Name -> nat, owners: seq<Name>)
  {
    OnlyAt(m, ring) && forall k :: 0 <= k < |owners| ==> Linked(m, ring, params, optout, hash(owners[k]))
  }

  method AddNsec3s(db: Database, params: Params, optout: bool, list: HashList, hash: Name -> nat,
                   names: seq<Name>, ghost owners: seq<Name>)
    requires Ordered(list.entries) && !HasDuplicate(list.entries)
    requires forall k :: 0 <= k < |names| ==> hash(names[k]) in Owners(list.entries)
    requires Written(db.nsec3, Owners(list.entries), params, optout, hash, owners)
    modifies db`nsec3
    ensures Written(db.nsec3, Owners(list.entries), params, optout, hash, owners + names)
  {
    var k := 0;
    while k < |names|
      invariant 0 <= k <= |names|
      invariant Written(db.nsec3, Owners(list.entries), params, optout, hash, owners + names[..k])
    {
      AddNsec3(db, params, optout, list, hash, names[k]);
      assert owners + names[..k + 1] == owners + names[..k] + [names[k]];
      k := k + 1;
    }
    assert names[..k] == names;
  }

  lemma {:induction false} EntsAreChainNames(nodes: seq<Node>, origin: Name, optout: bool, name: Name, next: Name, p: Name)
    requires var all := SignedFrom(nodes, origin, optout, 0); name in all && (next == origin || next in all)
    requires InOrder(nodes) && (p == name || p in Between(name, next))
    ensures p in ChainNames(nodes, origin, optout)
  {
    var all := SignedFrom(nodes, origin, optout, 0);
    SignedFromSorted(nodes, origin, optout, 0);
    CommonIsDeepest(origin, name, next);
    if p == name {
      var k :| 0 <= k < |all| && all[k] == name;
      assert p == all[k][..|all[k]|];
    } else {
      var len :| Common(name, next) + 1 <= len < |next| && p == next[..len];
      var k :| 0 <= k < |all| && all[k] == next;
      assert p == all[k][..len];
    }
  }

  lemma {:induction false} OwnersAreHashed(nodes: seq<Node>, origin: Name, optout: bool, hash: Name -> nat, i: nat, j: nat, ents: seq<Name>)
    requires InOrder(nodes) && i < j <= |nodes| && Signed(nodes, origin, optout, nodes[i])
    requires j < |nodes| ==> Signed(nodes, origin, optout, nodes[j])
    requires var next := if j == |nodes| then origin else nodes[j].name;
             multiset(ents) == multiset(Between(nodes[i].name, next))
    ensures var names := [nodes[i].name] + ents;
            forall k :: 0 <= k < |names| ==> hash(names[k]) in HashSet(ChainNames(nodes, origin, optout), hash)
  {
    var name := nodes[i].name;
    var next := if j == |nodes| then origin else nodes[j].name;
    var names := [name] + ents;
    SignedFromMembers(nodes, origin, optout, 0, name);
    SignedFromMembers(nodes, origin, optout, 0, next);
    forall k | 0 <= k < |names|
      ensures hash(names[k]) in HashSet(ChainNames(nodes, origin, optout), hash)
    {
      assert names[k] == name || names[k] in multiset(ents);
      EntsAreChainNames(nodes, origin, optout, name, next, names[k]);
    }
  }

  lemma {:induction false} MoveFirst(a: seq<Name>, x: Name, b: seq<Name>)
    ensures a + ([x] + b) == a + [x] + b
  {
  }

  /** The second walk of `nsec3ify`. */
  method WriteChain(db: Database, params: Params, optout: bool, hash: Name -> nat, list: HashList, ghost apex: nat)
    requires IsZone(db.nodes, db.origin, apex)
    requires Ordered(list.entries) && !HasDuplicate(list.entries)
    requires Owners(list.entries) == HashSet(ChainNames(db.nodes, db.origin, optout), hash)
    requires OnlyAt(db.nsec3, Owners(list.entries))
    modifies db`nsec3
    ensures HoldsRing(db.nsec3, Owners(list.entries), params, optout)
  {
    var nodes, origin := db.nodes, db.origin;
    var i, done := 0, false;
    var zonecut: Option<Name> := None;
    ghost var passed: seq<Name>, owners: seq<Name> := [], [];
    ghost var all := SignedFrom(nodes, origin, optout, 0);
    ApexIsSigned(nodes, origin, apex, optout, 0);
    CutBeforeApex(nodes, origin, apex, 1);
    while !done
      invariant 0 <= i <= |nodes| && (done <==> i == |nodes|)
      invariant zonecut == CutAt(nodes, origin, i)
      invariant i < apex || done || Signed(nodes, origin, optout, nodes[i])
      invariant i <= apex ==> passed == []
      invariant Bag(passed, owners, if i < |nodes| then nodes[i].name else origin)
      invariant passed + SignedFrom(nodes, origin, optout, i) == all
      invariant Written(db.nsec3, Owners(list.entries), params, optout, hash, owners)
      decreases |nodes| - i
    {
      var name := nodes[i].name;
      BeforeApexIsOutside(nodes, origin, apex, i);
      if !Subdomain(name, origin) {
        CutBeforeApex(nodes, origin, apex, i + 1);
        CutBeforeApex(nodes, origin, apex, i + 2);
        i := i + 1;
        done := i == |nodes|;
        continue;
      }
      i, zonecut, owners, passed :=
        WriteAt(db, params, optout, hash, list, i, zonecut, apex, owners, passed);
      done := i == |nodes|;
    }
    assert passed + [] == passed;
    BagComplete(nodes, origin, apex, optout, passed, owners);
    AllWritten(db.nsec3, Owners(list.entries), params, optout, hash, ChainNames(nodes, origin, optout), owners);
  }

  lemma {:induction false} AllWritten(nsec3: map<nat, seq<Nsec3>>, hashes: set<nat>, params: Params, optout: bool,
                                      hash: Name -> nat, names: set<Name>, owners: seq<Name>)
    requires Written(nsec3, hashes, params, optout, hash, owners)
    requires hashes == HashSet(names, hash) && multiset(owners) == multiset(names)
    ensures HoldsRing(nsec3, hashes, params, optout)
  {
    forall h | h in hashes
      ensures Linked(nsec3, hashes, params, optout, h)
    {
      var o :| o in names && hash(o) == h;
      assert o in multiset(owners);
      var k :| 0 <= k < |owners| && owners[k] == o;
    }
  }

  /** One turn of the second walk at an in-zone node. */
  method WriteAt(db: Database, params: Params, optout: bool, hash: Name -> nat, list: HashList, i: nat,
                 zonecut: Option<Name>, ghost apex: nat, ghost owners: seq<Name>, ghost passed: seq<Name>)
    returns (j: nat, cut: Option<Name>, ghost owners': seq<Name>, ghost passed': seq<Name>)
    requires InOrder(db.nodes) && i < |db.nodes| && Signed(db.nodes, db.origin, optout, db.nodes[i])
    requires zonecut == CutAt(db.nodes, db.origin, i)
    requires Ordered(list.entries) && !HasDuplicate(list.entries)
    requires Owners(list.entries) == HashSet(ChainNames(db.nodes, db.origin, optout), hash)
    requires Bag(passed, owners, db.nodes[i].name)
    requires passed + SignedFrom(db.nodes, db.origin, optout, i) == SignedFrom(db.nodes, db.origin, optout, 0)
    requires Written(db.nsec3, Owners(list.entries), params, optout, hash, owners)
    modifies db`nsec3
    ensures i < j <= |db.nodes| && cut == CutAt(db.nodes, db.origin, j)
    ensures j < |db.nodes| ==> Signed(db.nodes, db.origin, optout, db.nodes[j])
    ensures Bag(passed', owners', if j < |db.nodes| then db.nodes[j].name else db.origin)
    ensures passed' + SignedFrom(db.nodes, db.origin, optout, j) == SignedFrom(db.nodes, db.origin, optout, 0)
    ensures Written(db.nsec3, Owners(list.entries), params, optout, hash, owners')
  {
    var nodes, origin := db.nodes, db.origin;
    var name := nodes[i].name;
    j, cut := NextOwner(nodes, origin, optout, i, zonecut);
    var nextname := if j == |nodes| then origin else nodes[j].name;
    var ents := EmptyNodes(name, nextname);
    OwnersAreHashed(nodes, origin, optout, hash, i, j, ents);
    BagStep(passed, owners, name, nextname, ents);
    MoveFirst(passed, name, SignedFrom(nodes, origin, optout, j));
    AddNsec3s(db, params, optout, list, hash, [name] + ents, owners);
    assert owners + ([name] + ents) == owners + [name] + ents;
    owners', passed' := owners + [name] + ents, passed + [name];
  }

  datatype Outcome = Signed3 | ContainsNsec | DuplicateHash

  /** `nsec3ify`.  The duplicate check stops the signer exactly when two names that need a record
  really have the same hash. */
  method Nsec3ify(db: Database, params: Params, optout: bool, hash: Name -> nat, updateChain: bool, ghost apex: nat)
    returns (outcome: Outcome)
    requires IsZone(db.nodes, db.origin, apex)
    modifies db
    ensures outcome == ContainsNsec <==> ApexHasNsec(old(db.nodes), apex) && !updateChain
    ensures outcome == DuplicateHash ==> !Injective(hash, ChainNames(old(db.nodes), db.origin, optout))
    ensures outcome == Signed3 ==>
              && Injective(hash, ChainNames(old(db.nodes), db.origin, optout))
              && SameData(old(db.nodes), db.nodes)
              && SameIn(old(db.nodes), db.nodes, 0, apex)
              && CleanedIn(old(db.nodes), db.origin, db.nodes, apex, |db.nodes|)
              && db.nsec3param == Some(params)
              && HoldsRing(db.nsec3, HashSet(ChainNames(old(db.nodes), db.origin, optout), hash), params, optout)
  {
    ghost var orig := db.nodes;
    ghost var names := ChainNames(orig, db.origin, optout);
    var list := new HashList(2 * |db.nodes|);
    ghost var owners;
    var fatal;
    fatal, owners := CollectHashes(db, optout, hash, updateChain, list, apex);
    if fatal {
      return ContainsNsec;
    }
    ghost var collected := list.entries;
    list.Sort();
    SortedOwners(collected, list.entries, hash, owners, names);
    var dup := list.HasDup();
    if dup {
      return DuplicateHash;
    }
    db.nsec3param := Some(params);
    CleanChain(db, params, list);
    SignedFromIgnoresSignatures(orig, db.nodes, db.origin, optout, 0);
    ZoneKeepsShape(orig, db.nodes, db.origin, apex);
    WriteChain(db, params, optout, hash, list, apex);
    return Signed3;
  }

  lemma {:induction false} ZoneKeepsShape(a: seq<Node>, b: seq<Node>, origin: Name, apex: nat)
    requires IsZone(a, origin, apex) && SameData(a, b)
    ensures IsZone(b, origin, apex)
  {
    forall i, j | 0 <= i < j < |b|
      ensures Less(b[i].name, b[j].name)
    {
      assert Less(a[i].name, a[j].name);
    }
  }

  /** The sorted list holds the hashes of the chain names, and repeats one exactly when two of those
  names collide. */
  lemma {:induction false} SortedOwners(collected: seq<Entry>, sorted: seq<Entry>, hash: Name -> nat, owners: seq<Name>, names: set<Name>)
    requires multiset(sorted) == multiset(collected) && Plain(collected) == Hashes(owners, hash)
    requires multiset(owners) == multiset(names)
    ensures Owners(sorted) == HashSet(names, hash)
    ensures HasDuplicate(sorted) <==> !Injective(hash, names)
  {
    forall h: nat
      ensures multiset(Plain(sorted))[h] == multiset(Plain(collected))[h]
      ensures h in Owners(sorted) <==> h in Plain(collected)
    {
      PlainCount(sorted, h);
      PlainCount(collected, h);
      PlainMember(sorted, h);
      assert h in Plain(sorted) <==> h in multiset(Plain(sorted));
      assert h in Plain(collected) <==> h in multiset(Plain(collected));
    }
    assert multiset(Plain(sorted)) == multiset(Plain(collected));
    DuplicateMeansCollision(sorted, Plain(collected));
    HashesOfOwners(hash, owners, names);
  }

  lemma {:induction false} HashesOfOwners(hash: Name -> nat, owners: seq<Name>, names: set<Name>)
    requires multiset(owners) == multiset(names)
    ensures forall h :: h in Hashes(owners, hash) <==> h in HashSet(names, hash)
    ensures (exists i, j :: 0 <= i < j < |owners| && Hashes(owners, hash)[i] == Hashes(owners, hash)[j])
       <==> !Injective(hash, names)
  {
    var hs := Hashes(owners, hash);
    forall o ensures o in names <==> o in owners {
      assert o in names <==> o in multiset(names);
      assert o in owners <==> o in multiset(owners);
    }
    forall h ensures h in hs <==> h in HashSet(names, hash) {
      if h in hs {
        var k :| 0 <= k < |hs| && hs[k] == h;
        assert owners[k] in owners;
      }
      if h in HashSet(names, hash) {
        var o :| o in names && hash(o) == h;
        var k :| 0 <= k < |owners| && owners[k] == o;
        assert hs[k] == h;
      }
    }
    if i, j :| 0 <= i < j < |owners| && hs[i] == hs[j] {
      assert owners[i] in owners && owners[j] in owners;
      if owners[i] == owners[j] {
        CountTwice(owners, i, j);
        assert false;
      }
    }
    if !Injective(hash, names) {
      var a, b :| a in names && b in names && hash(a) == hash(b) && a != b;
      var i :| 0 <= i < |owners| && owners[i] == a;
      var j :| 0 <= j < |owners| && owners[j] == b;
      assert hs[i] == hs[j];
      assert if i < j then hs[i] == hs[j] else hs[j] == hs[i];
    }
  }
}
