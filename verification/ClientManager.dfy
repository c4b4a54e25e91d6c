/** The client manager: its list of clients, the recursing list, the inactive queue, the accept
counters of the interfaces, and its own end. */
module ClientManager {
  import opened Clients

  /** No client is on the list twice. */
  ghost predicate Distinct<T>(s: seq<T>) {
    s == [] || (s[0] !in s[1..] && Distinct(s[1..]))
  }

  lemma {:induction false} DistinctAppend<T>(s: seq<T>, x: T)
    requires Distinct(s) && x !in s
    ensures Distinct(s + [x])
  {
    if s != [] {
      DistinctAppend(s[1..], x);
      assert (s + [x])[1..] == s[1..] + [x];
    }
  }

  lemma {:induction false} DistinctAt<T>(s: seq<T>, i: nat, k: nat)
    requires Distinct(s) && i < |s| && k < |s| && i != k
    ensures s[i] != s[k]
  {
    if i > 0 && k > 0 {
      DistinctAt(s[1..], i - 1, k - 1);
    }
  }

  /** List removal (`ISC_LIST_UNLINK`). */
  function Without<T(==)>(s: seq<T>, x: T): (r: seq<T>)
    ensures forall y :: y in r ==> y in s && y != x
    ensures forall y :: y in s && y != x ==> y in r
    ensures Distinct(s) ==> Distinct(r)
  {
    if s == [] then []
    else if s[0] == x then Without(s[1..], x)
    else [s[0]] + Without(s[1..], x)
  }

  lemma {:induction false} WithoutHead<T>(s: seq<T>)
    requires Distinct(s) && s != []
    ensures Without(s, s[0]) == s[1..]
  {
    NothingToRemove(s[1..], s[0]);
  }

  lemma {:induction false} NothingToRemove<T>(s: seq<T>, x: T)
    requires x !in s
    ensures Without(s, x) == s
  {
    if s != [] {
      NothingToRemove(s[1..], x);
    }
  }

  /** The clients with an outstanding accept on an interface. */
  ghost function Accepting(cs: set<Client>, i: Interface): set<Client>
    reads cs
  {
    set c | c in cs && c.interface == i && c.naccepts > 0
  }

  ghost function Share(c: Client, i: Interface): nat
    reads c
  {
    if c.interface == i then c.naccepts else 0
  }

  lemma {:induction false} AcceptingAddsUp(cs: set<Client>, c: Client, i: Interface)
    requires c in cs && c.naccepts <= 1
    ensures |Accepting(cs, i)| == |Accepting(cs - {c}, i)| + Share(c, i)
  {
    assert Accepting(cs, i) == Accepting(cs - {c}, i) + (if Share(c, i) == 1 then {c} else {});
  }

  /** The answers to the library calls an event may make. */
  datatype Answers = Answers(readOk: bool, acceptOk: bool, recvOk: bool)

  class Manager {
    const clienttest: bool
    const ifaces: set<Interface>
    var exiting: bool
    var clients: set<Client>
    var recursing: seq<Client>
    var inactive: seq<Client>
    /** How often `clientmgr_destroy` has run. */
    var destroyed: nat

    constructor (clienttest: bool, ifaces: set<Interface>)
      requires forall i :: i in ifaces ==> i.ntcpcurrent == 0
      ensures Valid() && this.ifaces == ifaces && clients == {} && !exiting
    {
      this.clienttest, this.ifaces := clienttest, ifaces;
      exiting, clients, recursing, inactive, destroyed := false, {}, [], [], 0;
    }

    /** The invariant of every run. */
    ghost predicate Valid()
      reads this, clients, ifaces
    {
      && (forall c :: c in clients ==> c.Ok())
      && Consistent()
    }

    ghost predicate Consistent()
      reads this, clients, ifaces
    {
      RecursingOk({}) && InactiveOk({}) && CountsOk() && EndOk()
    }

    /** What does not depend on client `c`: the lists agree with the other clients, which are in order. */
    ghost predicate Around(c: Client)
      reads this, clients - {c}
    {
      && RecursingOk({c}) && InactiveOk({c}) && EndOk()
      && (forall d :: d in clients - {c} ==> d.Ok() && (d.interface != null ==> d.interface in ifaces))
    }

    ghost predicate RecursingOk(but: set<Client>)
      reads this, clients - but
    {
      ListOk(recursing) && forall c :: c in clients - but ==> (c.rlinked <==> c in recursing)
    }

    ghost predicate InactiveOk(but: set<Client>)
      reads this, clients - but
    {
      ListOk(inactive) && forall c :: c in clients - but ==> (c.ilinked <==> c in inactive)
    }

    ghost predicate CountsOk()
      reads this, clients, ifaces
    {
      && (forall c :: c in clients && c.interface != null ==> c.interface in ifaces)
      && (forall i :: i in ifaces ==> CountOk(i))
    }

    /** The manager is destroyed once, in the step that leaves it exiting without clients. */
    ghost predicate EndOk()
      reads this
    {
      destroyed == if exiting && clients == {} then 1 else 0
    }

    ghost predicate ListOk(s: seq<Client>)
      reads this
    {
      Distinct(s) && forall c :: c in s ==> c in clients
    }

    /** `ntcpcurrent` is the number of clients with an outstanding accept on the interface. */
    ghost predicate CountOk(i: Interface)
      reads this, clients, i
    {
      i.ntcpcurrent == |Accepting(clients, i)|
    }

    lemma {:induction false} AcceptIsCounted(c: Client)
      requires CountsOk() && c in clients && c.Ok()
      ensures c.OtherAccepts() >= 0
    {
      if c.naccepts > 0 {
        assert c in Accepting(clients, c.interface) && CountOk(c.interface);
        assert |Accepting(clients, c.interface) - {c}| == |Accepting(clients, c.interface)| - 1;
      }
    }

    /** A counter seen from one client: its own accept and those of the others. */
    ghost predicate Ledger(c: Client, i: Interface)
      reads this, clients - {c}, c, i
    {
      i.ntcpcurrent == |Accepting(clients - {c}, i)| + Share(c, i)
    }

    lemma {:induction false} SharesAddUp(c: Client)
      requires c in clients && c.naccepts <= 1
      ensures forall i :: i in ifaces ==> (CountOk(i) <==> Ledger(c, i))
    {
      forall i | i in ifaces
        ensures CountOk(i) <==> Ledger(c, i)
      {
        AcceptingAddsUp(clients, c, i);
      }
    }

    /** What a step of client `c` can rely on. */
    lemma {:induction false} Before(c: Client)
      requires Valid() && c in clients
      ensures Around(c) && (forall i :: i in ifaces ==> Ledger(c, i)) && c.OtherAccepts() >= 0
      ensures (c.interface != null ==> c.interface in ifaces) && (c.rlinked ==> c in recursing)
    {
      AcceptIsCounted(c);
      SharesAddUp(c);
    }

    function WorldOf(a: Answers): World
      reads this
    {
      World(a.readOk, a.acceptOk, a.recvOk, exiting, clienttest)
    }

    /** After a step of client `c`: bring the lists and the client list up to date. */
    method Sync(c: Client)
      requires c in clients && Around(c) && (forall i :: i in ifaces ==> Ledger(c, i))
      requires (c.Ok() || c.Gone()) && (c.interface != null ==> c.interface in ifaces) && (c.rlinked ==> c in recursing)
      modifies this`recursing, this`inactive, this`clients, this`destroyed
      ensures Valid() && clients == if c.state == FREED then old(clients) - {c} else old(clients)
      ensures recursing == if c.rlinked then old(recursing) else Without(old(recursing), c)
      ensures !c.ilinked && c !in old(inactive) ==> inactive == old(inactive)
    {
      SharesAddUp(c);
      assert CountsOk() && EndOk();
      SyncLists(c);
      if c.state == FREED {
        Reap(c);
      }
    }

    method SyncLists(c: Client)
      requires c in clients && RecursingOk({c}) && InactiveOk({c}) && (c.rlinked ==> c in recursing)
      modifies this`recursing, this`inactive
      ensures RecursingOk({}) && InactiveOk({})
      ensures recursing == if c.rlinked then old(recursing) else Without(old(recursing), c)
      ensures !c.ilinked && c !in old(inactive) ==> inactive == old(inactive)
    {
      if !c.ilinked && c !in inactive {
        NothingToRemove(inactive, c);
      }
      if !c.rlinked {
        recursing := Without(recursing, c);
      }
      if !c.ilinked {
        inactive := Without(inactive, c);
      } else if c !in inactive {
        DistinctAppend(inactive, c);
        inactive := inactive + [c];
      }
    }

    /** The end of `exit_check` for a freed client; the last one of an exiting manager takes the manager
    with it. */
    method Reap(c: Client)
      requires c in clients && Consistent() && c.Gone()
      modifies this`clients, this`destroyed
      ensures clients == old(clients) - {c} && Consistent()
    {
      SharesAddUp(c);
      clients := clients - {c};
      assert forall i :: i in ifaces ==> CountOk(i);
      if exiting && clients == {} {
        assert clients == {};
        destroyed := destroyed + 1;
      }
    }

    // ----- events

    /** Deliver an event that concerns one client only. */
    method Deliver(c: Client, e: Event, a: Answers)
      requires Valid() && c in clients && c.Enabled(e)
      modifies this, c, c.interface
      ensures Valid() && exiting == old(exiting)
      ensures clients == if c.state == FREED then old(clients) - {c} else old(clients)
      ensures c.Ok() || c.Gone()
      ensures old(c.newstate) == FREED ==> c.newstate == FREED
      ensures e.Shutdown? ==> c.Draining(old(c.state), old(c.Ops()))
      ensures old(c.newstate) == FREED && c.Completes(e) ==> c.Gone() || c.Ops() < old(c.Ops())
    {
      Perform(c, e, a);
      Sync(c);
    }

    method Perform(c: Client, e: Event, a: Answers)
      requires Valid() && c in clients && c.Enabled(e)
      modifies c, c.interface
      ensures Around(c) && (forall i :: i in ifaces ==> Ledger(c, i))
      ensures (c.Ok() || c.Gone()) && (c.interface != null ==> c.interface in ifaces) && (c.rlinked ==> c in recursing)
      ensures old(c.newstate) == FREED ==> c.newstate == FREED
      ensures e.Shutdown? ==> c.Draining(old(c.state), old(c.Ops()))
      ensures old(c.newstate) == FREED && c.Completes(e) ==> c.Gone() || c.Ops() < old(c.Ops())
    {
      Before(c);
      c.Handle(e, WorldOf(a));
      assert Around(c);
      forall i | i in ifaces
        ensures Ledger(c, i)
      {
        assert old(Ledger(c, i));
      }
    }

    /** `client_newconn`: a connection is accepted, or the accept fails or is cancelled.  With quota, a
    new client takes over listening before the first request is read. */
    method NewConn(c: Client, ok: bool, blackholed: bool, quota: bool, createOk: bool, a: Answers)
      requires Valid() && c in clients && c.naccepts > 0
      modifies this, clients, c.interface
      ensures Valid() && exiting == old(exiting)
      ensures fresh(clients - old(clients)) && (old(exiting) ==> clients <= old(clients))
      ensures c.Ok() || c.Gone()
      ensures old(c.newstate) == FREED ==>
                clients == (if c.state == FREED then old(clients) - {c} else old(clients))
                && c.newstate == FREED && (c.Gone() || c.Ops() < old(c.Ops()))
      ensures forall d :: d in old(clients) && d != c && old(d.state) != INACTIVE ==> unchanged(d)
      ensures ok && !blackholed && old(c.newstate) >= READING && a.readOk ==>
                c.Reading() && c.newstate == READING && c.mortal == (old(c.mortal) || (quota && old(Available(createOk))))
    {
      var reading := Accepted(c, ok, blackholed, a);
      if !reading {
        return;
      }
      var replacement := null;
      if quota {
        replacement := GetClient(c.interface, c.tcp, createOk);
      }
      FirstRead(c, replacement != null, a);
    }

    /** `client_newconn` up to the replacement. */
    method Accepted(c: Client, ok: bool, blackholed: bool, a: Answers) returns (reading: bool)
      requires Valid() && c in clients && c.naccepts > 0
      modifies this, c, c.interface
      ensures Valid() && exiting == old(exiting)
      ensures clients == if c.state == FREED then old(clients) - {c} else old(clients)
      ensures reading <==> ok && !blackholed && old(c.newstate) >= READING
      ensures reading ==> c.Connected() && c.interface == old(c.interface)
      ensures c.Ok() || c.Gone()
      ensures old(c.newstate) == FREED ==> !reading && c.newstate == FREED && (c.Gone() || c.Ops() < old(c.Ops()))
      ensures reading ==> inactive == old(inactive) && c.mortal == old(c.mortal)
    {
      reading := Connect(c, ok, blackholed, a);
      Sync(c);
    }

    method Connect(c: Client, ok: bool, blackholed: bool, a: Answers) returns (reading: bool)
      requires Valid() && c in clients && c.naccepts > 0
      modifies c, c.interface
      ensures Around(c) && (forall i :: i in ifaces ==> Ledger(c, i))
      ensures (c.Ok() || c.Gone()) && (c.interface != null ==> c.interface in ifaces) && (c.rlinked ==> c in recursing)
      ensures reading <==> ok && !blackholed && old(c.newstate) >= READING
      ensures reading ==> c.Connected() && c.interface == old(c.interface)
      ensures old(c.newstate) == FREED ==> !reading && c.newstate == FREED && (c.Gone() || c.Ops() < old(c.Ops()))
      ensures reading ==> !c.ilinked && c.mortal == old(c.mortal)
    {
      Before(c);
      reading := c.NewConn(ok, blackholed, WorldOf(a));
      assert Around(c);
      forall i | i in ifaces
        ensures Ledger(c, i)
      {
        assert old(Ledger(c, i));
      }
    }

    /** `client_newconn` after the replacement. */
    method FirstRead(c: Client, replaced: bool, a: Answers)
      requires Valid() && c in clients && c.Connected()
      modifies this, c, c.interface
      ensures Valid() && exiting == old(exiting) && clients == old(clients) && c.Ok() && !c.connecting
      ensures a.readOk ==> c.Reading() && c.newstate == READING && c.mortal == (old(c.mortal) || replaced)
    {
      Before(c);
      c.ReadFirst(replaced, WorldOf(a));
      assert Around(c);
      forall i | i in ifaces
        ensures Ledger(c, i)
      {
        assert old(Ledger(c, i));
      }
      Sync(c);
    }

    /** Whether a client can be had. */
    ghost predicate Available(createOk: bool)
      reads this
    {
      !exiting && ((!clienttest && inactive != []) || createOk)
    }

    /** `get_client`: recycle an inactive client or create one.  An exiting manager refuses. */
    method GetClient(ifp: Interface, tcp: bool, createOk: bool) returns (client: Client?)
      requires Valid() && ifp in ifaces
      modifies this, clients, ifp
      ensures Valid() && exiting == old(exiting)
      ensures forall d :: d in old(clients) && old(d.state) != INACTIVE ==> unchanged(d)
      ensures client != null <==> old(Available(createOk))
      ensures client != null ==>
                if !clienttest && old(inactive) != [] then client == old(inactive)[0] else fresh(client)
      ensures client == null ==> clients == old(clients)
      ensures client != null ==> !exiting && client in clients && clients == old(clients) + {client}
                                 && (client in old(inactive) || fresh(client))
                                 && client.state == READY && client.nctls == 1 && client.interface == ifp && client.tcp == tcp
    {
      if exiting {
        return null;
      }
      if !clienttest && inactive != [] {
        client := Recycle(ifp, tcp);
      } else if createOk {
        client := Create(ifp, tcp);
      } else {
        return null;
      }
    }

    method Recycle(ifp: Interface, tcp: bool) returns (client: Client)
      requires Valid() && ifp in ifaces && inactive != []
      modifies this, inactive[0], ifp
      ensures Valid() && client == old(inactive)[0] && exiting == old(exiting) && clients == old(clients)
      ensures client.state == READY && client.nctls == 1 && client.interface == ifp && client.tcp == tcp
    {
      client := inactive[0];
      assert client in inactive && client in clients;
      PutToWork(client, ifp, tcp);
    }

    method PutToWork(c: Client, ifp: Interface, tcp: bool)
      requires Valid() && ifp in ifaces && c in clients && c.state == INACTIVE
      modifies this, c, ifp
      ensures Valid() && exiting == old(exiting) && clients == old(clients)
      ensures c.state == READY && c.nctls == 1 && c.interface == ifp && c.tcp == tcp
    {
      Before(c);
      c.Activate(ifp, tcp);
      assert Around(c);
      Sync(c);
    }

    method Create(ifp: Interface, tcp: bool) returns (client: Client)
      requires Valid() && !exiting && ifp in ifaces
      modifies this, ifp
      ensures Valid() && fresh(client) && exiting == old(exiting) && clients == old(clients) + {client}
      ensures client.state == READY && client.nctls == 1 && client.interface == ifp && client.tcp == tcp
    {
      client := new Client();
      Admit(client);
      PutToWork(client, ifp, tcp);
    }

    method Admit(c: Client)
      requires Valid() && !exiting && c !in clients
      requires c.Ok() && c.state == INACTIVE && c.interface == null && !c.rlinked && !c.ilinked
      modifies this`clients
      ensures Valid() && clients == old(clients) + {c}
    {
      assert c !in recursing && c !in inactive;
      clients := clients + {c};
      assert clients - {c} == old(clients);
      forall i | i in ifaces
        ensures CountOk(i)
      {
        assert old(CountOk(i));
        AcceptingAddsUp(clients, c, i);
      }
    }

    /** `ns_client_replace` from request processing. */
    method Replace(c: Client, createOk: bool)
      requires Valid() && c in clients && c.state >= WORKING
      modifies this, clients, c.interface
      ensures Valid() && exiting == old(exiting) && fresh(clients - old(clients))
      ensures old(exiting) ==> clients == old(clients)
      ensures forall d :: d in old(clients) && old(d.state) != INACTIVE ==> d.newstate == old(d.newstate)
      ensures c.mortal == (old(c.mortal) || old(Available(createOk)))
    {
      var replacement := GetClient(c.interface, c.tcp, createOk);
      if replacement != null {
        Retire(c);
      }
    }

    method Retire(c: Client)
      requires Valid() && c in clients && c.state >= WORKING
      modifies this, c, c.interface
      ensures Valid() && exiting == old(exiting) && clients == old(clients) && c.newstate == old(c.newstate)
      ensures c.mortal
    {
      Before(c);
      c.SetMortal();
      assert Around(c);
      Sync(c);
    }

    /** `ns_client_recursing`. */
    method Recurse(c: Client)
      requires Valid() && c in clients && c.state == WORKING
      modifies this, c, c.interface
      ensures Valid() && clients == old(clients) && exiting == old(exiting) && c.newstate == RECURSING
    {
      Recursion(c);
      Enlist(c);
      Sync(c);
    }

    method Recursion(c: Client)
      requires Valid() && c in clients && c.state == WORKING
      modifies c
      ensures Around(c) && (forall i :: i in ifaces ==> Ledger(c, i)) && c !in recursing
      ensures c.Ok() && c.state == c.newstate == RECURSING && (c.interface != null ==> c.interface in ifaces)
    {
      Before(c);
      c.Recursing();
    }

    method Enlist(c: Client)
      requires Around(c) && c in clients && c !in recursing
      modifies this`recursing
      ensures Around(c) && recursing == old(recursing) + [c]
    {
      DistinctAppend(recursing, c);
      recursing := recursing + [c];
    }

    /** `ns_client_killoldestquery`. */
    method KillOldest()
      requires Valid()
      modifies this, clients, ifaces
      ensures Valid() && clients == old(clients) && exiting == old(exiting)
      ensures old(recursing) != [] ==> old(recursing)[0] !in recursing && recursing == old(recursing)[1..]
      ensures forall c :: c in clients ==> c.newstate == old(c.newstate)
    {
      if recursing != [] {
        var oldest := recursing[0];
        assert oldest in recursing;
        Before(oldest);
        oldest.Unlink();
        assert Around(oldest);
        Sync(oldest);
        WithoutHead(old(recursing));
      }
    }

    /** `ns_clientmgr_destroy`: the tasks of all clients are told to shut down; without clients the
    manager goes at once. */
    method Destroy()
      requires Valid() && !exiting
      modifies this`exiting, this`destroyed
      ensures Valid() && exiting && clients == old(clients)
    {
      exiting := true;
      if clients == {} {
        destroyed := destroyed + 1;
      }
    }

    // ----- runs

    /** One step of a run; a step that is not enabled does nothing.  A client that is to be freed stays
    so, with one exception: request code that starts to recurse overwrites the target. */
    method Step(s: Stimulus)
      requires Valid()
      modifies this, clients, ifaces
      ensures Valid() && fresh(clients - old(clients))
      ensures old(exiting) ==> exiting && clients <= old(clients)
      ensures destroyed >= old(destroyed)
      ensures forall d :: d in old(clients) && old(d.newstate) == FREED ==>
                            d.newstate == if s.Recurses? && s.c == d && old(d.state) == WORKING then RECURSING else FREED
    {
      match s {
        case Client(c, e, a) =>
          if c in clients && c.Enabled(e) {
            Deliver(c, e, a);
          }
        case Connection(c, ok, blackholed, quota, createOk, a) =>
          if c in clients && c.naccepts > 0 {
            NewConn(c, ok, blackholed, quota, createOk, a);
          }
        case Get(ifp, tcp, createOk) =>
          if ifp in ifaces {
            var _ := GetClient(ifp, tcp, createOk);
          }
        case Replaces(c, createOk) =>
          if c in clients && c.state >= WORKING {
            Replace(c, createOk);
          }
        case Recurses(c) =>
          if c in clients && c.state == WORKING {
            Recurse(c);
          }
        case KillsOldest => KillOldest();
        case Destroys =>
          if !exiting {
            Destroy();
          }
      }
    }

    /** Every run, from any valid state: no INSIST fails, the invariant holds throughout, the manager is
    destroyed at most once and only when it is exiting and has no clients, and no client joins once
    it is exiting. */
    method Run(steps: seq<Stimulus>)
      requires Valid()
      modifies this, clients, ifaces
      ensures Valid() && destroyed <= 1 && (destroyed == 1 <==> exiting && clients == {})
      ensures old(exiting) ==> exiting && clients <= old(clients)
    {
      var k := 0;
      while k < |steps|
        invariant 0 <= k <= |steps| && Valid() && fresh(clients - old(clients))
        invariant old(exiting) ==> exiting && clients <= old(clients)
      {
        Step(steps[k]);
        k := k + 1;
      }
    }

    // ----- draining

    /** Any outstanding operation of a client that is to be freed completes, in any way. */
    method Complete(c: Client)
      requires Valid() && c in clients && c.newstate == FREED
      modifies this, c, c.interface
      ensures Valid() && exiting == old(exiting) && (c.Ok() || c.Gone()) && c.newstate == FREED
      ensures clients == if c.state == FREED then old(clients) - {c} else old(clients)
      ensures c.Ops() < old(c.Ops())
    {
      var a: Answers := *;
      if c.naccepts > 0 {
        var ok: bool, blackholed: bool := *, *;
        var _ := Accepted(c, ok, blackholed, a);
      } else {
        c.SomethingOutstanding();
        var e :| c.Enabled(e) && c.Completes(e);
        Deliver(c, e, a);
      }
    }

    /** A client told to shut down is freed once its operations have completed, in whatever order. */
    method DrainClient(c: Client, a: Answers)
      requires Valid() && c in clients
      modifies this, clients, ifaces
      ensures Valid() && exiting == old(exiting)
      ensures clients == old(clients) - {c}
    {
      Deliver(c, Shutdown, a);
      while c in clients
        invariant Valid() && exiting == old(exiting) && (c.Ok() || c.Gone())
        invariant clients == if c.state == FREED then old(clients) - {c} else old(clients)
        invariant c.newstate == FREED
        decreases c.Ops()
      {
        Complete(c);
      }
    }

    /** The clients still to be told, and the operations outstanding in all. */
    ghost function Untold(order: seq<Client>): seq<nat>
      reads order
    {
      seq(|order|, i requires 0 <= i < |order| reads order => if order[i].newstate == FREED then 0 else 1)
    }

    ghost function Outstanding(order: seq<Client>): seq<nat>
      reads order
    {
      seq(|order|, i requires 0 <= i < |order| reads order => order[i].Ops())
    }

    /** One step of shutting down: some client is told, or some operation of one that has been told
    completes. */
    method Wind(ghost order: seq<Client>)
      requires Valid() && clients != {} && Distinct(order) && forall d :: d in clients ==> d in order
      modifies this, clients, ifaces
      ensures Valid() && exiting == old(exiting) && clients <= old(clients)
      ensures || Sum(Untold(order)) < old(Sum(Untold(order)))
              || (Sum(Untold(order)) == old(Sum(Untold(order))) && Sum(Outstanding(order)) < old(Sum(Outstanding(order))))
    {
      var c :| c in clients;
      ghost var k :| 0 <= k < |order| && order[k] == c;
      if c.newstate != FREED {
        Tell(c, order, k);
      } else {
        Finish(c, order, k);
      }
    }

    method Tell(c: Client, ghost order: seq<Client>, ghost k: nat)
      requires Valid() && c in clients && c.newstate != FREED && Distinct(order) && k < |order| && order[k] == c
      modifies this, c, c.interface
      ensures Valid() && exiting == old(exiting) && clients <= old(clients)
      ensures Sum(Untold(order)) < old(Sum(Untold(order)))
    {
      var a: Answers := *;
      Deliver(c, Shutdown, a);
      forall i | 0 <= i < |order| && i != k
        ensures Untold(order)[i] == old(Untold(order))[i]
      {
        DistinctAt(order, i, k);
      }
      SumLess(Untold(order), old(Untold(order)), k);
    }

    method Finish(c: Client, ghost order: seq<Client>, ghost k: nat)
      requires Valid() && c in clients && c.newstate == FREED && Distinct(order) && k < |order| && order[k] == c
      modifies this, c, c.interface
      ensures Valid() && exiting == old(exiting) && clients <= old(clients)
      ensures Sum(Untold(order)) == old(Sum(Untold(order))) && Sum(Outstanding(order)) < old(Sum(Outstanding(order)))
    {
      Complete(c);
      forall i | 0 <= i < |order| && i != k
        ensures Untold(order)[i] == old(Untold(order))[i] && Outstanding(order)[i] == old(Outstanding(order))[i]
      {
        DistinctAt(order, i, k);
      }
      assert Untold(order) == old(Untold(order));
      SumLess(Outstanding(order), old(Outstanding(order)), k);
    }

    /** Shutting down always comes to an end.  In any interleaving of the clients being told and of the
    operations of those told completing, all are freed and the manager is destroyed once. */
    method DrainAll()
      requires Valid() && !exiting
      modifies this, clients, ifaces
      ensures Valid() && clients == {} && destroyed == 1
    {
      Destroy();
      ghost var order := Listed(clients);
      while clients != {}
        invariant Valid() && exiting && clients <= old(clients) && forall d :: d in clients ==> d in order
        decreases Sum(Untold(order)), Sum(Outstanding(order))
      {
        Wind(order);
      }
    }
  }

  ghost function Sum(s: seq<nat>): nat {
    if s == [] then 0 else Sum(s[..|s| - 1]) + s[|s| - 1]
  }

  lemma {:induction false} SumLess(a: seq<nat>, b: seq<nat>, k: nat)
    requires |a| == |b| && k < |a| && a[k] < b[k] && forall i :: 0 <= i < |a| && i != k ==> a[i] == b[i]
    ensures Sum(a) < Sum(b)
    decreases |a|
  {
    var n := |a| - 1;
    if k < n {
      SumLess(a[..n], b[..n], k);
    } else {
      assert a[..n] == b[..n];
    }
  }

  lemma {:induction false} Listed(cs: set<Client>) returns (order: seq<Client>)
    ensures Distinct(order) && forall d :: d in order <==> d in cs
    decreases cs
  {
    if cs == {} {
      order := [];
    } else {
      var c :| c in cs;
      order := Listed(cs - {c});
      DistinctAppend(order, c);
      order := order + [c];
    }
  }

  /** The steps of a run: events of a client, connections, and what other parts of the server do. */
  datatype Stimulus =
    | Client(c: Client, e: Event, a: Answers)
    | Connection(c: Client, ok: bool, blackholed: bool, quota: bool, createOk: bool, a: Answers)
    | Get(ifp: Interface, tcp: bool, createOk: bool)
    | Replaces(c: Client, createOk: bool)
    | Recurses(c: Client)
    | KillsOldest
    | Destroys
}
