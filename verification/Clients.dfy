/** The name server's client objects: their states, targets and outstanding operations.

Every INSIST and REQUIRE of the source on the modelled fields is an `assert` here. */
module Clients {

  const FREED: nat := 0
  const INACTIVE: nat := 1
  const READY: nat := 2
  const READING: nat := 3
  const WORKING: nat := 4
  const RECURSING: nat := 5
  /** No state: nothing is being aborted. */
  const NO_STATE: nat := 9

  /** What an event may meet: whether a read, accept or receive can be started, whether the manager is
  exiting, and the testing mode. */
  datatype World = World(readOk: bool, acceptOk: bool, recvOk: bool, exiting: bool, clienttest: bool)

  class Interface {
    var ntcpcurrent: nat
    const ntcptarget: nat

    constructor (target: nat)
      ensures ntcpcurrent == 0 && ntcptarget == target
    {
      ntcpcurrent, ntcptarget := 0, target;
    }
  }

  class Client {
    var state: nat
    var newstate: nat
    var naccepts: nat
    var nreads: nat
    var nsends: nat
    var nrecvs: nat
    var nupdates: nat
    var nctls: nat
    var references: nat
    var tcp: bool
    var mortal: bool
    var recursionquota: bool
    var tcpmsgValid: bool
    var timerset: bool
    var interface: Interface?
    /** Links into the manager's recursing list and inactive queue. */
    var rlinked: bool
    var ilinked: bool
    /** The library has refused to listen for the client, or its accept has failed. */
    ghost var refused: bool
    /** A connection has been accepted from which reading has not begun. */
    ghost var connecting: bool

    /** `client_create`. */
    constructor ()
      ensures Ok() && state == INACTIVE && Ops() == 0 && !rlinked && !ilinked
    {
      state, newstate := INACTIVE, NO_STATE;
      naccepts, nreads, nsends, nrecvs, nupdates, nctls, references := 0, 0, 0, 0, 0, 0, 0;
      tcp, mortal, recursionquota, tcpmsgValid, timerset := false, false, false, false, false;
      interface, rlinked, ilinked := null, false, false;
      refused, connecting := false, false;
    }

    /** The number of outstanding operations. */
    ghost function Ops(): nat
      reads this
    {
      naccepts + nreads + nsends + nrecvs + nupdates + nctls + references
    }

    /** What each state allows to be outstanding. */
    ghost predicate Shape()
      reads this
    {
      && INACTIVE <= state <= RECURSING
      && LegalTarget()
      && (naccepts > 0 ==> naccepts == 1 && state == READY && tcp)
      && (nrecvs > 0 ==> nrecvs == 1 && state == READY && !tcp)
      && (nctls > 0 ==> nctls == 1 && state == READY && naccepts == 0 && nrecvs == 0)
      && (nreads > 0 ==> nreads == 1 && state == READING && tcp)
      && (nsends + nupdates + references > 0 ==> state >= WORKING)
      && nupdates <= references
      && (recursionquota ==> state >= WORKING)
      && (tcpmsgValid ==> state >= READING)
      && (timerset ==> state >= READING)
      && (interface == null <==> state == INACTIVE)
      && (state == INACTIVE ==> !tcp && !mortal)
      && (rlinked ==> state == RECURSING)
      && (ilinked ==> state == INACTIVE)
      && (refused ==> state == READY && naccepts == 0 && nrecvs == 0 && nctls == 0)
      && (connecting ==> state == READING && nreads == 0 && tcp && !timerset)
    }

    /** The target is none, or a state the current one can be made to leave for. */
    ghost predicate LegalTarget()
      reads this
    {
      || newstate == NO_STATE
      || newstate <= READY
      || (newstate == READING && tcp)
      || (newstate == WORKING && state == WORKING)
      || (newstate == RECURSING && state == RECURSING)
    }

    /** Between events a client that is to leave its state waits for an operation to complete.  One that
    is not is listening when ready, unless it has been refused, and reading when it has a connection. */
    ghost predicate Settled()
      reads this
    {
      && (state == INACTIVE ==> newstate == NO_STATE)
      && (newstate < state ==> Waiting())
      && (state == READY ==> Waiting() || refused)
      && (state == READING ==> Waiting() || connecting)
    }

    ghost predicate Waiting()
      reads this
    {
      if state >= WORKING then nupdates + nsends + references > 0
      else if state == READING then nreads > 0
      else naccepts + nrecvs + nctls > 0
    }

    /** The invariant between events. */
    ghost predicate Ok()
      reads this
    {
      Shape() && Settled()
    }

    /** Freed: nothing outstanding and on neither list. */
    ghost predicate Gone()
      reads this
    {
      state == FREED && newstate == FREED && Ops() == 0 && interface == null && !rlinked && !ilinked && !connecting
    }

    /** How many accepts its interface counts besides the client's own. */
    ghost function OtherAccepts(): int
      reads this, interface
    {
      if interface == null then 0 else interface.ntcpcurrent - naccepts
    }

    /** Whatever happens, the client is not moved to another interface nor put on the recursing list, and
    the interface's count of accepts changes as the client's own does. */
    ghost predicate Kept(ifp: Interface?, others: int, linked: bool)
      reads this, ifp
    {
      && (interface == null || interface == ifp)
      && (rlinked ==> linked)
      && (ifp != null ==> ifp.ntcpcurrent - naccepts == others)
    }

    // ----- where a client ends up

    /** Everything but the target and the link into the inactive queue. */
    ghost function View(): Fields
      reads this
    {
      Fields(state, naccepts, nreads, nsends, nrecvs, nupdates, nctls, references, tcp, mortal, recursionquota,
             tcpmsgValid, timerset, rlinked, interface)
    }

    /** Waiting for the next connection or request, if the library lets it. */
    ghost predicate Listening(w: World, tcpClient: bool)
      reads this
    {
      && Ok() && state == READY && tcp == tcpClient && !rlinked
      && naccepts == (if tcp && w.acceptOk then 1 else 0)
      && nrecvs == (if !tcp && w.recvOk then 1 else 0)
      && nctls == 0
    }

    ghost predicate Reading()
      reads this
    {
      Ok() && state == READING && tcp && nreads == 1 && timerset && !rlinked && !connecting
    }

    /** Inactive, and on the queue of inactive clients unless these are not reused. */
    ghost predicate Parked(w: World)
      reads this
    {
      Ok() && state == INACTIVE && newstate == NO_STATE && (ilinked <==> !w.clienttest && !w.exiting)
    }

    /** Whether the client is to listen again: it has not been replaced, or its interface wants it back. */
    ghost predicate Stays(w: World)
      reads this, interface
    {
      !mortal || (tcp && !w.clienttest && interface != null && interface.ntcpcurrent < interface.ntcptarget)
    }

    ghost predicate Wanted(w: World)
      reads this, interface
    {
      tcp && !w.clienttest && interface != null && OtherAccepts() < interface.ntcptarget
    }

    /** Where an idle client ends up that was to leave for `target`. */
    ghost predicate Arrived(target: nat, w: World, stays: bool, tcpClient: bool)
      reads this
    {
      if target == FREED then Gone()
      else if target == READING && w.readOk then Reading() && newstate == NO_STATE
      else if target == INACTIVE || !stays then Parked(w)
      else Listening(w, tcpClient) && newstate == NO_STATE && !mortal
    }

    /** A request that loses an operation: it goes on with the others, or ends. */
    ghost predicate GoesOn(v: Fields, target: nat, w: World, stays: bool)
      reads this
    {
      if v.nupdates + v.nsends + v.references > 0 then View() == v && newstate == target
      else Arrived(target, w, stays, v.tcp)
    }

    ghost predicate Started(w: World, was: Fields, target: nat, stays: bool)
      reads this
    {
      if target < READY then Arrived(target, w, stays, was.tcp)
      else Listening(w, was.tcp) && newstate == target && mortal == was.mortal
    }

    ghost predicate Requested(ok: bool, w: World, was: Fields, target: nat, stays: bool)
      reads this
    {
      if target < was.state then Arrived(target, w, stays, was.tcp)
      else if !ok && was.tcp then Arrived(READY, w, stays, true)
      else Ok() && state == newstate == WORKING && Ops() == 0 && tcp == was.tcp && mortal == was.mortal
    }

    ghost predicate TimedOut(w: World, was: Fields, target: nat, stays: bool)
      reads this
    {
      if was.state >= WORKING then GoesOn(was, Lowered(target, false), w, stays)
      else if was.nreads > 0 then View() == was && newstate == Lowered(target, false)
      else Arrived(Lowered(target, false), w, stays, was.tcp)
    }

    ghost predicate Detached(w: World, was: Fields, target: nat, stays: bool)
      reads this
    {
      && was.references > 0
      && var v := was.(references := was.references - 1);
      if target >= was.state then View() == v && newstate == target else GoesOn(v, target, w, stays)
    }

    ghost predicate Updated(sent: bool, w: World, was: Fields, target: nat, stays: bool)
      reads this
    {
      if sent || was.nupdates + was.nsends + was.references > 2 then
        && newstate == (if sent then target else Lowered(target, false))
        && state == was.state && tcp == was.tcp && mortal == was.mortal && nupdates == was.nupdates - 1
        && references == was.references - 1 && nsends == was.nsends + if sent then 1 else 0
      else Arrived(Lowered(target, false), w, stays, was.tcp)
    }

    // ----- starting operations

    /** `client_accept`. */
    method Accept(w: World)
      requires Shape() && OtherAccepts() >= 0 && state == READY && tcp && naccepts == 0 && nctls == 0
      modifies this`naccepts, this`refused, interface
      ensures Shape() && naccepts == (if w.acceptOk then 1 else 0) && (naccepts == 0 ==> refused)
      ensures OtherAccepts() == old(OtherAccepts())
    {
      refused := !w.acceptOk;
      if !w.acceptOk {
        return;
      }
      assert naccepts == 0;
      naccepts := naccepts + 1;
      interface.ntcpcurrent := interface.ntcpcurrent + 1;
    }

    /** `client_udprecv`. */
    method UdpRecv(w: World)
      requires Shape() && state == READY && !tcp && nrecvs == 0 && nctls == 0
      modifies this`nrecvs, this`refused
      ensures Shape() && nrecvs == (if w.recvOk then 1 else 0) && (nrecvs == 0 ==> refused)
    {
      refused := !w.recvOk;
      if !w.recvOk {
        return;
      }
      assert nrecvs == 0;
      nrecvs := nrecvs + 1;
    }

    /** `client_read`; when the read cannot be started the connection is given up. */
    method Read(w: World)
      requires Shape() && OtherAccepts() >= 0 && state == READING && tcp && nreads == 0 && (newstate == READING || newstate == NO_STATE)
      modifies this, interface
      ensures Kept(old(interface), old(OtherAccepts()), old(rlinked))
      ensures w.readOk ==> Reading() && newstate == READING && mortal == old(mortal)
      ensures !w.readOk ==> Arrived(READY, w, old(Stays(w)), true)
      ensures Ok()
      decreases 3
    {
      connecting := false;
      if !w.readOk {
        Next(false, w);
        return;
      }
      timerset := true;
      state, newstate := READING, READING;
      assert nreads == 0;
      assert !recursionquota;
      nreads := nreads + 1;
    }

    /** The lower of the target and what comes after a request. */
    ghost function NextTarget(success: bool): nat
      reads this
    {
      Lowered(newstate, success && tcp)
    }

    /** `ns_client_next`: the target is lowered, to reading on the same connection or to listening again. */
    method Next(success: bool, w: World)
      requires Shape() && OtherAccepts() >= 0 && !connecting && state >= READING
      requires state == READING ==> !success && nreads == 0 && newstate >= READING
      modifies this, interface
      ensures Kept(old(interface), old(OtherAccepts()), old(rlinked))
      ensures old(Waiting()) ==> Ok() && View() == old(View()) && newstate == old(NextTarget(success))
      ensures !old(Waiting()) ==> Arrived(old(NextTarget(success)), w, old(Stays(w)), old(tcp))
      ensures !connecting && (if old(newstate) == FREED then Draining(old(state), old(Ops())) else Ok())
      decreases if state >= WORKING then 7 else 2
    {
      assert state == WORKING || state == RECURSING || state == READING;
      var target := if success && tcp then READING else READY;
      if newstate > target {
        newstate := target;
      }
      var _ := ExitCheck(w);
    }

    /** On the way to being freed from state `from` with `ops` operations outstanding: freed exactly
    when there were none; otherwise still to be freed, with no new operation and no higher state. */
    ghost predicate Draining(from: nat, ops: nat)
      reads this
    {
      if ops == 0 then Gone()
      else Ok() && newstate == FREED && Ops() == ops && state <= from
    }

    /** `exit_check`: leave the current state for the target, one state at a time, unless an operation
    is still outstanding.  The client must not be used afterwards when this reports true. */
    method ExitCheck(w: World) returns (leaving: bool)
      requires Shape() && OtherAccepts() >= 0 && !ilinked && !connecting
      modifies this, interface
      ensures Kept(old(interface), old(OtherAccepts()), old(rlinked))
      ensures leaving <==> old(state) > old(newstate)
      ensures !leaving || old(Waiting()) ==> unchanged(this)
      ensures leaving && !old(Waiting()) ==> Arrived(old(newstate), w, old(Stays(w)), old(tcp))
      ensures leaving ==> if old(newstate) == FREED then Draining(old(state), old(Ops())) else Ok()
      decreases if state >= WORKING then 6 else 1
    {
      if state <= newstate {
        return false;
      }
      leaving := true;
      assert newstate < RECURSING;
      if state == WORKING || state == RECURSING {
        var stop := AbortRequest(w);
        if stop {
          return;
        }
      }
      Descend(w);
    }

    /** The part of `exit_check` below request processing. */
    method Descend(w: World)
      requires Shape() && OtherAccepts() >= 0 && !ilinked && !connecting && newstate < state <= READING
      modifies this, interface
      ensures Kept(old(interface), old(OtherAccepts()), old(rlinked))
      ensures old(Waiting()) ==> unchanged(this) && Ok()
      ensures !old(Waiting()) ==> Arrived(old(newstate), w, old(Stays(w)), old(tcp))
      decreases 0, 1
    {
      if state == READING {
        var stop := CloseConnection(w);
        if stop {
          return;
        }
      }
      if state == READY {
        var stop := Deactivate(w);
        if stop {
          return;
        }
      }
      if state == INACTIVE {
        assert newstate == FREED;
        assert !recursionquota;
        assert !ilinked;
        state := FREED;
      }
    }

    /** Aborting request processing. */
    method AbortRequest(w: World) returns (stop: bool)
      requires Shape() && OtherAccepts() >= 0 && !ilinked && state >= WORKING && newstate < state
      modifies this, interface
      ensures Kept(old(interface), old(OtherAccepts()), old(rlinked))
      ensures old(Waiting()) ==> unchanged(this) && stop && Ok()
      ensures !old(Waiting()) ==> (stop <==> old(newstate) == READING)
      ensures !old(Waiting()) && stop ==> Ok() && Arrived(READING, w, old(Stays(w)), old(tcp))
      ensures !stop ==> Shape() && state == READING && newstate == old(newstate) <= READY && old(Ops()) == Ops() == 0
                        && !rlinked && !connecting && tcp == old(tcp) && Stays(w) == old(Stays(w)) && interface == old(interface)
      decreases 5
    {
      assert newstate <= READING;
      if nupdates > 0 {
        return true;
      }
      if !(nsends == 0 && nrecvs == 0 && references == 0) {
        return true;
      }
      LeaveRequest();
      if newstate == READING {
        KeepConnection(w);
        return true;
      }
      return false;
    }

    /** Off the recursing list and done with the request. */
    method LeaveRequest()
      requires Shape() && state >= WORKING && Ops() == 0 && newstate <= READING
      modifies this`rlinked, this`recursionquota, this`state
      ensures Shape() && state == READING && !rlinked && Ops() == 0
    {
      if state == RECURSING && rlinked {
        rlinked := false;
      }
      EndRequest();
      state := READING;
      assert !recursionquota;
    }

    /** Waiting for the next request on the connection. */
    method KeepConnection(w: World)
      requires Shape() && OtherAccepts() >= 0 && state == newstate == READING && Ops() == 0 && !rlinked
      modifies this, interface
      ensures Kept(old(interface), old(OtherAccepts()), old(rlinked))
      ensures Ok() && Arrived(READING, w, old(Stays(w)), old(tcp))
      decreases 4
    {
      Read(w);
      newstate := NO_STATE;
    }

    /** Giving up the TCP connection, if any. */
    method CloseConnection(w: World) returns (stop: bool)
      requires Shape() && OtherAccepts() >= 0 && !connecting && state == READING && newstate < READING
      modifies this, interface
      ensures Kept(old(interface), old(OtherAccepts()), old(rlinked))
      ensures old(Waiting()) ==> unchanged(this) && stop && Ok()
      ensures !old(Waiting()) ==> (stop <==> old(newstate) == READY && old(Stays(w)))
      ensures !old(Waiting()) && stop ==> Listening(w, old(tcp)) && newstate == NO_STATE && !mortal
      ensures !stop ==> Shape() && state == READY && old(Ops()) == Ops() == 0 && !refused
      ensures !stop ==> newstate == if old(newstate) == FREED then FREED else INACTIVE
      ensures !rlinked
      decreases 0, 0
    {
      assert !recursionquota;
      assert newstate <= READY;
      if nreads > 0 {
        return true;
      }
      assert Ops() == 0;
      DropConnection(w);
      if newstate == READY {
        Listen(w);
        return true;
      }
      return false;
    }

    /** The connection is closed; a client that has been replaced and is not wanted back goes inactive. */
    method DropConnection(w: World)
      requires Shape() && OtherAccepts() >= 0 && !connecting && state == READING && newstate < READING && Ops() == 0
      modifies this`tcpmsgValid, this`timerset, this`state, this`mortal, this`newstate
      ensures Shape() && state == READY && Ops() == 0
      ensures mortal == !old(Stays(w))
      ensures newstate == if old(newstate) == READY && !old(Stays(w)) then INACTIVE else old(newstate)
    {
      tcpmsgValid, timerset := false, false;
      state := READY;
      assert !recursionquota;
      if mortal && tcp && !w.clienttest && interface.ntcpcurrent < interface.ntcptarget {
        mortal := false;
      }
      if mortal && newstate > INACTIVE {
        newstate := INACTIVE;
      }
    }

    /** Waiting for the next connection or request. */
    method Listen(w: World)
      requires Shape() && OtherAccepts() >= 0 && state == READY && Ops() == 0
      modifies this`naccepts, this`nrecvs, this`newstate, this`refused, interface
      ensures Listening(w, tcp) && newstate == NO_STATE && OtherAccepts() == old(OtherAccepts())
    {
      if tcp {
        Accept(w);
      } else {
        UdpRecv(w);
      }
      newstate := NO_STATE;
    }

    /** Entering the inactive state. */
    method Deactivate(w: World) returns (stop: bool)
      requires Shape() && OtherAccepts() >= 0 && state == READY && newstate < READY
      modifies this, interface
      ensures Kept(old(interface), old(OtherAccepts()), old(rlinked))
      ensures old(Waiting()) ==> unchanged(this) && stop && Ok()
      ensures !old(Waiting()) ==> (stop <==> old(newstate) == INACTIVE)
      ensures !old(Waiting()) && stop ==> Parked(w)
      ensures !stop ==> Shape() && state == INACTIVE && newstate == old(newstate) == FREED && Ops() == old(Ops()) == 0
                        && !ilinked
      ensures !rlinked
      decreases 0, 0
    {
      assert newstate <= INACTIVE;
      if naccepts > 0 {
        return true;
      }
      if nrecvs > 0 {
        return true;
      }
      if nctls > 0 {
        return true;
      }
      stop := Park(w);
    }

    method Park(w: World) returns (stop: bool)
      requires Shape() && state == READY && newstate < READY && Ops() == 0
      modifies this
      ensures naccepts == 0 && !rlinked && interface == null && Shape() && Ops() == 0 && state == INACTIVE
      ensures stop <==> old(newstate) == INACTIVE
      ensures stop ==> Parked(w)
      ensures !stop ==> newstate == old(newstate) == FREED && !ilinked
    {
      interface := null;
      assert naccepts == 0;
      assert !recursionquota;
      tcp, mortal := false, false;
      state, refused := INACTIVE, false;
      if state == newstate {
        newstate := NO_STATE;
        if !w.clienttest && !w.exiting {
          ilinked := true;
        }
        return true;
      }
      return false;
    }

    /** `ns_client_endrequest`. */
    method EndRequest()
      requires Shape() && state >= WORKING && nsends == 0 && nupdates == 0 && references == 0
      modifies this`recursionquota
      ensures Shape() && !recursionquota
    {
      assert naccepts == 0 && nreads == 0 && nsends == 0 && nrecvs == 0 && nupdates == 0;
      assert state == WORKING || state == RECURSING;
      recursionquota := false;
    }

    // ----- events

    /** Part of `get_client`: an inactive client is put to work on an interface. */
    method Activate(ifp: Interface, tcp: bool)
      requires Ok() && state == INACTIVE
      modifies this
      ensures Ok() && state == READY && newstate == NO_STATE && interface == ifp && Ops() == 1 && nctls == 1
      ensures this.tcp == tcp && !mortal && !rlinked && !ilinked && !connecting
    {
      ilinked := false;
      interface := ifp;
      state := READY;
      assert !recursionquota;
      this.tcp := tcp;
      assert nctls == 0;
      nctls := nctls + 1;
    }

    /** `client_start`: the client listens, or leaves for its target. */
    method Start(w: World)
      requires Ok() && OtherAccepts() >= 0 && nctls > 0
      modifies this, interface
      ensures Kept(old(interface), old(OtherAccepts()), old(rlinked))
      ensures Started(w, old(View()), old(newstate), old(Stays(w)))
      ensures Ok() || Gone()
      ensures Drains(old(newstate), old(state), old(Ops()))
    {
      assert nctls == 1;
      nctls := nctls - 1;
      var leaving := ExitCheck(w);
      if leaving {
        return;
      }
      if tcp {
        Accept(w);
      } else {
        UdpRecv(w);
      }
    }

    /** What a completion event does to a client that is to be freed: the target stays, and either the
    completed operation was the last one and the client is freed, or one operation fewer is
    outstanding and the state is no higher.  A client that is not to be freed is not. */
    ghost predicate Drains(target: nat, from: nat, ops: nat)
      reads this
      requires ops > 0
    {
      if target == FREED then Draining(from, ops - 1) else Ok()
    }

    /** `client_shutdown`. */
    method Shutdown(w: World)
      requires Ok() && OtherAccepts() >= 0
      modifies this, interface
      ensures Kept(old(interface), old(OtherAccepts()), old(rlinked))
      ensures Draining(old(state), old(Ops()))
      ensures old(Ops()) > 0 ==> View() == old(View())
    {
      ilinked, connecting := false, false;
      newstate := FREED;
      var _ := ExitCheck(w);
    }

    /** `client_newconn` up to the point where a replacement client is asked for; reports whether that
    point is reached. */
    method NewConn(ok: bool, blackholed: bool, w: World) returns (reading: bool)
      requires Ok() && OtherAccepts() >= 0 && naccepts > 0
      modifies this, interface
      ensures Kept(old(interface), old(OtherAccepts()), old(rlinked))
      ensures Ok() || Gone()
      ensures reading <==> ok && !blackholed && old(newstate) >= READING
      ensures connecting <==> reading
      ensures reading ==> Connected() && mortal == old(mortal)
      ensures !reading && ok && old(newstate) >= READING ==> Arrived(READY, w, !old(mortal) || old(Wanted(w)), true)
      ensures old(newstate) < (if ok then READING else READY) ==>
                Arrived(old(newstate), w, !old(mortal) || old(Wanted(w)), true)
      ensures !ok && old(newstate) >= READY ==>
                Ok() && state == READY && Ops() == 0 && refused && newstate == old(newstate)
      ensures Drains(old(newstate), old(state), old(Ops()))
    {
      assert state == READY;
      assert naccepts == 1;
      naccepts := naccepts - 1;
      assert interface.ntcpcurrent > 0;
      interface.ntcpcurrent := interface.ntcpcurrent - 1;
      if ok {
        state := READING;
        assert !recursionquota;
      }
      var leaving := ExitCheck(w);
      if leaving {
        return false;
      }
      if !ok {
        refused := true;
        return false;
      }
      reading := Connection(blackholed, w);
    }

    method Connection(blackholed: bool, w: World) returns (reading: bool)
      requires Shape() && OtherAccepts() >= 0 && state == READING && tcp && !tcpmsgValid && !timerset && Ops() == 0 && newstate >= READING
      requires !connecting
      modifies this, interface
      ensures Kept(old(interface), old(OtherAccepts()), old(rlinked))
      ensures reading <==> !blackholed
      ensures connecting <==> reading
      ensures reading ==> Connected() && mortal == old(mortal)
      ensures !reading ==> Ok() && Arrived(READY, w, old(Stays(w)), true)
    {
      if blackholed {
        newstate := READY;
        var _ := ExitCheck(w);
        return false;
      }
      assert !tcpmsgValid;
      tcpmsgValid := true;
      connecting := true;
      return true;
    }

    /** A TCP connection has been accepted and nothing has been read from it. */
    ghost predicate Connected()
      reads this
    {
      Ok() && connecting && newstate >= READING
    }

    /** The rest of `client_newconn`. */
    method ReadFirst(replaced: bool, w: World)
      requires Connected() && OtherAccepts() >= 0
      modifies this, interface
      ensures Kept(old(interface), old(OtherAccepts()), old(rlinked))
      ensures Ok() && !rlinked && !connecting
      ensures w.readOk ==> Reading() && newstate == READING && mortal == (old(mortal) || replaced)
      ensures !w.readOk ==> Arrived(READY, w, (!old(mortal) && !replaced) || old(Wanted(w)), true)
    {
      if replaced {
        mortal := true;
      }
      Read(w);
    }

    /** `client_request` as far as the start of request processing. */
    method Request(success: bool, w: World)
      requires Ok() && OtherAccepts() >= 0 && nrecvs + nreads > 0
      modifies this, interface
      ensures Kept(old(interface), old(OtherAccepts()), old(rlinked))
      ensures Ok() || Gone()
      ensures Drains(old(newstate), old(state), old(Ops()))
      ensures Requested(success, w, old(View()), old(newstate), old(Stays(w)))
    {
      assert !recursionquota;
      assert state == if tcp then READING else READY;
      if !tcp {
        nrecvs := nrecvs - 1;
      } else {
        assert nreads == 1;
        nreads := nreads - 1;
      }
      var leaving := ExitCheck(w);
      if leaving {
        return;
      }
      Begin(success, w);
    }

    /** A request is to be worked on, unless its connection failed. */
    method Begin(success: bool, w: World)
      requires Shape() && OtherAccepts() >= 0 && !connecting && !rlinked && !ilinked && Ops() == 0
      requires state == if tcp then READING else READY
      modifies this, interface
      ensures Kept(old(interface), old(OtherAccepts()), old(rlinked))
      ensures Ok() && !connecting
      ensures success || !old(tcp) ==>
                state == newstate == WORKING && Ops() == 0 && tcp == old(tcp) && mortal == old(mortal)
      ensures !success && old(tcp) ==> Arrived(READY, w, old(Stays(w)), true)
    {
      state, newstate := WORKING, WORKING;
      refused := false;
      if !success && tcp {
        Next(false, w);
      }
    }

    /** `client_senddone`. */
    method SendDone(w: World)
      requires Ok() && OtherAccepts() >= 0 && nsends > 0
      modifies this, interface
      ensures Kept(old(interface), old(OtherAccepts()), old(rlinked))
      ensures Ok() || Gone()
      ensures Drains(old(newstate), old(state), old(Ops()))
      ensures GoesOn(old(View()).(nsends := old(nsends) - 1), old(Lowered(newstate, tcp)), w, old(Stays(w)))
    {
      assert nsends > 0;
      nsends := nsends - 1;
      Next(true, w);
    }

    /** `client_timeout`; the timer runs only while there is a connection or a request. */
    method Timeout(w: World)
      requires Ok() && OtherAccepts() >= 0 && timerset
      modifies this, interface
      ensures Kept(old(interface), old(OtherAccepts()), old(rlinked))
      ensures old(newstate) != FREED ==> Ok()
      ensures old(newstate) == FREED ==> Draining(old(state), old(Ops()))
      ensures TimedOut(w, old(View()), old(newstate), old(Stays(w)))
    {
      if newstate > READY {
        newstate := READY;
      }
      var _ := ExitCheck(w);
    }

    /** `ns_client_detach`. */
    method Detach(w: World)
      requires Ok() && OtherAccepts() >= 0 && references > nupdates
      modifies this, interface
      ensures Kept(old(interface), old(OtherAccepts()), old(rlinked))
      ensures Ok() || Gone()
      ensures Drains(old(newstate), old(state), old(Ops()))
      ensures Detached(w, old(View()), old(newstate), old(Stays(w)))
      ensures old(nupdates + nsends + references) > 1 ==>
                && newstate == old(newstate) && state == old(state) && tcp == old(tcp) && mortal == old(mortal)
                && nupdates == old(nupdates) && nsends == old(nsends) && references == old(references) - 1
    {
      references := references - 1;
      assert references >= 0;
      var _ := ExitCheck(w);
    }

    /** The end of a dynamic update: it responds, by starting a send or by giving the request up, and
    drops the reference it held. */
    method UpdateDone(sent: bool, w: World)
      requires Ok() && OtherAccepts() >= 0 && nupdates > 0
      modifies this, interface
      ensures Kept(old(interface), old(OtherAccepts()), old(rlinked))
      ensures Ok() || Gone()
      ensures old(newstate) != FREED ==> Ok()
      ensures old(newstate) == FREED ==> Draining(old(state), old(Ops()) - if sent then 1 else 2)
      ensures Updated(sent, w, old(View()), old(newstate), old(Stays(w)))
    {
      if sent {
        UpdateAnswered(w);
      } else {
        UpdateGivenUp(w);
      }
    }

    method UpdateAnswered(w: World)
      requires Ok() && OtherAccepts() >= 0 && nupdates > 0
      modifies this, interface
      ensures Kept(old(interface), old(OtherAccepts()), old(rlinked))
      ensures if old(newstate) == FREED then Draining(old(state), old(Ops()) - 1) else Ok()
      ensures Updated(true, w, old(View()), old(newstate), old(Stays(w)))
    {
      assert nupdates > 0;
      nupdates := nupdates - 1;
      nsends := nsends + 1;
      Detach(w);
    }

    method UpdateGivenUp(w: World)
      requires Ok() && OtherAccepts() >= 0 && nupdates > 0
      modifies this, interface
      ensures Kept(old(interface), old(OtherAccepts()), old(rlinked))
      ensures if old(newstate) == FREED then Draining(old(state), old(Ops()) - 2) else Ok()
      ensures Updated(false, w, old(View()), old(newstate), old(Stays(w)))
    {
      assert nupdates > 0;
      nupdates := nupdates - 1;
      Next(false, w);
      Detach(w);
    }

    /** The end of `ns_client_replace`: another client has taken over listening. */
    method SetMortal()
      requires Ok() && state >= WORKING
      modifies this`mortal
      ensures Ok() && mortal
    {
      mortal := true;
    }

    /** Taking the client off the recursing list; it stays in its state. */
    method Unlink()
      requires Ok()
      modifies this`rlinked
      ensures Ok() && !rlinked
    {
      rlinked := false;
    }

    // ----- steps of the query and update code, taken while there is a request

    /** Request code takes a reference, starts a send or an update, takes or returns the recursion
    quota, or arms the timer. */
    method Work(k: WorkKind)
      requires Ok() && state >= WORKING
      modifies this`references, this`nsends, this`nupdates, this`recursionquota, this`timerset
      ensures Ok() && state == old(state) && newstate == old(newstate) && Ops() >= old(Ops())
      ensures ilinked == old(ilinked) && !connecting
      ensures nsends == old(nsends) + (if k.StartSend? then 1 else 0)
      ensures references == old(references) + (if k.Attach? || k.StartUpdate? then 1 else 0)
      ensures nupdates == old(nupdates) + (if k.StartUpdate? then 1 else 0)
      ensures recursionquota == (if k.TakeQuota? then true else if k.ReturnQuota? then false else old(recursionquota))
      ensures timerset == (old(timerset) || k.SetTimer?)
    {
      match k {
        case Attach => references := references + 1;
        case StartSend => nsends := nsends + 1;
        case StartUpdate => nupdates, references := nupdates + 1, references + 1;
        case TakeQuota => recursionquota := true;
        case ReturnQuota => recursionquota := false;
        case SetTimer => timerset := true;
      }
    }

    /** Whether an event can be delivered: its operation is outstanding, or the task may send it. */
    predicate Enabled(e: Event)
      reads this
    {
      match e
      case Start => nctls > 0
      case Shutdown => true
      case Request(_) => nrecvs + nreads > 0
      case SendDone => nsends > 0
      case Timeout => timerset
      case Detach => references > nupdates
      case UpdateDone(_) => nupdates > 0
      case Next(_) => state >= WORKING
      case Work(_) => state >= WORKING
    }

    /** The event ends an outstanding operation. */
    predicate Completes(e: Event) {
      e.Start? || e.Request? || e.SendDone? || e.Detach? || e.UpdateDone?
    }

    /** A client that is to leave its state has an operation outstanding that can complete. */
    lemma {:induction false} SomethingOutstanding()
      requires Ok() && newstate < state && naccepts == 0
      ensures exists e :: Enabled(e) && Completes(e)
    {
      var e :=
        if nctls > 0 then Event.Start else if nrecvs + nreads > 0 then Event.Request(false)
        else if nsends > 0 then Event.SendDone else if nupdates > 0 then Event.UpdateDone(false) else Event.Detach;
      assert Enabled(e) && Completes(e);
    }

    /** Any event keeps the invariant or frees the client, and a client that is to be freed stays so. */
    method Handle(e: Event, w: World)
      requires Ok() && OtherAccepts() >= 0 && Enabled(e)
      modifies this, interface
      ensures Kept(old(interface), old(OtherAccepts()), old(rlinked))
      ensures (Ok() || Gone()) && !connecting
      ensures old(newstate) == FREED ==> newstate == FREED
      ensures e.Shutdown? ==> Draining(old(state), old(Ops()))
      ensures old(newstate) == FREED && Completes(e) ==> Gone() || (Ok() && Ops() < old(Ops()) && state <= old(state))
    {
      if Completes(e) {
        Complete(e, w);
      } else if e.Work? {
        Work(e.k);
      } else {
        Ask(e, w);
      }
    }

    /** An event that ends an operation. */
    method Complete(e: Event, w: World)
      requires Ok() && OtherAccepts() >= 0 && Enabled(e) && Completes(e)
      modifies this, interface
      ensures Kept(old(interface), old(OtherAccepts()), old(rlinked))
      ensures (Ok() || Gone()) && !connecting
      ensures old(newstate) == FREED ==> newstate == FREED && (Gone() || (Ok() && Ops() < old(Ops()) && state <= old(state)))
    {
      match e {
        case Start => Start(w);
        case Request(ok) => Request(ok, w);
        case SendDone => SendDone(w);
        case Detach => Detach(w);
        case UpdateDone(sent) => UpdateDone(sent, w);
      }
    }

    /** An event that asks the client to leave its state. */
    method Ask(e: Event, w: World)
      requires Ok() && OtherAccepts() >= 0 && Enabled(e) && (e.Shutdown? || e.Timeout? || e.Next?)
      modifies this, interface
      ensures Kept(old(interface), old(OtherAccepts()), old(rlinked))
      ensures (Ok() || Gone()) && !connecting
      ensures old(newstate) == FREED ==> newstate == FREED
      ensures e.Shutdown? ==> Draining(old(state), old(Ops()))
    {
      match e {
        case Shutdown => Shutdown(w);
        case Timeout => Timeout(w);
        case Next(ok) => Next(ok, w);
      }
    }

    /** `ns_client_recursing`.  It sets the target too: a lower target that was pending is lost. */
    method Recursing()
      requires Ok()
      requires state == WORKING
      modifies this
      ensures Ok() && newstate == RECURSING && !ilinked && !connecting
      ensures View() == old(View()).(state := RECURSING, rlinked := true)
      ensures rlinked && interface == old(interface) && naccepts == old(naccepts)
    {
      newstate, state := RECURSING, RECURSING;
      rlinked := true;
    }
  }

  datatype Event = Start | Shutdown | Request(ok: bool) | SendDone | Timeout | Detach | UpdateDone(sent: bool)
                 | Next(ok: bool) | Work(k: WorkKind)

  /** The target after a request, at which the connection may be kept or not. */
  function Lowered(target: nat, keep: bool): nat {
    var t := if keep then READING else READY;
    if target > t then t else target
  }

  datatype Fields = Fields(
    state: nat, naccepts: nat, nreads: nat, nsends: nat, nrecvs: nat, nupdates: nat, nctls: nat, references: nat,
    tcp: bool, mortal: bool, recursionquota: bool, tcpmsgValid: bool, timerset: bool, rlinked: bool,
    interface: Interface?)

  datatype WorkKind = Attach | StartSend | StartUpdate | TakeQuota | ReturnQuota | SetTimer
}
