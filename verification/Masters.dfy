/** Flattening a masters list (`ns_config_getipandkeylist`): named lists may refer to each other, also
in cycles, and are expanded in place the first time they are met. */
module Masters {
  import opened Options

  datatype Sockaddr = Sockaddr(ip: nat, port: nat)

  /** An element of a list: an address with an optional key name, or the name of another list. */
  datatype Element = Address(addr: Sockaddr, key: Option<string>) | ListName(name: string)

  /** A named list with an optional port for the addresses that have none. */
  datatype Masters = Masters(name: string, port: Option<nat>, elements: seq<Element>)

  /** The named lists in the order of the configuration, and the server's own port. */
  datatype Config = Config(defs: seq<Masters>, port: nat)

  datatype Error = PortOutOfRange | ListNotFound | BadKey

  datatype Result<+T> = Ok(value: T) | Err(error: Error)

  /** One server of the flattened list. */
  datatype Server = Server(addr: Sockaddr, key: Option<string>)

  const MAX_PORT: nat := 65535

  function FoldChar(c: char): char {
    if 'A' <= c <= 'Z' then c - 'A' + 'a' else c
  }

  /** Names are compared without regard to case. */
  function Fold(s: string): (t: string)
    ensures |t| == |s|
  {
    seq(|s|, i requires 0 <= i < |s| => FoldChar(s[i]))
  }

  /** The index of the first list with this name; the number of lists if there is none. */
  function Find(defs: seq<Masters>, folded: string): (k: nat)
    ensures k <= |defs| && (k < |defs| ==> Fold(defs[k].name) == folded)
    ensures forall i :: 0 <= i < k ==> Fold(defs[i].name) != folded
  {
    if defs == [] || Fold(defs[0].name) == folded then 0 else 1 + Find(defs[1..], folded)
  }

  /** `get_masters_def`. */
  method GetMastersDef(cfg: Config, name: string) returns (r: Option<Masters>)
    ensures var k := Find(cfg.defs, Fold(name));
            r == if k < |cfg.defs| then Some(cfg.defs[k]) else None
  {
    var k := 0;
    while k < |cfg.defs|
      invariant 0 <= k <= |cfg.defs|
      invariant forall i :: 0 <= i < k ==> Fold(cfg.defs[i].name) != Fold(name)
    {
      if Fold(cfg.defs[k].name) == Fold(name) {
        return Some(cfg.defs[k]);
      }
      k := k + 1;
    }
    return None;
  }

  /** The port for the addresses of a list that have none.  The server's own port may not be the
  largest one, a list's port may. */
  function ListPort(cfg: Config, port: Option<nat>): (r: Result<nat>) {
    if port.Some? then (if port.value > MAX_PORT then Err(PortOutOfRange) else Ok(port.value))
    else if cfg.port >= MAX_PORT then Err(PortOutOfRange)
    else Ok(cfg.port)
  }

  function WithPort(a: Sockaddr, port: nat): Sockaddr {
    if a.port == 0 then a.(port := port) else a
  }

  // ----- the meaning: a recursive, left-to-right expansion

  ghost function Names(cfg: Config): set<string> {
    set d | d in cfg.defs :: Fold(d.name)
  }

  lemma {:induction false} FoundIsNamed(cfg: Config, folded: string)
    requires Find(cfg.defs, folded) < |cfg.defs|
    ensures folded in Names(cfg)
  {
    var k := Find(cfg.defs, folded);
    assert cfg.defs[k] in cfg.defs;
  }

  datatype Expansion = Expansion(servers: seq<Server>, seen: set<string>)

  /** The servers of a run of elements and the list names met by its end.  A list met before
  contributes nothing. */
  ghost function Expand(cfg: Config, keyOk: string -> bool, els: seq<Element>, port: nat, seen: set<string>)
    : (r: Result<Expansion>)
    ensures r.Ok? ==> seen <= r.value.seen
    decreases |Names(cfg) - seen|, |els|
  {
    if els == [] then Ok(Expansion([], seen))
    else
      match els[0]
      case Address(a, key) =>
        if key.Some? && !keyOk(key.value) then Err(BadKey)
        else
          var rest := Expand(cfg, keyOk, els[1..], port, seen);
          if rest.Err? then rest
          else Ok(Expansion([Server(WithPort(a, port), key)] + rest.value.servers, rest.value.seen))
      case ListName(name) =>
        var n := Fold(name);
        var k := Find(cfg.defs, n);
        if n in seen then Expand(cfg, keyOk, els[1..], port, seen)
        else if k == |cfg.defs| then Err(ListNotFound)
        else
          var p := ListPort(cfg, cfg.defs[k].port);
          if p.Err? then Err(p.error)
          else
            FoundIsNamed(cfg, n);
            assert Names(cfg) - (seen + {n}) < Names(cfg) - seen;
            SmallerSet(Names(cfg) - (seen + {n}), Names(cfg) - seen);
            var inner := Expand(cfg, keyOk, cfg.defs[k].elements, p.value, seen + {n});
            if inner.Err? then inner
            else
              SubsetSize(Names(cfg) - inner.value.seen, Names(cfg) - seen);
              var rest := Expand(cfg, keyOk, els[1..], port, inner.value.seen);
              if rest.Err? then rest
              else Ok(Expansion(inner.value.servers + rest.value.servers, rest.value.seen))
  }

  lemma {:induction false} SmallerSet(a: set<string>, b: set<string>)
    requires a < b
    ensures |a| < |b|
  {
    var x :| x in b && x !in a;
    SubsetSize(a, b - {x});
  }

  lemma {:induction false} SubsetSize(a: set<string>, b: set<string>)
    requires a <= b
    ensures |a| <= |b|
    decreases a
  {
    if a != {} {
      var x :| x in a;
      SubsetSize(a - {x}, b - {x});
    }
  }

  /** The meaning of a whole list. */
  ghost function Flattened(cfg: Config, keyOk: string -> bool, list: Masters): (r: Result<Expansion>) {
    var p := ListPort(cfg, list.port);
    if p.Err? then Err(p.error) else Expand(cfg, keyOk, list.elements, p.value, {})
  }

  /** The last port may be a list's own but not the one it takes from the server. */
  lemma {:induction false} LastPort(cfg: Config, keyOk: string -> bool, list: Masters)
    ensures list.port == Some(MAX_PORT) ==> Flattened(cfg, keyOk, list) == Expand(cfg, keyOk, list.elements, MAX_PORT, {})
    ensures list.port == None && cfg.port == MAX_PORT ==> Flattened(cfg, keyOk, list) == Err(PortOutOfRange)
  {
  }

  // ----- the loop with its explicit stack

  /** A list whose processing is suspended: the elements still to come and its port. */
  datatype Frame = Frame(rest: seq<Element>, port: nat)

  /** What the loop will return from a given state. */
  ghost function Resume(cfg: Config, keyOk: string -> bool, els: seq<Element>, port: nat, seen: set<string>,
                        stack: seq<Frame>, out: seq<Server>): (r: Result<Expansion>)
    decreases |stack|
  {
    var r := Expand(cfg, keyOk, els, port, seen);
    if r.Err? then r
    else if stack == [] then Ok(Expansion(out + r.value.servers, r.value.seen))
    else
      var top := stack[|stack| - 1];
      Resume(cfg, keyOk, top.rest, top.port, r.value.seen, stack[..|stack| - 1], out + r.value.servers)
  }

  ghost function Pending(stack: seq<Frame>): nat {
    if stack == [] then 0 else Pending(stack[..|stack| - 1]) + |stack[|stack| - 1].rest| + 1
  }

  ghost function SeenSet(lists: seq<string>): set<string> {
    set l | l in lists :: Fold(l)
  }

  function Pair(addrs: seq<Sockaddr>, keys: seq<Option<string>>): (s: seq<Server>)
    requires |addrs| == |keys|
  {
    seq(|addrs|, i requires 0 <= i < |addrs| => Server(addrs[i], keys[i]))
  }

  /** `ns_config_getipandkeylist`.  `addrcount` and `keycount` are the capacities of the two arrays. */
  method GetIpAndKeyList(cfg: Config, keyOk: string -> bool, list: Masters)
    returns (r: Result<seq<Server>>)
    ensures r == match Flattened(cfg, keyOk, list) case Ok(e) => Ok(e.servers) case Err(e) => Err(e)
  {
    var p := ListPort(cfg, list.port);
    if p.Err? {
      return Err(p.error);
    }
    var addrs: seq<Sockaddr>, keys: seq<Option<string>>, addrcount, keycount := [], [], 0, 0;
    var lists: seq<string>, stack: seq<Frame> := [], [];
    var element, port := list.elements, p.value;
    StartStep(cfg, keyOk, list);
    while element != [] || stack != []
      invariant |addrs| == |keys| <= addrcount == keycount
      invariant Resume(cfg, keyOk, element, port, SeenSet(lists), stack, Pair(addrs, keys)) == Flattened(cfg, keyOk, list)
      decreases |Names(cfg) - SeenSet(lists)|, |element| + Pending(stack)
    {
      if element == [] {
        PopStep(cfg, keyOk, port, SeenSet(lists), stack, Pair(addrs, keys));
        element, port, stack := stack[|stack| - 1].rest, stack[|stack| - 1].port, stack[..|stack| - 1];
        continue;
      }
      match element[0] {
        case Address(a, key) =>
          AddressStep(cfg, keyOk, element, port, SeenSet(lists), stack, Pair(addrs, keys));
          if |addrs| == addrcount {
            addrcount := addrcount + 16;
            keycount := addrcount;
          }
          if key.Some? && !keyOk(key.value) {
            return Err(BadKey);
          }
          PairAppend(addrs, keys, WithPort(a, port), key);
          addrs, keys := addrs + [WithPort(a, port)], keys + [key];
          element := element[1..];
        case ListName(name) =>
          ListStep(cfg, keyOk, element, port, SeenSet(lists), stack, Pair(addrs, keys));
          var seen := Seen(lists, name);
          if seen {
            element := element[1..];
            continue;
          }
          var def := GetMastersDef(cfg, name);
          if def == None {
            return Err(ListNotFound);
          }
          var q := ListPort(cfg, def.value.port);
          SeenGrows(cfg, lists, name);
          lists := lists + [name];
          stack := stack + [Frame(element[1..], port)];
          if q.Err? {
            return Err(q.error);
          }
          element, port := def.value.elements, q.value;
      }
    }
    if |addrs| < addrcount {
      addrcount := |addrs|;
      keycount := |addrs|;
    }
    assert keycount == addrcount;
    EndStep(cfg, keyOk, port, SeenSet(lists), Pair(addrs, keys));
    return Ok(Pair(addrs, keys));
  }

  /** The search of the list of names already met. */
  method Seen(lists: seq<string>, name: string) returns (yes: bool)
    ensures yes <==> Fold(name) in SeenSet(lists)
  {
    var j := 0;
    while j < |lists| && Fold(lists[j]) != Fold(name)
      invariant 0 <= j <= |lists| && forall i :: 0 <= i < j ==> Fold(lists[i]) != Fold(name)
    {
      j := j + 1;
    }
    if j < |lists| {
      assert lists[j] in lists;
    }
    return j < |lists|;
  }

  lemma {:induction false} SeenGrows(cfg: Config, lists: seq<string>, name: string)
    requires Fold(name) !in SeenSet(lists) && Find(cfg.defs, Fold(name)) < |cfg.defs|
    ensures SeenSet(lists + [name]) == SeenSet(lists) + {Fold(name)}
    ensures |Names(cfg) - SeenSet(lists + [name])| < |Names(cfg) - SeenSet(lists)|
  {
    forall l | l in lists + [name] ensures l in lists || l == name { }
    assert name in lists + [name];
    assert forall l :: l in lists ==> l in lists + [name];
    assert SeenSet(lists + [name]) == SeenSet(lists) + {Fold(name)};
    FoundIsNamed(cfg, Fold(name));
    assert Fold(name) in Names(cfg) - SeenSet(lists);
    SmallerSet(Names(cfg) - SeenSet(lists + [name]), Names(cfg) - SeenSet(lists));
  }

  lemma {:induction false} PairAppend(addrs: seq<Sockaddr>, keys: seq<Option<string>>, a: Sockaddr, key: Option<string>)
    requires |addrs| == |keys|
    ensures Pair(addrs + [a], keys + [key]) == Pair(addrs, keys) + [Server(a, key)]
  {
  }

  lemma {:induction false} StartStep(cfg: Config, keyOk: string -> bool, list: Masters)
    requires ListPort(cfg, list.port).Ok?
    ensures Resume(cfg, keyOk, list.elements, ListPort(cfg, list.port).value, SeenSet([]), [], Pair([], [])) ==
            Flattened(cfg, keyOk, list)
  {
    assert SeenSet([]) == {} && Pair([], []) == [];
    var r := Expand(cfg, keyOk, list.elements, ListPort(cfg, list.port).value, {});
    if r.Ok? {
      assert [] + r.value.servers == r.value.servers;
    }
  }

  lemma {:induction false} EndStep(cfg: Config, keyOk: string -> bool, port: nat, seen: set<string>, out: seq<Server>)
    ensures Resume(cfg, keyOk, [], port, seen, [], out) == Ok(Expansion(out, seen))
  {
    assert out + [] == out;
  }

  lemma {:induction false} PopStep(cfg: Config, keyOk: string -> bool, port: nat, seen: set<string>, stack: seq<Frame>, out: seq<Server>)
    requires stack != []
    ensures var top := stack[|stack| - 1];
            Resume(cfg, keyOk, [], port, seen, stack, out) ==
            Resume(cfg, keyOk, top.rest, top.port, seen, stack[..|stack| - 1], out)
  {
    assert out + [] == out;
  }

  lemma {:induction false} AddressStep(cfg: Config, keyOk: string -> bool, els: seq<Element>, port: nat, seen: set<string>,
                                       stack: seq<Frame>, out: seq<Server>)
    requires els != [] && els[0].Address?
    ensures var e := els[0];
            Resume(cfg, keyOk, els, port, seen, stack, out) ==
            if e.key.Some? && !keyOk(e.key.value) then Err(BadKey)
            else Resume(cfg, keyOk, els[1..], port, seen, stack, out + [Server(WithPort(e.addr, port), e.key)])
  {
    var e := els[0];
    var rest := Expand(cfg, keyOk, els[1..], port, seen);
    if rest.Ok? {
      var s := [Server(WithPort(e.addr, port), e.key)];
      assert out + (s + rest.value.servers) == out + s + rest.value.servers;
    }
  }

  lemma {:induction false} ListStep(cfg: Config, keyOk: string -> bool, els: seq<Element>, port: nat, seen: set<string>,
                                    stack: seq<Frame>, out: seq<Server>)
    requires els != [] && els[0].ListName?
    ensures var n := Fold(els[0].name);
            var k := Find(cfg.defs, n);
            Resume(cfg, keyOk, els, port, seen, stack, out) ==
            if n in seen then Resume(cfg, keyOk, els[1..], port, seen, stack, out)
            else if k == |cfg.defs| then Err(ListNotFound)
            else
              var p := ListPort(cfg, cfg.defs[k].port);
              if p.Err? then Err(p.error)
              else Resume(cfg, keyOk, cfg.defs[k].elements, p.value, seen + {n}, stack + [Frame(els[1..], port)], out)
  {
    var n := Fold(els[0].name);
    var k := Find(cfg.defs, n);
    if n !in seen && k < |cfg.defs| {
      var p := ListPort(cfg, cfg.defs[k].port);
      if p.Ok? {
        var inner := Expand(cfg, keyOk, cfg.defs[k].elements, p.value, seen + {n});
        var pushed := stack + [Frame(els[1..], port)];
        assert pushed[..|pushed| - 1] == stack;
        if inner.Ok? {
          var rest := Expand(cfg, keyOk, els[1..], port, inner.value.seen);
          if rest.Ok? {
            assert out + (inner.value.servers + rest.value.servers) == out + inner.value.servers + rest.value.servers;
          }
        }
      }
    }
  }

  // ----- what is expanded

  /** The list names that a run of elements mentions. */
  ghost function Mentions(els: seq<Element>): (ns: set<string>) {
    set e | e in els && e.ListName? :: Fold(e.name)
  }

  lemma {:induction false} MentionsStep(els: seq<Element>)
    requires els != []
    ensures Mentions(els) == Mentions(els[1..]) + (if els[0].ListName? then {Fold(els[0].name)} else {})
  {
    assert forall e :: e in els <==> e == els[0] || e in els[1..];
    assert els[0] in els;
  }

  /** The set holds, with every name, the names its list mentions. */
  ghost predicate ClosedUnder(cfg: Config, ns: set<string>, but: set<string>) {
    forall n :: n in ns && n !in but ==> var k := Find(cfg.defs, n); k < |cfg.defs| && Mentions(cfg.defs[k].elements) <= ns
  }

  /** The servers a run of elements contributes itself. */
  ghost function Own(els: seq<Element>, port: nat): (s: set<Server>) {
    set e | e in els && e.Address? :: Server(WithPort(e.addr, port), e.key)
  }

  lemma {:induction false} OwnStep(els: seq<Element>, port: nat)
    requires els != []
    ensures Own(els, port) == Own(els[1..], port)
                              + (if els[0].Address? then {Server(WithPort(els[0].addr, port), els[0].key)} else {})
  {
    assert forall e :: e in els <==> e == els[0] || e in els[1..];
    assert els[0] in els;
  }

  /** The server comes from the named list, with that list's own port. */
  ghost predicate FromList(cfg: Config, n: string, s: Server) {
    var k := Find(cfg.defs, n);
    k < |cfg.defs| && ListPort(cfg, cfg.defs[k].port).Ok?
    && s in Own(cfg.defs[k].elements, ListPort(cfg, cfg.defs[k].port).value)
  }

  /** The servers of an expansion are those of the elements and of the lists newly met. */
  ghost predicate Accounts(cfg: Config, els: seq<Element>, port: nat, seen: set<string>, x: Expansion) {
    forall s :: s in x.servers <==> s in Own(els, port) || exists n :: n in x.seen - seen && FromList(cfg, n, s)
  }

  /** Every list reachable from the elements is met, and no other: the names met are the least set that
  contains those met before and the names mentioned and is closed under the new lists' mentions.
  And the servers are exactly those of the elements and of the newly met lists. */
  lemma {:induction false} ExpandsReachable(cfg: Config, keyOk: string -> bool, els: seq<Element>, port: nat, seen: set<string>)
    requires Expand(cfg, keyOk, els, port, seen).Ok?
    ensures Reached(cfg, els, port, seen, Expand(cfg, keyOk, els, port, seen).value)
    decreases |Names(cfg) - seen|, |els|
  {
    if els == [] {
      assert Mentions(els) == {} && Own(els, port) == {};
    } else {
      MentionsStep(els);
      OwnStep(els, port);
      match els[0] {
        case Address(a, key) =>
          ExpandsReachable(cfg, keyOk, els[1..], port, seen);
          ReachedAddress(cfg, els, port, seen, Expand(cfg, keyOk, els[1..], port, seen).value);
        case ListName(name) =>
          var n := Fold(name);
          if n in seen {
            ExpandsReachable(cfg, keyOk, els[1..], port, seen);
          } else {
            var def := cfg.defs[Find(cfg.defs, n)];
            var p := ListPort(cfg, def.port).value;
            FoundIsNamed(cfg, n);
            assert n in Names(cfg) - seen;
            SmallerSet(Names(cfg) - (seen + {n}), Names(cfg) - seen);
            ExpandsReachable(cfg, keyOk, def.elements, p, seen + {n});
            var inner := Expand(cfg, keyOk, def.elements, p, seen + {n}).value;
            SubsetSize(Names(cfg) - inner.seen, Names(cfg) - seen);
            ExpandsReachable(cfg, keyOk, els[1..], port, inner.seen);
            ReachedList(cfg, els, port, seen, inner, Expand(cfg, keyOk, els[1..], port, inner.seen).value);
          }
      }
    }
  }

  ghost predicate Reached(cfg: Config, els: seq<Element>, port: nat, seen: set<string>, x: Expansion) {
    && seen <= x.seen
    && Mentions(els) <= x.seen
    && ClosedUnder(cfg, x.seen, seen)
    && Accounts(cfg, els, port, seen, x)
    && Least(cfg, els, seen, x.seen)
  }

  ghost predicate Least(cfg: Config, els: seq<Element>, seen: set<string>, met: set<string>) {
    forall t: set<string> :: seen <= t && Mentions(els) <= t && ClosedUnder(cfg, t, seen) ==> met <= t
  }

  lemma {:induction false} ReachedAddress(cfg: Config, els: seq<Element>, port: nat, seen: set<string>, rest: Expansion)
    requires els != [] && els[0].Address? && Reached(cfg, els[1..], port, seen, rest)
    ensures Reached(cfg, els, port, seen,
                    Expansion([Server(WithPort(els[0].addr, port), els[0].key)] + rest.servers, rest.seen))
  {
    MentionsStep(els);
    OwnStep(els, port);
    assert Mentions(els) == Mentions(els[1..]);
  }

  lemma {:induction false} ReachedList(cfg: Config, els: seq<Element>, port: nat, seen: set<string>, inner: Expansion, rest: Expansion)
    requires els != [] && els[0].ListName?
    requires var n := Fold(els[0].name);
             var k := Find(cfg.defs, n);
             n !in seen && k < |cfg.defs| && ListPort(cfg, cfg.defs[k].port).Ok?
             && Reached(cfg, cfg.defs[k].elements, ListPort(cfg, cfg.defs[k].port).value, seen + {n}, inner)
    requires Reached(cfg, els[1..], port, inner.seen, rest)
    ensures Reached(cfg, els, port, seen, Expansion(inner.servers + rest.servers, rest.seen))
  {
    var n := Fold(els[0].name);
    MentionsStep(els);
    AccountsJoin(cfg, els, port, seen, n, inner, rest);
    forall t: set<string> | seen <= t && Mentions(els) <= t && ClosedUnder(cfg, t, seen)
      ensures rest.seen <= t
    {
      assert n in t;
      assert inner.seen <= t;
    }
  }

  lemma {:induction false} AccountsJoin(cfg: Config, els: seq<Element>, port: nat, seen: set<string>, n: string, inner: Expansion, rest: Expansion)
    requires els != [] && els[0].ListName? && n !in seen && seen + {n} <= inner.seen <= rest.seen
    requires var k := Find(cfg.defs, n);
             k < |cfg.defs| && ListPort(cfg, cfg.defs[k].port).Ok?
             && Accounts(cfg, cfg.defs[k].elements, ListPort(cfg, cfg.defs[k].port).value, seen + {n}, inner)
    requires Accounts(cfg, els[1..], port, inner.seen, rest)
    ensures Accounts(cfg, els, port, seen, Expansion(inner.servers + rest.servers, rest.seen))
  {
    OwnStep(els, port);
    forall s
      ensures s in inner.servers + rest.servers <==>
              s in Own(els, port) || exists m :: m in rest.seen - seen && FromList(cfg, m, s)
    {
      if s in inner.servers && !FromList(cfg, n, s) {
        var m :| m in inner.seen - (seen + {n}) && FromList(cfg, m, s);
        assert m in rest.seen - seen;
      }
      if s in rest.servers && s !in Own(els[1..], port) {
        var m :| m in rest.seen - inner.seen && FromList(cfg, m, s);
        assert m in rest.seen - seen;
      }
      if m :| m in rest.seen - seen && FromList(cfg, m, s) {
        if m == n {
        } else if m in inner.seen {
          assert m in inner.seen - (seen + {n});
        } else {
          assert m in rest.seen - inner.seen;
        }
      }
    }
  }

  // ----- the result, field by field

  /** The server stands in the list: its address and key are those of an element, its port the element's
  own or, if that has none, the list's own or, if that has none, the server's. */
  ghost predicate StandsIn(cfg: Config, elements: seq<Element>, listPort: Option<nat>, s: Server) {
    exists i :: 0 <= i < |elements| && elements[i].Address?
                && s.addr.ip == elements[i].addr.ip && s.key == elements[i].key
                && s.addr.port == (if elements[i].addr.port != 0 then elements[i].addr.port
                                   else if listPort.Some? then listPort.value
                                   else cfg.port)
  }

  lemma {:induction false} OwnStands(cfg: Config, elements: seq<Element>, listPort: Option<nat>, s: Server)
    requires ListPort(cfg, listPort).Ok?
    ensures s in Own(elements, ListPort(cfg, listPort).value) <==> StandsIn(cfg, elements, listPort, s)
  {
    if StandsIn(cfg, elements, listPort, s) {
      var i :| 0 <= i < |elements| && elements[i].Address?
               && s.addr.ip == elements[i].addr.ip && s.key == elements[i].key
               && s.addr.port == (if elements[i].addr.port != 0 then elements[i].addr.port
                                  else if listPort.Some? then listPort.value
                                  else cfg.port);
      assert elements[i] in elements;
    }
    if s in Own(elements, ListPort(cfg, listPort).value) {
      var e :| e in elements && e.Address? && s == Server(WithPort(e.addr, ListPort(cfg, listPort).value), e.key);
      var i :| 0 <= i < |elements| && elements[i] == e;
    }
  }

  /** The servers of a flattened list are exactly those that stand in it or in a list met. */
  lemma {:induction false} ServersStandInLists(cfg: Config, keyOk: string -> bool, list: Masters, s: Server)
    requires Flattened(cfg, keyOk, list).Ok?
    ensures var x := Flattened(cfg, keyOk, list).value;
            s in x.servers <==>
                 || StandsIn(cfg, list.elements, list.port, s)
                 || exists n :: n in x.seen && var k := Find(cfg.defs, n);
                                            k < |cfg.defs| && StandsIn(cfg, cfg.defs[k].elements, cfg.defs[k].port, s)
  {
    var p := ListPort(cfg, list.port).value;
    var x := Flattened(cfg, keyOk, list).value;
    ExpandsReachable(cfg, keyOk, list.elements, p, {});
    OwnStands(cfg, list.elements, list.port, s);
    ListsHavePorts(cfg, keyOk, list.elements, p, {});
    forall n | n in x.seen
      ensures FromList(cfg, n, s) <==>
              var k := Find(cfg.defs, n); k < |cfg.defs| && StandsIn(cfg, cfg.defs[k].elements, cfg.defs[k].port, s)
    {
      var k := Find(cfg.defs, n);
      assert ListPort(cfg, cfg.defs[k].port).Ok?;
      OwnStands(cfg, cfg.defs[k].elements, cfg.defs[k].port, s);
    }
    assert x.seen - {} == x.seen;
  }

  /** The lists met have ports in range. */
  lemma {:induction false} ListsHavePorts(cfg: Config, keyOk: string -> bool, els: seq<Element>, port: nat, seen: set<string>)
    requires Expand(cfg, keyOk, els, port, seen).Ok?
    ensures forall n :: n in Expand(cfg, keyOk, els, port, seen).value.seen - seen ==>
                          var k := Find(cfg.defs, n); k < |cfg.defs| && ListPort(cfg, cfg.defs[k].port).Ok?
    decreases |Names(cfg) - seen|, |els|
  {
    if els != [] {
      match els[0] {
        case Address(a, key) =>
          ListsHavePorts(cfg, keyOk, els[1..], port, seen);
        case ListName(name) =>
          var n := Fold(name);
          if n in seen {
            ListsHavePorts(cfg, keyOk, els[1..], port, seen);
          } else {
            var def := cfg.defs[Find(cfg.defs, n)];
            var p := ListPort(cfg, def.port).value;
            FoundIsNamed(cfg, n);
            assert n in Names(cfg) - seen;
            SmallerSet(Names(cfg) - (seen + {n}), Names(cfg) - seen);
            ListsHavePorts(cfg, keyOk, def.elements, p, seen + {n});
            var inner := Expand(cfg, keyOk, def.elements, p, seen + {n}).value;
            SubsetSize(Names(cfg) - inner.seen, Names(cfg) - seen);
            ListsHavePorts(cfg, keyOk, els[1..], port, inner.seen);
          }
      }
    }
  }

  // ----- when there is an error

  ghost predicate GoodKeys(keyOk: string -> bool, els: seq<Element>) {
    forall e :: e in els && e.Address? && e.key.Some? ==> keyOk(e.key.value)
  }

  predicate GoodPort(cfg: Config, port: Option<nat>) {
    if port.Some? then port.value <= 65535 else cfg.port < 65535
  }

  /** A list that exists, has a port in range and good keys, and mentions only lists of the set. */
  ghost predicate GoodList(cfg: Config, keyOk: string -> bool, t: set<string>, n: string) {
    var k := Find(cfg.defs, n);
    && k < |cfg.defs| && GoodPort(cfg, cfg.defs[k].port)
    && GoodKeys(keyOk, cfg.defs[k].elements) && Mentions(cfg.defs[k].elements) <= t
  }

  ghost predicate GoodSet(cfg: Config, keyOk: string -> bool, els: seq<Element>, t: set<string>) {
    GoodKeys(keyOk, els) && Mentions(els) <= t && forall n :: n in t ==> GoodList(cfg, keyOk, t, n)
  }

  lemma {:induction false} GoodParts(cfg: Config, keyOk: string -> bool, els: seq<Element>, t: set<string>)
    requires GoodSet(cfg, keyOk, els, t) && els != []
    ensures GoodSet(cfg, keyOk, els[1..], t)
    ensures els[0].Address? && els[0].key.Some? ==> keyOk(els[0].key.value)
    ensures els[0].ListName? ==>
              var k := Find(cfg.defs, Fold(els[0].name));
              k < |cfg.defs| && ListPort(cfg, cfg.defs[k].port).Ok? && GoodSet(cfg, keyOk, cfg.defs[k].elements, t)
  {
    MentionsStep(els);
    assert els[0] in els && forall e :: e in els[1..] ==> e in els;
    if els[0].ListName? {
      assert GoodList(cfg, keyOk, t, Fold(els[0].name));
    }
  }

  lemma {:induction false} GoodExpands(cfg: Config, keyOk: string -> bool, els: seq<Element>, port: nat, seen: set<string>, t: set<string>)
    requires GoodSet(cfg, keyOk, els, t)
    ensures Expand(cfg, keyOk, els, port, seen).Ok?
    decreases |Names(cfg) - seen|, |els|
  {
    if els != [] {
      GoodParts(cfg, keyOk, els, t);
      match els[0] {
        case Address(a, key) =>
          GoodExpands(cfg, keyOk, els[1..], port, seen, t);
        case ListName(name) =>
          var n := Fold(name);
          if n in seen {
            GoodExpands(cfg, keyOk, els[1..], port, seen, t);
          } else {
            var def := cfg.defs[Find(cfg.defs, n)];
            var p := ListPort(cfg, def.port).value;
            FoundIsNamed(cfg, n);
            assert n in Names(cfg) - seen;
            SmallerSet(Names(cfg) - (seen + {n}), Names(cfg) - seen);
            GoodExpands(cfg, keyOk, def.elements, p, seen + {n}, t);
            var inner := Expand(cfg, keyOk, def.elements, p, seen + {n}).value;
            SubsetSize(Names(cfg) - inner.seen, Names(cfg) - seen);
            GoodExpands(cfg, keyOk, els[1..], port, inner.seen, t);
          }
      }
    }
  }

  ghost predicate KeysChecked(cfg: Config, keyOk: string -> bool, n: string) {
    var k := Find(cfg.defs, n); k < |cfg.defs| && GoodKeys(keyOk, cfg.defs[k].elements)
  }

  lemma {:induction false} KeysAreGood(cfg: Config, keyOk: string -> bool, els: seq<Element>, port: nat, seen: set<string>)
    requires Expand(cfg, keyOk, els, port, seen).Ok?
    ensures GoodKeys(keyOk, els)
    ensures forall n :: n in Expand(cfg, keyOk, els, port, seen).value.seen - seen ==> KeysChecked(cfg, keyOk, n)
    decreases |Names(cfg) - seen|, |els|
  {
    if els != [] {
      assert forall e :: e in els <==> e == els[0] || e in els[1..];
      match els[0] {
        case Address(a, key) =>
          KeysAreGood(cfg, keyOk, els[1..], port, seen);
        case ListName(name) =>
          var n := Fold(name);
          if n in seen {
            KeysAreGood(cfg, keyOk, els[1..], port, seen);
          } else {
            var def := cfg.defs[Find(cfg.defs, n)];
            var p := ListPort(cfg, def.port).value;
            FoundIsNamed(cfg, n);
            assert n in Names(cfg) - seen;
            SmallerSet(Names(cfg) - (seen + {n}), Names(cfg) - seen);
            KeysAreGood(cfg, keyOk, def.elements, p, seen + {n});
            var inner := Expand(cfg, keyOk, def.elements, p, seen + {n}).value;
            SubsetSize(Names(cfg) - inner.seen, Names(cfg) - seen);
            KeysAreGood(cfg, keyOk, els[1..], port, inner.seen);
          }
      }
    }
  }

  /** A list can be flattened exactly if its port is in range, and so are those of some set of existing
  lists closed under mention, and all key names in them are good. */
  lemma {:induction false} FlattensExactly(cfg: Config, keyOk: string -> bool, list: Masters)
    ensures Flattened(cfg, keyOk, list).Ok? <==>
            GoodPort(cfg, list.port) && exists t :: GoodSet(cfg, keyOk, list.elements, t)
  {
    if GoodPort(cfg, list.port) {
      var p := ListPort(cfg, list.port).value;
      if t :| GoodSet(cfg, keyOk, list.elements, t) {
        GoodExpands(cfg, keyOk, list.elements, p, {}, t);
      }
      if Flattened(cfg, keyOk, list).Ok? {
        var t := Expand(cfg, keyOk, list.elements, p, {}).value.seen;
        ExpandsReachable(cfg, keyOk, list.elements, p, {});
        KeysAreGood(cfg, keyOk, list.elements, p, {});
        ListsHavePorts(cfg, keyOk, list.elements, p, {});
        forall n | n in t
          ensures GoodList(cfg, keyOk, t, n)
        {
          assert n in t - {};
          assert KeysChecked(cfg, keyOk, n);
        }
        assert GoodSet(cfg, keyOk, list.elements, t);
      }
    }
  }

  /** Two names are the same if they differ at most in the case of letters. */
  lemma {:induction false} SameName(a: string, b: string)
    ensures Fold(a) == Fold(b) <==>
            && |a| == |b|
            && forall i :: 0 <= i < |a| ==>
                             || a[i] == b[i]
                             || ('A' <= a[i] <= 'Z' && b[i] as int == a[i] as int + 32)
                             || ('A' <= b[i] <= 'Z' && a[i] as int == b[i] as int + 32)
  {
    if Fold(a) == Fold(b) {
      forall i | 0 <= i < |a|
        ensures || a[i] == b[i]
                || ('A' <= a[i] <= 'Z' && b[i] as int == a[i] as int + 32)
                || ('A' <= b[i] <= 'Z' && a[i] as int == b[i] as int + 32)
      {
        assert Fold(a)[i] == Fold(b)[i];
      }
    }
  }
}
