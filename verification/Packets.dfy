/** The headers of a packet of the netmap fast path: an Ethernet header of 14 octets, an IP header of 20
and a UDP header of 8 before the DNS message (`parse_addr`, `build_pkt_header`). */
module Packets {
  import opened Options
  import opened Bytes
  import opened Checksums
  import opened ReplyTable

  const IP: nat := 14
  const UDP: nat := 34
  const DNS: nat := 42
  const PROTOCOL_UDP: Byte := 17

  /** What precedes a UDP datagram when its checksum is taken: addresses, protocol and length. */
  function Pseudo(pkt: seq<Byte>, n: nat): (data: seq<Byte>)
    requires DNS <= n <= |pkt| && n - UDP < 0x1_0000
    ensures |data| == 12 + n - UDP
  {
    pkt[26..30] + pkt[30..34] + [0, PROTOCOL_UDP] + FromWord(true, n - UDP) + pkt[UDP..n]
  }

  /** Octet by octet: source and destination address, zero, the protocol (17), the length in network
  order, and the datagram. */
  lemma {:induction false} PseudoExactly(pkt: seq<Byte>, n: nat)
    requires DNS <= n <= |pkt| && n - UDP < 0x1_0000
    ensures Pseudo(pkt, n)[..4] == pkt[26..30] && Pseudo(pkt, n)[4..8] == pkt[30..34]
    ensures Pseudo(pkt, n)[8] == 0 && Pseudo(pkt, n)[9] == 17
    ensures Pseudo(pkt, n)[10] as int * 256 + Pseudo(pkt, n)[11] as int == n - 34
    ensures Pseudo(pkt, n)[12..] == pkt[34..n]
  {
  }

  /** A receiver's checks. */
  predicate IpVerifies(big: bool, pkt: seq<Byte>)
    requires UDP <= |pkt|
  {
    Checksum(big, pkt[IP..UDP]) == 0
  }

  predicate UdpVerifies(big: bool, pkt: seq<Byte>, n: nat)
    requires DNS <= n <= |pkt| && n - UDP < 0x1_0000
  {
    Checksum(big, Pseudo(pkt, n)) == 0
  }

  predicate Complete(r: Record) {
    |r.smac| == 6 && |r.dmac| == 6 && |r.saddr| == 4 && |r.source| == 2
  }

  /** What the reply to a query must carry: the query's destination addresses and port as its source,
  and the query's link-layer source as its destination. */
  function ReplyRecord(pkt: seq<Byte>): (r: Record)
    requires DNS <= |pkt|
    ensures Complete(r)
  {
    Record(pkt[0..6], pkt[6..12], pkt[30..34], pkt[36..38])
  }

  /** The packet with `part` written at `at`. */
  ghost predicate Written(was: seq<Byte>, now: seq<Byte>, at: nat, part: seq<Byte>) {
    && |now| == |was| && at + |part| <= |was|
    && (forall i :: 0 <= i < at ==> now[i] == was[i])
    && (forall i :: at <= i < at + |part| ==> now[i] == part[i - at])
    && (forall i :: at + |part| <= i < |was| ==> now[i] == was[i])
  }

  ghost predicate Has(pkt: seq<Byte>, at: nat, part: seq<Byte>) {
    at + |part| <= |pkt| && forall i :: at <= i < at + |part| ==> pkt[i] == part[i - at]
  }

  ghost predicate Same(was: seq<Byte>, now: seq<Byte>, from: nat, to: nat) {
    to <= |was| == |now| && forall i :: from <= i < to ==> now[i] == was[i]
  }

  method Put(buff: array<Byte>, at: nat, part: seq<Byte>)
    requires at + |part| <= buff.Length
    modifies buff
    ensures Written(old(buff[..]), buff[..], at, part)
  {
    forall i | 0 <= i < |part| {
      buff[at + i] := part[i];
    }
    assert forall i :: at <= i < at + |part| ==> buff[i] == part[i - at];
  }

  /** The lower 16 bits. */
  function Short(n: nat): Word {
    n % 0x1_0000
  }

  /** What is filled in of the IP header. */
  ghost predicate IpSet(big: bool, was: seq<Byte>, now: seq<Byte>, n: nat, daddr: seq<Byte>, id: Word)
    requires DNS <= n <= |was|
  {
    && Same(was, now, 0, 16) && Same(was, now, 20, 24) && Same(was, now, 26, 30) && Same(was, now, UDP, |was|)
    && Has(now, 16, FromWord(true, Short(n - IP))) && Has(now, 18, FromWord(big, id)) && Has(now, 30, daddr)
    && IpVerifies(big, now)
  }

  /** The IP header: destination, length, identification and, last, the checksum. */
  method SetIp(big: bool, buff: array<Byte>, n: nat, daddr: seq<Byte>, id: Word)
    requires DNS <= n <= buff.Length && |daddr| == 4
    modifies buff
    ensures IpSet(big, old(buff[..]), buff[..], n, daddr, id)
  {
    ghost var p0 := buff[..];
    SetIpFields(big, buff, daddr, Short(n - IP), id);
    ghost var p := buff[..];
    SumFits(big, buff[IP..UDP]);
    var c := InCksum(big, buff[IP..UDP]);
    assert p[IP..UDP] == buff[IP..UDP];
    Put(buff, 24, FromWord(big, c));
    IpDone(big, p0, p, buff[..], n, daddr, id, c);
  }

  ghost predicate IpFields(big: bool, was: seq<Byte>, now: seq<Byte>, daddr: seq<Byte>, len: Word, id: Word) {
    && DNS <= |was|
    && Same(was, now, 0, 16) && Same(was, now, 20, 24) && Same(was, now, 26, 30) && Same(was, now, UDP, |was|)
    && Has(now, 16, FromWord(true, len)) && Has(now, 18, FromWord(big, id)) && Has(now, 30, daddr)
    && Has(now, 24, [0, 0])
  }

  method SetIpFields(big: bool, buff: array<Byte>, daddr: seq<Byte>, len: Word, id: Word)
    requires DNS <= buff.Length && |daddr| == 4
    modifies buff
    ensures IpFields(big, old(buff[..]), buff[..], daddr, len, id)
  {
    Put(buff, 30, daddr);
    Put(buff, 16, FromWord(true, len));
    Put(buff, 18, FromWord(big, id));
    Put(buff, 24, [0, 0]);
  }

  lemma {:induction false} IpDone(big: bool, p0: seq<Byte>, p: seq<Byte>, now: seq<Byte>, n: nat, daddr: seq<Byte>, id: Word, c: Word)
    requires DNS <= n <= |p0| && |daddr| == 4 && IpFields(big, p0, p, daddr, Short(n - IP), id)
    requires c == Checksum(big, p[IP..UDP]) && Written(p, now, 24, FromWord(big, c))
    ensures IpSet(big, p0, now, n, daddr, id)
  {
    assert p[24] == 0 && p[25] == 0;
    IpStored(big, p, now, c);
  }

  /** The checksum field makes the header verify. */
  lemma {:induction false} IpStored(big: bool, was: seq<Byte>, now: seq<Byte>, c: Word)
    requires UDP <= |was| && was[24] == 0 && was[25] == 0 && c == Checksum(big, was[IP..UDP])
    requires Written(was, now, 24, FromWord(big, c))
    ensures IpVerifies(big, now)
  {
    assert now[IP..UDP] == Stored(big, was[IP..UDP], 10, c);
    StoredChecksumVerifies(big, was[IP..UDP], 5);
  }

  /** What is filled in of the UDP header. */
  ghost predicate UdpSet(big: bool, was: seq<Byte>, now: seq<Byte>, n: nat, dest: seq<Byte>)
    requires DNS <= n <= |was| && n < 0x1_0000
  {
    && Same(was, now, 0, 36) && Same(was, now, DNS, |was|)
    && Has(now, 36, dest) && Has(now, 38, FromWord(true, n - UDP))
    && UdpVerifies(big, now, n)
  }

  /** The size of the buffer in which pseudo-header and datagram are put together. */
  const CHECK_BUF: nat := 512

  /** A packet whose pseudo-header and datagram fit that buffer. */
  predicate Fits(n: nat) {
    n + 12 <= CHECK_BUF + UDP
  }

  /** Replies of more than 492 octets do not fit, and so not those of 512, which every resolver takes. */
  lemma {:induction false} LongReplyOverruns(m: nat)
    ensures Fits(DNS + m) <==> m <= 492
    ensures !Fits(DNS + 512)
  {
  }

  /** Pseudo-header and datagram are copied to a buffer and summed there.  Nothing tests the length: the
  copy leaves the buffer exactly if the packet does not fit, and what follows is then undefined. */
  method SumDatagram(big: bool, buff: array<Byte>, n: nat) returns (overrun: bool, c: Word)
    requires DNS <= n <= buff.Length
    ensures overrun <==> !Fits(n)
    ensures !overrun ==> c == Checksum(big, Pseudo(buff[..], n))
  {
    var checkBuf := new Byte[CHECK_BUF](_ => 0);
    var udpLen := n - UDP;
    if 12 + udpLen > checkBuf.Length {
      return true, 0;
    }
    Put(checkBuf, 12, buff[UDP..n]);
    Put(checkBuf, 0, buff[26..30]);
    Put(checkBuf, 4, buff[30..34]);
    Put(checkBuf, 8, [0, PROTOCOL_UDP]);
    Put(checkBuf, 10, FromWord(true, udpLen));
    var data := checkBuf[..12 + udpLen];
    assert data == Pseudo(buff[..], n);
    SumFits(big, data);
    c := InCksum(big, data);
    return false, c;
  }

  /** The UDP header: destination port, length and, last, the checksum. */
  method SetUdp(big: bool, buff: array<Byte>, n: nat, dest: seq<Byte>) returns (overrun: bool)
    requires DNS <= n <= buff.Length && |dest| == 2
    modifies buff
    ensures overrun <==> !Fits(n)
    ensures !overrun ==> UdpSet(big, old(buff[..]), buff[..], n, dest)
  {
    ghost var p0 := buff[..];
    SetUdpFields(buff, dest, Short(n - UDP));
    ghost var p := buff[..];
    var c;
    overrun, c := SumDatagram(big, buff, n);
    if overrun {
      return;
    }
    assert Short(n - UDP) == n - UDP;
    Put(buff, 40, FromWord(big, c));
    UdpDone(big, p0, p, buff[..], n, dest, c);
  }

  lemma {:induction false} UdpDone(big: bool, p0: seq<Byte>, p: seq<Byte>, now: seq<Byte>, n: nat, dest: seq<Byte>, c: Word)
    requires DNS <= n <= |p0| && Fits(n) && |dest| == 2 && UdpFields(p0, p, dest, n - UDP)
    requires c == Checksum(big, Pseudo(p, n)) && Written(p, now, 40, FromWord(big, c))
    ensures UdpSet(big, p0, now, n, dest)
  {
    assert p[40] == 0 && p[41] == 0;
    PseudoStored(big, p, now, n, c);
  }

  ghost predicate UdpFields(was: seq<Byte>, now: seq<Byte>, dest: seq<Byte>, len: Word) {
    && DNS <= |was| && Same(was, now, 0, 36) && Same(was, now, DNS, |was|)
    && Has(now, 36, dest) && Has(now, 38, FromWord(true, len)) && Has(now, 40, [0, 0])
  }

  method SetUdpFields(buff: array<Byte>, dest: seq<Byte>, len: Word)
    requires DNS <= buff.Length && |dest| == 2
    modifies buff
    ensures UdpFields(old(buff[..]), buff[..], dest, len)
  {
    Put(buff, 36, dest);
    Put(buff, 40, [0, 0]);
    Put(buff, 38, FromWord(true, len));
  }

  /** The checksum field makes the datagram verify. */
  lemma {:induction false} PseudoStored(big: bool, was: seq<Byte>, now: seq<Byte>, n: nat, c: Word)
    requires DNS <= n <= |was| && n - UDP < 0x1_0000 && was[40] == 0 && was[41] == 0
    requires c == Checksum(big, Pseudo(was, n)) && Written(was, now, 40, FromWord(big, c))
    ensures UdpVerifies(big, now, n)
  {
    PseudoIsStored(big, was, now, n, c);
    var before := Pseudo(was, n);
    assert before[18] == was[UDP..n][6] && before[19] == was[UDP..n][7];
    StoredChecksumVerifies(big, before, 9);
  }

  lemma {:induction false} PseudoIsStored(big: bool, was: seq<Byte>, now: seq<Byte>, n: nat, c: Word)
    requires DNS <= n <= |was| && n - UDP < 0x1_0000 && Written(was, now, 40, FromWord(big, c))
    ensures Pseudo(now, n) == Stored(big, Pseudo(was, n), 18, c)
  {
    SameSlice(was, now, 26, 30);
    SameSlice(was, now, 30, 34);
    StoredInside(big, was, now, n, c);
    StoredAfter(big, was[26..30] + was[30..34] + [0, PROTOCOL_UDP] + FromWord(true, n - UDP), was[UDP..n], 6, c);
  }

  lemma {:induction false} SameSlice(was: seq<Byte>, now: seq<Byte>, from: nat, to: nat)
    requires from <= to && Same(was, now, from, to)
    ensures now[from..to] == was[from..to]
  {
  }

  lemma {:induction false} StoredInside(big: bool, was: seq<Byte>, now: seq<Byte>, n: nat, c: Word)
    requires DNS <= n <= |was| && Written(was, now, 40, FromWord(big, c))
    ensures now[UDP..n] == Stored(big, was[UDP..n], 6, c)
  {
    forall i | 0 <= i < n - UDP
      ensures now[UDP..n][i] == Stored(big, was[UDP..n], 6, c)[i]
    {
    }
  }

  /** The addresses found for the query, if any. */
  ghost predicate AddressesSet(was: seq<Byte>, now: seq<Byte>, found: Option<Record>) {
    && DNS <= |was|
    && Same(was, now, 12, 26) && Same(was, now, 30, 34) && Same(was, now, 36, |was|)
    && match found
       case Some(r) => Has(now, 0, r.dmac) && Has(now, 6, r.smac) && Has(now, 26, r.saddr) && Has(now, 34, r.source)
       case None => now == was
  }

  /** The packet as it goes out: the addresses found are in it, the fields for its destination are
  filled in, both checksums verify, and nothing else has changed. */
  ghost predicate Rewritten(big: bool, was: seq<Byte>, now: seq<Byte>, n: nat, found: Option<Record>,
                            daddr: seq<Byte>, dest: seq<Byte>, id: Word)
    requires DNS <= n <= |was| && n < 0x1_0000
  {
    && Same(was, now, 12, 16) && Same(was, now, 20, 24) && Same(was, now, DNS, |was|)
    && (match found
        case Some(r) => Has(now, 0, r.dmac) && Has(now, 6, r.smac) && Has(now, 26, r.saddr) && Has(now, 34, r.source)
        case None => Same(was, now, 0, 12) && Same(was, now, 26, 30) && Same(was, now, UDP, 36))
    && Has(now, 16, FromWord(true, Short(n - IP))) && Has(now, 18, FromWord(big, id)) && Has(now, 30, daddr)
    && Has(now, 36, dest) && Has(now, 38, FromWord(true, n - UDP))
    && IpVerifies(big, now) && UdpVerifies(big, now, n)
  }

  lemma {:induction false} StepsRewrite(big: bool, p0: seq<Byte>, p1: seq<Byte>, p2: seq<Byte>, p3: seq<Byte>, n: nat,
                                        found: Option<Record>, daddr: seq<Byte>, dest: seq<Byte>, id: Word)
    requires DNS <= n <= |p0| && n < 0x1_0000 && |daddr| == 4 && (found.Some? ==> Complete(found.value))
    requires AddressesSet(p0, p1, found) && IpSet(big, p1, p2, n, daddr, id) && UdpSet(big, p2, p3, n, dest)
    ensures Rewritten(big, p0, p3, n, found, daddr, dest, id)
  {
    IpUntouched(big, p2, p3);
  }

  lemma {:induction false} IpUntouched(big: bool, was: seq<Byte>, now: seq<Byte>)
    requires UDP <= |was| && Same(was, now, 0, UDP + 2) && IpVerifies(big, was)
    ensures IpVerifies(big, now)
  {
    assert now[IP..UDP] == was[IP..UDP];
  }

  /** The state of the fast path: the table, the last IP identification used, and the headers of the
  first packet, from which those of replies are made. */
  class FastPath {
    const table: Table
    var ipId: Word
    var pktHeader: seq<Byte>
    var pktHeaderInited: bool

    ghost predicate Valid()
      reads this, table, table.slots
    {
      table.Valid() && forall i :: 0 <= i < table.slots.Length ==> Complete(table.slots[i].record)
    }

    constructor ()
      ensures Valid() && table.slots[..] == Blank() && fresh(table) && fresh(table.slots) && !pktHeaderInited
    {
      table := new Table();
      ipId, pktHeader, pktHeaderInited := 0x12a, seq(DNS, _ => 0), false;
      new;
      assert forall i :: 0 <= i < table.slots.Length ==> table.slots[i] == table.slots[..][i];
    }

    /** The steps of `parse_addr` that change state: the first packet's headers are kept, and every
    packet's addresses go into the table. */
    method ParseAddr(big: bool, buff: array<Byte>)
      requires Valid() && buff.Length >= DNS + 2
      modifies this, table, table.slots
      ensures Valid() && ipId == old(ipId) && pktHeaderInited
      ensures pktHeader == if old(pktHeaderInited) then old(pktHeader) else buff[..DNS]
      ensures table.slots[..] == Received(old(table.slots[..]), ToWord(big, buff[DNS], buff[DNS + 1]),
                                          ReplyRecord(buff[..]))
    {
      ghost var was := table.slots[..];
      if !pktHeaderInited {
        pktHeaderInited := true;
        pktHeader := buff[..DNS];
      }
      var r := Record(buff[0..6], buff[6..12], buff[30..34], buff[36..38]);
      assert r == ReplyRecord(buff[..]);
      table.AddMacaddr(r, ToWord(big, buff[DNS], buff[DNS + 1]));
      assert forall i :: 0 <= i < table.slots.Length ==> table.slots[i] == table.slots[..][i];
      assert forall i :: 0 <= i < |was| ==> Complete(was[i].record);
    }

    /** `build_pkt_header`.  Nothing is promised once the checksum buffer has been overrun. */
    method BuildPktHeader(big: bool, buff: array<Byte>, n: nat, daddr: seq<Byte>, dest: seq<Byte>) returns (overrun: bool)
      requires Valid() && DNS <= n <= buff.Length && DNS + 2 <= buff.Length && |daddr| == 4 && |dest| == 2
      requires buff as object != table.slots as object
      modifies this`ipId, table.slots, buff
      ensures overrun <==> !Fits(n)
      ensures !overrun ==>
                && Valid() && ipId == (old(ipId) + 1) % 0x1_0000
                && var qid, slots := ToWord(big, old(buff[DNS]), old(buff[DNS + 1])), old(table.slots[..]);
                && table.slots[..] == Replied(slots, qid)
                && Rewritten(big, old(buff[..]), buff[..], n, Found(slots, qid), daddr, dest, ipId)
    {
      ghost var slots := table.slots[..];
      CompleteSlots();
      var qid := ToWord(big, buff[DNS], buff[DNS + 1]);
      var found := table.GetMacmap(qid);
      RepliedComplete(slots, qid);
      ipId := (ipId + 1) % 0x1_0000;
      overrun := Rewrite(big, buff, n, found, daddr, dest, ipId);
      assert forall i :: 0 <= i < table.slots.Length ==> table.slots[i] == table.slots[..][i];
    }

    lemma {:induction false} CompleteSlots()
      requires Valid()
      ensures AllComplete(table.slots[..])
    {
    }
  }

  ghost predicate AllComplete(s: seq<Slot>) {
    forall i :: 0 <= i < |s| ==> Complete(s[i].record)
  }

  lemma {:induction false} RepliedComplete(s: seq<Slot>, q: nat)
    requires AllComplete(s)
    ensures AllComplete(Replied(s, q)) && (Found(s, q).Some? ==> Complete(Found(s, q).value))
  {
  }

  method Rewrite(big: bool, buff: array<Byte>, n: nat, found: Option<Record>, daddr: seq<Byte>, dest: seq<Byte>, id: Word)
    returns (overrun: bool)
    requires DNS <= n <= buff.Length && |daddr| == 4 && |dest| == 2
    requires found.Some? ==> Complete(found.value)
    modifies buff
    ensures overrun <==> !Fits(n)
    ensures !overrun ==> Rewritten(big, old(buff[..]), buff[..], n, found, daddr, dest, id)
  {
    ghost var p0 := buff[..];
    SetAddresses(buff, found);
    ghost var p1 := buff[..];
    SetIp(big, buff, n, daddr, id);
    ghost var p2 := buff[..];
    overrun := SetUdp(big, buff, n, dest);
    if !overrun {
      StepsRewrite(big, p0, p1, p2, buff[..], n, found, daddr, dest, id);
    }
  }

  method SetAddresses(buff: array<Byte>, found: Option<Record>)
    requires buff.Length >= DNS && (found.Some? ==> Complete(found.value))
    modifies buff
    ensures AddressesSet(old(buff[..]), buff[..], found)
  {
    match found {
      case Some(r) =>
        Put(buff, 6, r.smac);
        Put(buff, 0, r.dmac);
        Put(buff, 26, r.saddr);
        Put(buff, 34, r.source);
      case None =>
    }
  }

  /** With at most eight queries waiting at any time and none repeated while it waits, the reply to a
  query goes back to where the query came from, from where the query was sent to. */
  lemma {:induction false} ReplyGoesBack(big: bool, es: seq<Event>, qid: nat, query: seq<Byte>, was: seq<Byte>, now: seq<Byte>, n: nat,
                                         daddr: seq<Byte>, dest: seq<Byte>, id: Word)
    requires Light(map[], es, SLOTS) && DNS <= |query| && DNS <= n <= |was| && n < 0x1_0000
    requires qid in Ideal(map[], es) && Ideal(map[], es)[qid] == ReplyRecord(query)
    requires Rewritten(big, was, now, n, Found(After(Blank(), es), qid), daddr, dest, id)
    ensures now[0..6] == query[6..12] && now[6..12] == query[0..6]
    ensures now[26..30] == query[30..34] && now[34..36] == query[36..38]
    ensures now[DNS..] == was[DNS..]
    ensures IpVerifies(big, now) && UdpVerifies(big, now, n)
  {
    ReplyFindsQuery(es, qid);
    var r := ReplyRecord(query);
    HasSlice(now, 0, r.dmac);
    HasSlice(now, 6, r.smac);
    HasSlice(now, 26, r.saddr);
    HasSlice(now, 34, r.source);
    assert now[DNS..] == was[DNS..];
  }

  lemma {:induction false} HasSlice(pkt: seq<Byte>, at: nat, part: seq<Byte>)
    requires Has(pkt, at, part)
    ensures pkt[at..at + |part|] == part
  {
  }
}
