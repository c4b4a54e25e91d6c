/** The reverse mapping of a DNS64 prefix: nibble names under ip6.arpa answered with aliases under
in-addr.arpa (`dns64_cname`). */
module Dns64 {
  import opened Options
  import opened Bytes

  /** The answer to a lookup below the zone's name: no such name, an existing name without data, or an
  alias given by its wire form. */
  datatype Answer = NotFound | Empty | Cname(rdata: seq<Byte>)

  // ----- names

  /** The value of a hexadecimal digit in ASCII, of either case. */
  function Digit(c: Byte): (r: Option<nat>)
    ensures r.Some? ==> r.value < 16
  {
    if 0x30 <= c <= 0x39 then Some(c - 0x30)
    else if 0x41 <= c <= 0x46 then Some(c - 0x41 + 10)
    else if 0x61 <= c <= 0x66 then Some(c - 0x61 + 10)
    else None
  }

  /** The table of digits times 16, with 1 for every other octet. */
  function Hex16(c: Byte): Byte {
    var d := Digit(c);
    if d.Some? then 16 * d.value else 1
  }

  /** The digit of the `i`th label, if that label is a single hexadecimal digit. */
  function DigitAt(ndata: seq<Byte>, i: nat): (r: Option<nat>)
    requires 2 * i + 1 < |ndata|
    ensures r.Some? ==> r.value < 16
  {
    if ndata[2 * i] == 1 then Digit(ndata[2 * i + 1]) else None
  }

  /** A series of labels, each a single hexadecimal digit. */
  predicate IsNibbles(ndata: seq<Byte>) {
    && |ndata| % 2 == 0
    && forall i :: 0 <= i < |ndata| / 2 ==> DigitAt(ndata, i).Some?
  }

  /** The nibbles of a name, the most significant (that next to the zone's name) first. */
  function Nibbles(ndata: seq<Byte>): (ns: seq<nat>)
    requires IsNibbles(ndata)
    ensures |ns| == |ndata| / 2 && forall q :: 0 <= q < |ns| ==> ns[q] < 16
  {
    var m := |ndata| / 2;
    seq(m, q requires 0 <= q < m => DigitAt(ndata, m - 1 - q).value)
  }

  /** The octets that nibbles spell, the last padded with a zero nibble. */
  function Octets(ns: seq<nat>): (bs: seq<Byte>)
    requires forall q :: 0 <= q < |ns| ==> ns[q] < 16
    ensures |bs| == (|ns| + 1) / 2
  {
    seq((|ns| + 1) / 2, k requires 0 <= k < (|ns| + 1) / 2 =>
      (ns[2 * k] * 16 + if 2 * k + 1 < |ns| then ns[2 * k + 1] else 0) as Byte)
  }

  /** The nibbles of octets in network order. */
  function Spelled(bs: seq<Byte>): (ns: seq<nat>)
    ensures |ns| == 2 * |bs| && forall q :: 0 <= q < |ns| ==> ns[q] < 16
  {
    seq(2 * |bs|, q requires 0 <= q < 2 * |bs| => if q % 2 == 0 then bs[q / 2] / 16 else bs[q / 2] % 16)
  }

  /** Labels in wire form, each with its length before it. */
  function Wire(labels: seq<seq<Byte>>): (w: seq<Byte>)
    requires forall i :: 0 <= i < |labels| ==> |labels[i]| < 256
  {
    if labels == [] then [0] else [|labels[0]| as Byte] + labels[0] + Wire(labels[1..])
  }

  /** A number in decimal, in ASCII. */
  function Decimal(n: nat): (s: seq<Byte>) {
    if n < 10 then [0x30 + n] else Decimal(n / 10) + [0x30 + n % 10]
  }

  function FromDecimal(s: seq<Byte>): int {
    if s == [] then 0 else 10 * FromDecimal(s[..|s| - 1]) + (s[|s| - 1] as int - 0x30)
  }

  lemma {:induction false} DecimalRoundTrip(n: nat)
    ensures FromDecimal(Decimal(n)) == n && Decimal(n) != []
    ensures n < 1000 ==> |Decimal(n)| <= 3
  {
    if n < 10 {
      assert [(0x30 + n) as Byte][..0] == [];
    } else {
      DecimalRoundTrip(n / 10);
      assert (Decimal(n / 10) + [0x30 + n % 10])[..|Decimal(n)| - 1] == Decimal(n / 10);
      if n < 100 {
        assert Decimal(n / 10) == [0x30 + n / 10];
      } else if n < 1000 {
        assert Decimal(n / 10 / 10) == [0x30 + n / 10 / 10];
      }
    }
  }

  const IN_ADDR: seq<Byte> := [105, 110, 45, 97, 100, 100, 114]
  const ARPA: seq<Byte> := [97, 114, 112, 97]

  /** The two labels that end the name, as text. */
  lemma {:induction false} EndsInText(i: nat)
    ensures |IN_ADDR| == |"in-addr"| && (i < |IN_ADDR| ==> IN_ADDR[i] as int == "in-addr"[i] as int)
    ensures |ARPA| == |"arpa"| && (i < |ARPA| ==> ARPA[i] as int == "arpa"[i] as int)
  {
  }

  function AddressLabels(addr: seq<Byte>): (ls: seq<seq<Byte>>)
    requires |addr| == 4
  {
    [Decimal(addr[3]), Decimal(addr[2]), Decimal(addr[1]), Decimal(addr[0]), IN_ADDR, ARPA]
  }

  lemma {:induction false} AddressLabelsFit(addr: seq<Byte>)
    requires |addr| == 4
    ensures forall i :: 0 <= i < 6 ==> 0 < |AddressLabels(addr)[i]| < 256
  {
    DecimalRoundTrip(addr[0]);
    DecimalRoundTrip(addr[1]);
    DecimalRoundTrip(addr[2]);
    DecimalRoundTrip(addr[3]);
  }

  /** The in-addr.arpa name of an IPv4 address, in wire form. */
  ghost function InAddr(addr: seq<Byte>): seq<Byte>
    requires |addr| == 4
  {
    AddressLabelsFit(addr);
    Wire(AddressLabels(addr))
  }

  lemma {:induction false} WireInjective(a: seq<seq<Byte>>, b: seq<seq<Byte>>)
    requires forall i :: 0 <= i < |a| ==> 0 < |a[i]| < 256
    requires forall i :: 0 <= i < |b| ==> 0 < |b[i]| < 256
    requires Wire(a) == Wire(b)
    ensures a == b
    decreases |a|
  {
    assert Wire(a)[0] == Wire(b)[0];
    if a != [] && b != [] {
      assert a[0] == Wire(a)[1..|a[0]| + 1] == b[0];
      assert Wire(a[1..]) == Wire(a)[|a[0]| + 1..] == Wire(b[1..]);
      WireInjective(a[1..], b[1..]);
      assert a == [a[0]] + a[1..] && b == [b[0]] + b[1..];
    }
  }

  /** The alias tells which address it is for. */
  lemma {:induction false} InAddrInjective(a: seq<Byte>, b: seq<Byte>)
    requires |a| == |b| == 4 && InAddr(a) == InAddr(b)
    ensures a == b
  {
    AddressLabelsFit(a);
    AddressLabelsFit(b);
    WireInjective(AddressLabels(a), AddressLabels(b));
    forall i | 0 <= i < 4
      ensures a[i] == b[i]
    {
      assert AddressLabels(a)[3 - i] == Decimal(a[i]) && AddressLabels(b)[3 - i] == Decimal(b[i]);
      DecimalRoundTrip(a[i]);
      DecimalRoundTrip(b[i]);
    }
  }

  // ----- IPv4-embedded IPv6 addresses

  predicate PrefixLength(p: nat) {
    p == 32 || p == 40 || p == 48 || p == 56 || p == 64 || p == 96
  }

  /** How many octets follow the address: none after a prefix of 96 bits. */
  function SuffixLength(p: nat): nat
    requires PrefixLength(p)
  {
    if p == 96 then 0 else 11 - p / 8
  }

  /** What follows the prefix in the IPv6 address that embeds `addr`, as section 2.2 of RFC 6052 lays it
  out: the octet of bits 64 to 71 is zero, and address and suffix go around it. */
  function Embed(p: nat, addr: seq<Byte>, suffix: seq<Byte>): (bs: seq<Byte>)
    requires PrefixLength(p) && |addr| == 4 && |suffix| == SuffixLength(p)
    ensures |bs| == 16 - p / 8
    ensures p <= 64 ==> bs[8 - p / 8] == 0
  {
    if p == 96 then addr
    else
      var n := 8 - p / 8;
      (addr + suffix)[..n] + [0] + (addr + suffix)[n..]
  }

  /** The address embedded after a prefix. */
  function Extract(p: nat, bs: seq<Byte>): (addr: seq<Byte>)
    requires PrefixLength(p) && |bs| == 16 - p / 8
    ensures |addr| == 4
  {
    seq(4, o requires 0 <= o < 4 => bs[if p / 8 + o < 8 || p == 96 then o else o + 1])
  }

  lemma {:induction false} ExtractEmbed(p: nat, addr: seq<Byte>, suffix: seq<Byte>)
    requires PrefixLength(p) && |addr| == 4 && |suffix| == SuffixLength(p)
    ensures Extract(p, Embed(p, addr, suffix)) == addr
  {
  }

  /** Octets with a zero in the reserved place are an embedding. */
  lemma {:induction false} EmbedExtract(p: nat, bs: seq<Byte>) returns (suffix: seq<Byte>)
    requires PrefixLength(p) && |bs| == 16 - p / 8 && (p <= 64 ==> bs[8 - p / 8] == 0)
    ensures |suffix| == SuffixLength(p) && Embed(p, Extract(p, bs), suffix) == bs
  {
    if p == 96 {
      suffix := [];
      assert Extract(p, bs) == bs;
    } else {
      var n := 8 - p / 8;
      var rest := bs[..n] + bs[n + 1..];
      assert Extract(p, bs) == rest[..4];
      suffix := rest[4..];
      assert Extract(p, bs) + suffix == rest;
      assert bs == bs[..n] + [0] + bs[n + 1..];
      assert rest[..n] == bs[..n] && rest[n..] == bs[n + 1..];
    }
  }

  // ----- what a name stands for

  /** The prefix length of the zone, from the length of its name: 10 octets for ip6.arpa and 2 for each nibble. */
  function PrefixOf(zlen: nat): (r: Option<nat>)
    ensures r.Some? ==> PrefixLength(r.value) && zlen == 10 + r.value / 2
  {
    if zlen == 26 then Some(32) else if zlen == 30 then Some(40) else if zlen == 34 then Some(48)
    else if zlen == 38 then Some(56) else if zlen == 42 then Some(64) else if zlen == 58 then Some(96)
    else None
  }

  /** What a name is, in terms of the octets it spells: nothing, part of an address, or an address. */
  datatype Meaning = Nothing | Part | Address(addr: seq<Byte>)

  /** The octet of bits 64 to 71, as far as it is given, is zero. */
  predicate ReservedZero(p: nat, bs: seq<Byte>) {
    p <= 64 && p / 8 <= 8 && 8 - p / 8 < |bs| ==> bs[8 - p / 8] == 0
  }

  function Spells(p: nat, bs: seq<Byte>, whole: bool): (m: Meaning)
    requires PrefixLength(p) && (whole ==> |bs| == 16 - p / 8)
    ensures m.Address? ==> |m.addr| == 4
  {
    if !ReservedZero(p, bs) then Nothing else if !whole then Part else Address(Extract(p, bs))
  }

  function Lookup(zlen: nat, ndata: seq<Byte>): (m: Meaning)
    ensures m.Address? ==> |m.addr| == 4
  {
    if zlen + |ndata| > 74 || PrefixOf(zlen).None? || !IsNibbles(ndata) then Nothing
    else Spells(PrefixOf(zlen).value, Octets(Nibbles(ndata)), zlen + |ndata| == 74)
  }

  ghost function Reply(m: Meaning): Answer
    requires m.Address? ==> |m.addr| == 4
  {
    match m
    case Nothing => NotFound
    case Part => Empty
    case Address(a) => Cname(InAddr(a))
  }

  /** The nibbles spell the beginning of the octets. */
  ghost predicate Begins(ndata: seq<Byte>, bs: seq<Byte>) {
    IsNibbles(ndata) && Nibbles(ndata) <= Spelled(bs)
  }

  lemma {:induction false} OctetsSpelled(bs: seq<Byte>)
    ensures Octets(Spelled(bs)) == bs
  {
    forall k | 0 <= k < |bs|
      ensures Octets(Spelled(bs))[k] == bs[k]
    {
      OctetSpelled(bs, k);
    }
  }

  lemma {:induction false} OctetSpelled(bs: seq<Byte>, k: nat)
    requires k < |bs|
    ensures Octets(Spelled(bs))[k] == bs[k]
  {
    var ns := Spelled(bs);
    assert ns[2 * k] == bs[k] / 16 && ns[2 * k + 1] == bs[k] % 16;
    assert Octets(ns)[k] == ns[2 * k] * 16 + ns[2 * k + 1];
  }

  lemma {:induction false} SpelledOctets(ns: seq<nat>)
    requires forall q :: 0 <= q < |ns| ==> ns[q] < 16
    ensures ns <= Spelled(Octets(ns))
  {
    forall q | 0 <= q < |ns|
      ensures ns[q] == Spelled(Octets(ns))[q]
    {
      assert Octets(ns)[q / 2] / 16 == ns[q / 2 * 2];
      assert q % 2 == 1 ==> Octets(ns)[q / 2] % 16 == ns[q / 2 * 2 + 1];
    }
  }

  lemma {:induction false} LookupSpells(p: nat, zlen: nat, ndata: seq<Byte>)
    requires PrefixLength(p) && zlen == 10 + p / 2 && IsNibbles(ndata)
    ensures |ndata| / 2 <= 2 * (16 - p / 8) <==> zlen + |ndata| <= 74
    ensures zlen + |ndata| <= 74 ==>
              Lookup(zlen, ndata) == Spells(p, Octets(Nibbles(ndata)), |ndata| / 2 == 2 * (16 - p / 8))
  {
    assert PrefixOf(zlen) == Some(p);
    assert zlen + |ndata| == 74 <==> |ndata| / 2 == 2 * (16 - p / 8);
  }

  /** The round trip: the nibble name of an embedded address is an alias for that address's name. */
  lemma {:induction false} RoundTrip(p: nat, zlen: nat, addr: seq<Byte>, suffix: seq<Byte>, ndata: seq<Byte>)
    requires PrefixLength(p) && zlen == 10 + p / 2 && |addr| == 4 && |suffix| == SuffixLength(p)
    requires IsNibbles(ndata) && Nibbles(ndata) == Spelled(Embed(p, addr, suffix))
    ensures Lookup(zlen, ndata) == Address(addr)
  {
    var bs := Embed(p, addr, suffix);
    LookupSpells(p, zlen, ndata);
    OctetsSpelled(bs);
    ExtractEmbed(p, addr, suffix);
    assert Spells(p, bs, true) == Address(addr);
  }

  /** The hexadecimal digits in ASCII, in lower and in upper case. */
  const LOWER: seq<Byte> := [48, 49, 50, 51, 52, 53, 54, 55, 56, 57, 97, 98, 99, 100, 101, 102]
  const UPPER: seq<Byte> := [48, 49, 50, 51, 52, 53, 54, 55, 56, 57, 65, 66, 67, 68, 69, 70]

  /** The labels of nibbles, the least significant first, each written in the case wanted for it. */
  function Labels(ns: seq<nat>, upper: nat -> bool): (ndata: seq<Byte>)
    requires forall q :: 0 <= q < |ns| ==> ns[q] < 16
    ensures |ndata| == 2 * |ns|
  {
    if ns == [] then []
    else
      var n := |ns| - 1;
      [1, if upper(n) then UPPER[ns[n]] else LOWER[ns[n]]] + Labels(ns[..n], upper)
  }

  lemma {:induction false} DigitsOf(n: nat)
    requires n < 16
    ensures Digit(LOWER[n]) == Digit(UPPER[n]) == Some(n)
  {
  }

  /** The digit of the `i`th label from the end. */
  lemma {:induction false} LabelsAt(ns: seq<nat>, upper: nat -> bool, i: nat)
    requires (forall q :: 0 <= q < |ns| ==> ns[q] < 16) && i < |ns|
    ensures DigitAt(Labels(ns, upper), i) == Some(ns[|ns| - 1 - i])
    decreases i
  {
    var n := |ns| - 1;
    if i == 0 {
      DigitsOf(ns[n]);
    } else {
      var w, rest := Labels(ns, upper), Labels(ns[..n], upper);
      LabelsAt(ns[..n], upper, i - 1);
      assert w[2..] == rest;
      assert w[2 * i] == w[2..][2 * (i - 1)] && w[2 * i + 1] == w[2..][2 * (i - 1) + 1];
    }
  }

  lemma {:induction false} LabelsSpell(ns: seq<nat>, upper: nat -> bool)
    requires forall q :: 0 <= q < |ns| ==> ns[q] < 16
    ensures IsNibbles(Labels(ns, upper)) && Nibbles(Labels(ns, upper)) == ns
  {
    forall i | 0 <= i < |ns|
      ensures DigitAt(Labels(ns, upper), i) == Some(ns[|ns| - 1 - i])
    {
      LabelsAt(ns, upper, i);
    }
  }

  /** The round trip from the text: the address embedded, its nibbles written in reverse order in digits
  of either case. */
  lemma {:induction false} RoundTripOfText(p: nat, zlen: nat, addr: seq<Byte>, suffix: seq<Byte>, upper: nat -> bool)
    requires PrefixLength(p) && zlen == 10 + p / 2 && |addr| == 4 && |suffix| == SuffixLength(p)
    ensures Lookup(zlen, Labels(Spelled(Embed(p, addr, suffix)), upper)) == Address(addr)
  {
    var ns := Spelled(Embed(p, addr, suffix));
    LabelsSpell(ns, upper);
    RoundTrip(p, zlen, addr, suffix, Labels(ns, upper));
  }

  /** A name exists exactly if it begins the nibble name of some embedded address, and has an alias
  exactly if it is the whole of it. */
  lemma {:induction false} ExistsExactly(p: nat, zlen: nat, ndata: seq<Byte>)
    requires PrefixLength(p) && zlen == 10 + p / 2
    ensures !Lookup(zlen, ndata).Nothing? <==>
            exists addr, suffix :: |addr| == 4 && |suffix| == SuffixLength(p) && Begins(ndata, Embed(p, addr, suffix))
    ensures Lookup(zlen, ndata).Address? <==>
            exists addr, suffix :: |addr| == 4 && |suffix| == SuffixLength(p) && Begins(ndata, Embed(p, addr, suffix))
                                   && |Nibbles(ndata)| == |Spelled(Embed(p, addr, suffix))|
  {
    if !Lookup(zlen, ndata).Nothing? {
      var addr, suffix := Completion(p, zlen, ndata);
    }
    if addr, suffix :| |addr| == 4 && |suffix| == SuffixLength(p) && Begins(ndata, Embed(p, addr, suffix)) {
      BeginningExists(p, zlen, ndata, addr, suffix);
    }
  }

  lemma {:induction false} Completion(p: nat, zlen: nat, ndata: seq<Byte>) returns (addr: seq<Byte>, suffix: seq<Byte>)
    requires PrefixLength(p) && zlen == 10 + p / 2 && !Lookup(zlen, ndata).Nothing?
    ensures |addr| == 4 && |suffix| == SuffixLength(p) && Begins(ndata, Embed(p, addr, suffix))
  {
    var bs := Octets(Nibbles(ndata));
    var full := bs + seq(16 - p / 8 - |bs|, _ => 0);
    suffix := EmbedExtract(p, full);
    addr := Extract(p, full);
    SpelledOctets(Nibbles(ndata));
    assert Spelled(bs) <= Spelled(full) by {
      assert forall q :: 0 <= q < |Spelled(bs)| ==> Spelled(bs)[q] == Spelled(full)[q];
    }
  }

  lemma {:induction false} ZeroBegins(ns: seq<nat>, bs: seq<Byte>, n: nat)
    requires ns <= Spelled(bs) && n < |bs| && bs[n] == 0
    ensures n < |Octets(ns)| ==> Octets(ns)[n] == 0
  {
    if n < |Octets(ns)| {
      assert ns[2 * n] == Spelled(bs)[2 * n] == 0;
      assert 2 * n + 1 < |ns| ==> ns[2 * n + 1] == Spelled(bs)[2 * n + 1] == 0;
    }
  }

  lemma {:induction false} BeginningExists(p: nat, zlen: nat, ndata: seq<Byte>, addr: seq<Byte>, suffix: seq<Byte>)
    requires PrefixLength(p) && zlen == 10 + p / 2
    requires |addr| == 4 && |suffix| == SuffixLength(p) && Begins(ndata, Embed(p, addr, suffix))
    ensures !Lookup(zlen, ndata).Nothing?
    ensures Lookup(zlen, ndata).Address? <==> |Nibbles(ndata)| == |Spelled(Embed(p, addr, suffix))|
  {
    LookupSpells(p, zlen, ndata);
    if p <= 64 {
      ZeroBegins(Nibbles(ndata), Embed(p, addr, suffix), 8 - p / 8);
    }
  }

  // ----- dns64_rdata

  /** Labels in wire form without the root label that ends a name. */
  function Bare(labels: seq<seq<Byte>>): (w: seq<Byte>)
    requires forall i :: 0 <= i < |labels| ==> |labels[i]| < 256
  {
    if labels == [] then [] else Bare(labels[..|labels| - 1]) + Label(labels[|labels| - 1])
  }

  function Label(l: seq<Byte>): (w: seq<Byte>)
    requires |l| < 256
  {
    [|l| as Byte] + l
  }

  lemma {:induction false} WireIsBare(a: seq<seq<Byte>>, b: seq<seq<Byte>>)
    requires forall i :: 0 <= i < |a| ==> |a[i]| < 256
    requires forall i :: 0 <= i < |b| ==> |b[i]| < 256
    ensures Bare(a) + Wire(b) == Wire(a + b)
    decreases |a|
  {
    if a == [] {
      assert a + b == b;
    } else {
      var n := |a| - 1;
      WireIsBare(a[..n], [a[n]] + b);
      assert a[..n] + ([a[n]] + b) == a + b;
      assert ([a[n]] + b)[1..] == b;
      assert Bare(a) + Wire(b) == Bare(a[..n]) + (Label(a[n]) + Wire(b));
    }
  }

  const TAIL: seq<Byte> := [7, 105, 110, 45, 97, 100, 100, 114, 4, 97, 114, 112, 97, 0]

  lemma {:induction false} TailIsInAddrArpa()
    ensures TAIL == Wire([IN_ADDR, ARPA])
  {
    assert [IN_ADDR, ARPA][1..] == [ARPA] && [ARPA][1..] == [];
    assert Wire([ARPA]) == [4, 97, 114, 112, 97, 0];
  }

  lemma {:induction false} Hundreds(c: nat)
    ensures c / 10 / 10 == c / 100 && c / 10 % 10 == c % 100 / 10 && c % 10 == c % 100 % 10
  {
  }

  lemma {:induction false} ThreeDigits(c: Byte)
    ensures c > 99 ==> Decimal(c) == [0x30 + c / 100, 0x30 + c % 100 / 10, 0x30 + c % 100 % 10]
    ensures 9 < c <= 99 ==> Decimal(c) == [0x30 + c / 10, 0x30 + c % 10]
    ensures |Decimal(c)| <= 3
  {
    Hundreds(c);
    if c > 99 {
      assert Decimal(c / 10) == Decimal(c / 10 / 10) + [0x30 + c / 10 % 10];
    }
  }

  /** The body of the loop: the label of one octet. */
  method PutOctet(octet: Byte, rdata: array<Byte>, at: nat) returns (j: nat)
    requires at + 4 <= rdata.Length
    modifies rdata
    ensures |Decimal(octet)| <= 3 && j == at + 1 + |Decimal(octet)|
    ensures rdata[..j] == old(rdata[..at]) + Label(Decimal(octet))
  {
    ThreeDigits(octet);
    var c := octet;
    j := at;
    if c > 99 {
      rdata[j] := 3; j := j + 1;
      rdata[j] := 0x30 + c / 100; c := c % 100; j := j + 1;
      rdata[j] := 0x30 + c / 10; c := c % 10; j := j + 1;
      rdata[j] := 0x30 + c; j := j + 1;
    } else if c > 9 {
      rdata[j] := 2; j := j + 1;
      rdata[j] := 0x30 + c / 10; c := c % 10; j := j + 1;
      rdata[j] := 0x30 + c; j := j + 1;
    } else {
      rdata[j] := 1; j := j + 1;
      rdata[j] := 0x30 + c; j := j + 1;
    }
    assert rdata[..at] == old(rdata[..at]);
    assert rdata[at..j] == Label(Decimal(octet));
    assert rdata[..j] == rdata[..at] + rdata[at..j];
  }

  /** The place in `v` of the `o`th octet read from `start` on, passing over the eighth. */
  function Place(start: nat, o: nat): nat {
    if start + o < 7 || start > 7 then start + o else start + o + 1
  }

  /** The address whose octets lie in `v` from `start` on, least significant first. */
  function Picked(v: seq<Byte>, start: nat): (addr: seq<Byte>)
    requires start != 7 && start + 4 < |v|
    ensures |addr| == 4
  {
    [v[Place(start, 3)], v[Place(start, 2)], v[Place(start, 1)], v[Place(start, 0)]]
  }

  /** `dns64_rdata`: the buffer of 30 octets is never overrun. */
  method Dns64Rdata(v: array<Byte>, from: nat, rdata: array<Byte>) returns (len: nat)
    requires v.Length == 16 && rdata.Length == 30 && v != rdata
    requires from != 7 && from + 4 < 16
    modifies rdata
    ensures len <= 30 && rdata[..len] == InAddr(Picked(v[..], from))
  {
    ghost var addr := Picked(v[..], from);
    ghost var labels := AddressLabels(addr);
    AddressLabelsFit(addr);
    var j, start := 0, from;
    var i := 0;
    while i < 4
      invariant 0 <= i <= 4 && 0 <= j <= 4 * i
      invariant start == Place(from, i)
      invariant rdata[..j] == Bare(labels[..i])
    {
      assert labels[..i + 1][..i] == labels[..i] && labels[..i + 1][i] == labels[i];
      var c := v[start];
      start := start + 1;
      if start == 7 {
        start := start + 1;
      }
      assert labels[i] == Decimal(c);
      j := PutOctet(c, rdata, j);
      i := i + 1;
    }
    ghost var before := rdata[..j];
    var k := 0;
    while k < 14
      invariant 0 <= k <= 14
      invariant rdata[..j + k] == before + TAIL[..k]
    {
      rdata[j + k] := TAIL[k];
      k := k + 1;
    }
    TailIsInAddrArpa();
    WireIsBare(labels[..4], [IN_ADDR, ARPA]);
    assert labels[..4] + [IN_ADDR, ARPA] == labels;
    return j + 14;
  }

  // ----- dns64_cname

  /** Nibbles, least significant first, packed as the loop leaves them: a lone nibble sits in the upper half. */
  function Packed(w: seq<nat>, k: nat): nat {
    if 2 * k + 1 < |w| then w[2 * k] + 16 * w[2 * k + 1]
    else if 2 * k < |w| then 16 * w[2 * k]
    else 0
  }

  /** Whether the nibbles start in the middle of an octet. */
  function Shift(ndata: seq<Byte>): nat {
    if |ndata| % 4 == 2 then 1 else 0
  }

  /** The nibbles of the first `n` labels, least significant first, after the shift. */
  ghost predicate Read(ndata: seq<Byte>, n: nat, w: seq<nat>) {
    && 2 * n <= |ndata| && |w| == Shift(ndata) + n
    && (Shift(ndata) == 1 ==> w[0] == 0)
    && (forall i :: 0 <= i < |w| ==> w[i] < 16)
    && forall i :: 0 <= i < n ==> DigitAt(ndata, i) == Some(w[Shift(ndata) + i])
  }

  ghost predicate Holds(v: seq<Byte>, w: seq<nat>) {
    |v| == 16 && forall k :: 0 <= k < 16 ==> v[k] == Packed(w, k)
  }

  lemma {:induction false} HoldsStep(v: seq<Byte>, w: seq<nat>, n: Byte)
    requires Holds(v, w) && |w| < 32 && n < 16 && forall i :: 0 <= i < |w| ==> w[i] < 16
    ensures 16 * n + v[|w| / 2] / 16 < 256 && Holds(v[|w| / 2 := 16 * n + v[|w| / 2] / 16], w + [n])
  {
    var k := |w| / 2;
    assert |w| % 2 == 1 ==> v[k] == 16 * w[2 * k];
    assert |w| % 2 == 0 ==> v[k] == 0;
    forall m | 0 <= m < 16 && m != k
      ensures Packed(w + [n], m) == Packed(w, m)
    {
    }
  }

  /** The loop that checks the labels and collects their nibbles.  A digit times 16 and an octet shifted
  right by four have no bits in common, so that their disjunction is their sum. */
  method Fill(ndata: seq<Byte>, v: array<Byte>) returns (ok: bool)
    requires v.Length == 16 && |ndata| % 2 == 0 && |ndata| <= 64
    requires forall k :: 0 <= k < 16 ==> v[k] == 0
    modifies v
    ensures ok <==> IsNibbles(ndata)
    ensures ok ==> exists w :: Read(ndata, |ndata| / 2, w) && Holds(v[..], w)
  {
    var i := if |ndata| % 4 == 2 then 1 else 0;
    ghost var w: seq<nat> := if |ndata| % 4 == 2 then [0] else [];
    var n := 0;
    while 2 * n < |ndata|
      invariant 0 <= n && i == Shift(ndata) + n && Read(ndata, n, w)
      invariant Holds(v[..], w)
    {
      assert i / 2 < 16;
      if ndata[2 * n] != 1 {
        assert DigitAt(ndata, n).None?;
        return false;
      }
      var h := Hex16(ndata[2 * n + 1]);
      if h == 1 {
        assert DigitAt(ndata, n).None?;
        return false;
      }
      var d := h / 16;
      assert DigitAt(ndata, n) == Some(d);
      HoldsStep(v[..], w, d);
      ghost var was := v[..];
      v[i / 2] := h + v[i / 2] / 16;
      assert v[..] == was[i / 2 := 16 * d + was[i / 2] / 16];
      w := w + [d];
      i := i + 1;
      n := n + 1;
    }
    return true;
  }

  ghost predicate Mirrored(bs: seq<Byte>, v: seq<Byte>) {
    |bs| <= |v| == 16 && forall q :: 0 <= q < |bs| ==> bs[q] == v[|bs| - 1 - q]
  }

  /** The octets of the name lie in `v` the other way round. */
  lemma {:induction false} FilledOctets(ndata: seq<Byte>, v: seq<Byte>, w: seq<nat>)
    requires IsNibbles(ndata) && Read(ndata, |ndata| / 2, w) && Holds(v, w) && |ndata| <= 64
    ensures Mirrored(Octets(Nibbles(ndata)), v)
  {
    var ns := Nibbles(ndata);
    forall q | 0 <= q < |ns|
      ensures ns[q] == w[|w| - 1 - q]
    {
      assert DigitAt(ndata, |ns| - 1 - q) == Some(w[Shift(ndata) + (|ns| - 1 - q)]);
    }
    forall q | 0 <= q < |Octets(ns)|
      ensures Octets(ns)[q] == v[|Octets(ns)| - 1 - q]
    {
      OctetPacked(ns, w, q);
    }
  }

  lemma {:induction false} OctetPacked(ns: seq<nat>, w: seq<nat>, q: nat)
    requires forall i :: 0 <= i < |ns| ==> ns[i] < 16
    requires |w| == |ns| + |ns| % 2 && forall i :: 0 <= i < |ns| ==> ns[i] == w[|w| - 1 - i]
    requires |ns| % 2 == 1 ==> w[0] == 0
    requires q < |Octets(ns)|
    ensures Octets(ns)[q] == Packed(w, |Octets(ns)| - 1 - q)
  {
    assert ns[2 * q] == w[|w| - 1 - 2 * q];
    assert 2 * q + 1 < |ns| ==> ns[2 * q + 1] == w[|w| - 2 - 2 * q];
  }

  /** Where the last octet of the embedded address lies in `v`. */
  function StartOf(p: nat): nat
    requires PrefixLength(p)
  {
    if p == 32 then 8 else if p == 40 then 6 else if p == 48 then 5
    else if p == 56 then 4 else if p == 64 then 3 else 0
  }

  lemma {:induction false} PickedIsExtract(p: nat, bs: seq<Byte>, v: seq<Byte>)
    requires PrefixLength(p) && |bs| == 16 - p / 8 && Mirrored(bs, v)
    ensures Picked(v, StartOf(p)) == Extract(p, bs)
  {
    forall o | 0 <= o < 4
      ensures Picked(v, StartOf(p))[o] == Extract(p, bs)[o]
    {
      var b := if p / 8 + o < 8 || p == 96 then o else o + 1;
      assert Extract(p, bs)[o] == bs[b] == v[|bs| - 1 - b];
      assert Place(StartOf(p), 3 - o) == |bs| - 1 - b;
    }
  }

  /** The cases on the length of the zone's name: the test on bits 64 to 71, and where the address is. */
  method Reserved(zlen: nat, nlen: nat, v: array<Byte>, ghost bs: seq<Byte>) returns (zero: bool, start: nat)
    requires PrefixOf(zlen).Some? && nlen > 0 && nlen % 2 == 0 && zlen + nlen <= 74
    requires |bs| == (nlen - 1) / 4 + 1 && Mirrored(bs, v[..])
    ensures zero <==> ReservedZero(PrefixOf(zlen).value, bs)
    ensures start == StartOf(PrefixOf(zlen).value)
  {
    ghost var p, top := PrefixOf(zlen).value, (nlen - 1) / 4;
    assert p <= 64 && 8 - p / 8 < |bs| ==> bs[8 - p / 8] == v[top - (8 - p / 8)];
    match zlen {
      case 26 => return !(nlen > 16 && v[(nlen - 1) / 4 - 4] != 0), 8;
      case 30 => return !(nlen > 12 && v[(nlen - 1) / 4 - 3] != 0), 6;
      case 34 => return !(nlen > 8 && v[(nlen - 1) / 4 - 2] != 0), 5;
      case 38 => return !(nlen > 4 && v[(nlen - 1) / 4 - 1] != 0), 4;
      case 42 => return v[(nlen - 1) / 4] == 0, 3;
      case _ => return true, 0;
    }
  }

  /** `dns64_cname`, called for names other than the zone's own. */
  method Dns64Cname(zlen: nat, ndata: seq<Byte>) returns (r: Answer)
    requires ndata != []
    ensures r == Reply(Lookup(zlen, ndata))
  {
    var nlen := |ndata|;
    if zlen + nlen > 74 || zlen < 10 || nlen % 2 != 0 {
      return NotFound;
    }
    var v := new Byte[16](_ => 0);
    var ok := Fill(ndata, v);
    if !ok {
      return NotFound;
    }
    if PrefixOf(zlen).None? {
      return NotFound;
    }
    ghost var w :| Read(ndata, |ndata| / 2, w) && Holds(v[..], w);
    FilledOctets(ndata, v[..], w);
    var zero, start := Reserved(zlen, nlen, v, Octets(Nibbles(ndata)));
    if !zero {
      return NotFound;
    }
    if nlen + zlen != 74 {
      return Empty;
    }
    PickedIsExtract(PrefixOf(zlen).value, Octets(Nibbles(ndata)), v[..]);
    var rdata := new Byte[30](_ => 0);
    var len := Dns64Rdata(v, start, rdata);
    return Cname(rdata[..len]);
  }
}
