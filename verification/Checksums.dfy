/** The Internet checksum (`in_cksum`) over the octets of a packet, on a host of either byte order. */
module Checksums {
  import opened Bytes

  type Word = w: nat | w < 0x1_0000

  const MAX: nat := 0xFFFF

  /** Two consecutive octets as the host reads them. */
  function ToWord(big: bool, a: Byte, b: Byte): Word {
    if big then 256 * a + b else a + 256 * b
  }

  function FromWord(big: bool, w: Word): (bs: seq<Byte>)
    ensures |bs| == 2 && ToWord(big, bs[0], bs[1]) == w
  {
    if big then [w / 256, w % 256] else [w % 256, w / 256]
  }

  /** The words of the data, an odd octet at the end being followed by a zero octet. */
  function Words(big: bool, data: seq<Byte>): (ws: seq<Word>)
    ensures |ws| == (|data| + 1) / 2
  {
    seq((|data| + 1) / 2, k requires 0 <= k < (|data| + 1) / 2 =>
      ToWord(big, data[2 * k], if 2 * k + 1 < |data| then data[2 * k + 1] else 0))
  }

  function Sum(ws: seq<Word>): (n: nat)
    ensures n <= MAX * |ws|
  {
    if ws == [] then 0 else Sum(ws[..|ws| - 1]) + ws[|ws| - 1]
  }

  /** Addition with end-around carry, as section 1 of RFC 1071 has it. */
  function EndAround(a: Word, b: Word): Word {
    if a + b > MAX then a + b - MAX else a + b
  }

  function OnesSum(ws: seq<Word>): Word {
    if ws == [] then 0 else EndAround(OnesSum(ws[..|ws| - 1]), ws[|ws| - 1])
  }

  /** The two folds of a sum. */
  function Fold(sum: nat): nat {
    var s := sum / 0x1_0000 + sum % 0x1_0000;
    s + s / 0x1_0000
  }

  /** The residue of a sum modulo 65535, with 65535 and not 0 for the multiples that are not zero. */
  function Residue(n: nat): (r: Word) {
    if n == 0 then 0 else 1 + (n - 1) % MAX
  }

  lemma {:induction false} ResidueStep(n: nat, w: Word)
    ensures Residue(n + w) == EndAround(Residue(n), w)
  {
    if n > 0 {
      var q, r := (n - 1) / MAX, (n - 1) % MAX;
      assert n - 1 == q * MAX + r;
      if r + w >= MAX {
        assert n + w - 1 == (q + 1) * MAX + (r + w - MAX);
        Divides(n + w - 1, q + 1, r + w - MAX);
      } else {
        Divides(n + w - 1, q, r + w);
      }
    }
  }

  lemma {:induction false} Divides(n: nat, q: nat, r: nat)
    requires n == q * MAX + r && r < MAX
    ensures n % MAX == r
  {
  }

  lemma {:induction false} OnesSumIsResidue(ws: seq<Word>)
    ensures OnesSum(ws) == Residue(Sum(ws))
  {
    if ws != [] {
      OnesSumIsResidue(ws[..|ws| - 1]);
      ResidueStep(Sum(ws[..|ws| - 1]), ws[|ws| - 1]);
    }
  }

  /** Two folds bring any sum of 31 bits down to its residue. */
  lemma {:induction false} TwoFolds(sum: nat)
    requires sum < 0x8000_0000
    ensures Fold(sum) % 0x1_0000 == Residue(sum)
  {
    var hi, lo := sum / 0x1_0000, sum % 0x1_0000;
    assert sum == hi * 0x1_0000 + lo;
    if sum > 0 {
      if hi + lo > MAX {
        Divides(sum - 1, hi + 1, hi + lo - MAX - 1);
      } else {
        Divides(sum - 1, hi, hi + lo - 1);
      }
    }
  }

  /** The checksum of data: the complement of its ones'-complement sum. */
  function Checksum(big: bool, data: seq<Byte>): Word {
    MAX - OnesSum(Words(big, data))
  }

  lemma {:induction false} SumStep(ws: seq<Word>, at: nat)
    requires at < |ws|
    ensures Sum(ws[..at + 1]) == Sum(ws[..at]) + ws[at]
    ensures ws[..|ws|] == ws
  {
    assert ws[..at + 1][..at] == ws[..at];
  }

  lemma {:induction false} SumGrows(ws: seq<Word>, at: nat)
    requires at <= |ws|
    ensures Sum(ws[..at]) <= Sum(ws)
    decreases |ws| - at
  {
    if at < |ws| {
      SumStep(ws, at);
      SumGrows(ws, at + 1);
    } else {
      assert ws[..at] == ws;
    }
  }

  /** Up to 65536 octets the sum fits an `int`, whatever they are. */
  lemma {:induction false} SumFits(big: bool, data: seq<Byte>)
    requires |data| <= 0x1_0000
    ensures Sum(Words(big, data)) < 0x8000_0000
  {
  }

  /** The accumulation of words in an `int`, which the sum must fit. */
  method AddUp(big: bool, data: seq<Byte>) returns (sum: nat)
    requires Sum(Words(big, data)) < 0x8000_0000
    ensures sum == Sum(Words(big, data))
  {
    ghost var ws := Words(big, data);
    var len, at := |data|, 0;
    sum := 0;
    while len > 1
      invariant 0 <= len && len + 2 * at == |data|
      invariant sum == Sum(ws[..at])
    {
      SumStep(ws, at);
      SumGrows(ws, at + 1);
      sum := sum + ToWord(big, data[2 * at], data[2 * at + 1]);
      assert sum < 0x8000_0000;
      at := at + 1;
      len := len - 2;
    }
    if len == 1 {
      SumStep(ws, at);
      sum := sum + ToWord(big, data[2 * at], 0);
    }
    assert ws[..|ws|] == ws;
  }

  /** `in_cksum`. */
  method InCksum(big: bool, data: seq<Byte>) returns (res: Word)
    requires Sum(Words(big, data)) < 0x8000_0000
    ensures res == Checksum(big, data)
  {
    var sum := AddUp(big, data);
    OnesSumIsResidue(Words(big, data));
    TwoFolds(sum);
    sum := sum / 0x1_0000 + sum % 0x1_0000;
    sum := sum + sum / 0x1_0000;
    res := MAX - sum % 0x1_0000;
  }

  /** An odd octet counts as if a zero octet followed it. */
  lemma {:induction false} OddLengthIsPadded(big: bool, data: seq<Byte>)
    requires |data| % 2 == 1
    ensures Checksum(big, data) == Checksum(big, data + [0])
  {
    assert Words(big, data) == Words(big, data + [0]);
  }

  /** The words are the octets in pairs: the even ones and the odd ones, as the host weighs them. */
  lemma {:induction false} WordsAreOctets(big: bool, data: seq<Byte>, k: nat)
    requires 2 * k + 1 < |data|
    ensures var even, odd := data[2 * k] as int, data[2 * k + 1] as int;
            Words(big, data)[k] as int == if big then even * 256 + odd else odd * 256 + even
  {
  }

  // ----- checking a checksum

  /** The data with a word stored at an even offset. */
  function Stored(big: bool, data: seq<Byte>, at: nat, w: Word): (r: seq<Byte>)
    requires at + 2 <= |data|
    ensures |r| == |data|
  {
    data[..at] + FromWord(big, w) + data[at + 2..]
  }

  lemma {:induction false} StoredAfter(big: bool, head: seq<Byte>, tail: seq<Byte>, at: nat, w: Word)
    requires at + 2 <= |tail|
    ensures head + Stored(big, tail, at, w) == Stored(big, head + tail, |head| + at, w)
  {
  }

  lemma {:induction false} WordsStored(big: bool, data: seq<Byte>, k: nat, w: Word)
    requires 2 * k + 2 <= |data|
    ensures Words(big, Stored(big, data, 2 * k, w)) == Words(big, data)[k := w]
  {
  }

  lemma {:induction false} SumUpdate(ws: seq<Word>, k: nat, w: Word)
    requires k < |ws|
    ensures Sum(ws[k := w]) + ws[k] == Sum(ws) + w
    decreases |ws|
  {
    var n := |ws| - 1;
    if k < n {
      SumUpdate(ws[..n], k, w);
      assert ws[k := w][..n] == ws[..n][k := w];
    } else {
      assert ws[k := w][..n] == ws[..n];
    }
  }

  /** A word stored in the place of a zero is added to the sum. */
  lemma {:induction false} StoredSum(big: bool, data: seq<Byte>, k: nat, w: Word)
    requires 2 * k + 2 <= |data| && data[2 * k] == 0 && data[2 * k + 1] == 0
    ensures OnesSum(Words(big, Stored(big, data, 2 * k, w))) == EndAround(OnesSum(Words(big, data)), w)
  {
    WordsStored(big, data, k, w);
    OnesSumUpdate(Words(big, data), k, w);
  }

  lemma {:induction false} OnesSumUpdate(ws: seq<Word>, k: nat, w: Word)
    requires k < |ws| && ws[k] == 0
    ensures OnesSum(ws[k := w]) == EndAround(OnesSum(ws), w)
  {
    SumUpdate(ws, k, w);
    OnesSumIsResidue(ws);
    OnesSumIsResidue(ws[k := w]);
    ResidueStep(Sum(ws), w);
  }

  /** Data whose checksum was taken with a zero in its place and then stored there has checksum zero. */
  lemma {:induction false} StoredChecksumVerifies(big: bool, data: seq<Byte>, k: nat)
    requires 2 * k + 2 <= |data| && data[2 * k] == 0 && data[2 * k + 1] == 0
    ensures Checksum(big, Stored(big, data, 2 * k, Checksum(big, data))) == 0
  {
    StoredSum(big, data, k, Checksum(big, data));
  }

  /** No other word stored there would do, except 65535 for 0. */
  lemma {:induction false} OnlyChecksumVerifies(big: bool, data: seq<Byte>, k: nat, w: Word)
    requires 2 * k + 2 <= |data| && data[2 * k] == 0 && data[2 * k + 1] == 0
    requires Checksum(big, Stored(big, data, 2 * k, w)) == 0
    ensures w == Checksum(big, data) || (w == MAX && Checksum(big, data) == 0)
  {
    StoredSum(big, data, k, w);
  }

  /** The code stores the checksum as it is, and so a zero, which in a UDP header means that there is
  none, exactly when the words do not all vanish and add up to a multiple of 65535. */
  lemma {:induction false} ZeroChecksum(big: bool, data: seq<Byte>)
    ensures Checksum(big, data) == 0 <==> Sum(Words(big, data)) > 0 && Sum(Words(big, data)) % MAX == 0
  {
    var n := Sum(Words(big, data));
    OnesSumIsResidue(Words(big, data));
    if n > 0 {
      var q, r := (n - 1) / MAX, (n - 1) % MAX;
      assert n - 1 == q * MAX + r;
      if r + 1 < MAX {
        Divides(n, q, r + 1);
      } else {
        Divides(n, q + 1, 0);
      }
    }
  }

  // ----- byte order

  function Swap(w: Word): Word {
    w / 256 + 256 * (w % 256)
  }

  lemma {:induction false} SwapEndAround(a: Word, b: Word)
    ensures Swap(EndAround(a, b)) == EndAround(Swap(a), Swap(b))
  {
    var e, f := EndAround(a, b), EndAround(Swap(a), Swap(b));
    SwapShift(a);
    SwapShift(b);
    SwapShift(e);
    var c, d := if a + b > MAX then 1 else 0, if Swap(a) + Swap(b) > MAX then 1 else 0;
    Congruent(Swap(e), f, a / 256 + b / 256 + d - e / 256 - 256 * c);
  }

  /** To swap octets is to multiply by 256, modulo 65535. */
  lemma {:induction false} SwapShift(w: Word)
    ensures Swap(w) == 256 * w - MAX * (w / 256) && (Swap(w) == 0 <==> w == 0)
  {
  }

  lemma {:induction false} Congruent(x: Word, y: Word, j: int)
    requires x - y == MAX * j && (x == 0 <==> y == 0)
    ensures x == y
  {
  }

  lemma {:induction false} SwapOnesSum(ws: seq<Word>, vs: seq<Word>)
    requires |ws| == |vs| && forall k :: 0 <= k < |ws| ==> vs[k] == Swap(ws[k])
    ensures OnesSum(vs) == Swap(OnesSum(ws))
  {
    if ws != [] {
      var n := |ws| - 1;
      SwapOnesSum(ws[..n], vs[..n]);
      SwapEndAround(OnesSum(ws[..n]), ws[n]);
    }
  }

  /** Hosts of either byte order store the same two octets. */
  lemma {:induction false} ByteOrderDoesNotMatter(data: seq<Byte>)
    ensures FromWord(true, Checksum(true, data)) == FromWord(false, Checksum(false, data))
  {
    SwapOnesSum(Words(true, data), Words(false, data));
    SwapComplement(OnesSum(Words(true, data)));
  }

  lemma {:induction false} SwapComplement(w: Word)
    ensures FromWord(true, MAX - w) == FromWord(false, MAX - Swap(w))
  {
    var h, l := w / 256, w % 256;
    assert w == 256 * h + l;
    assert MAX - w == 256 * (255 - h) + (255 - l);
    assert MAX - Swap(w) == 256 * (255 - l) + (255 - h);
  }
}
