/**
  The Internet checksum of the network stack: three versions of the plain sum
  and the routines that combine partial sums over chains of buffers.

  The host is little-endian. The 32-bit accumulators of the C code are written
  out with `% U32`, so a lost carry would be visible.
 */
module Checksum {

  type Byte = x: int | 0 <= x < 256

  const U32 := 0x1_0000_0000

  // ---------------------------------------------------------------------------
  // Reference: section 1 of RFC 1071
  // ---------------------------------------------------------------------------

  /** 16-bit one's complement addition: the carry is added back at the low end. */
  function OcAdd(a: int, b: int): int {
    if a + b > 0xffff then a + b - 0xffff else a + b
  }

  /** A 16-bit word from its low and its high byte. */
  function Word(lo: int, hi: int): int {
    lo + 256 * hi
  }

  /** One's complement sum of the 16-bit words of `d`, loaded in host order; an
      odd last byte is padded with a zero byte. */
  function InetSum(d: seq<Byte>): int {
    if |d| == 0 then 0
    else if |d| == 1 then d[0]
    else OcAdd(Word(d[0], d[1]), InetSum(d[2..]))
  }

  // ---------------------------------------------------------------------------
  // Arithmetic with end-around carry
  // ---------------------------------------------------------------------------

  /** The words of `d` added up as an ordinary number. */
  function WordSum(d: seq<Byte>): nat {
    if |d| == 0 then 0
    else if |d| == 1 then d[0]
    else Word(d[0], d[1]) + WordSum(d[2..])
  }

  /** The 16-bit value of an unbounded sum once all carries are added back: the
      representative modulo 65535 that is 0 only for 0. */
  function Oc(n: nat): (r: nat)
    ensures r <= 0xffff && (r == 0 <==> n == 0)
  {
    if n <= 0xffff then n else Oc(n - 0xffff)
  }

  lemma {:induction false} OcSkip(n: nat, k: nat)
    requires n > 0
    ensures Oc(n + 0xffff * k) == Oc(n)
    decreases k
  {
    if k == 0 {
    } else {
      OcSkip(n, k - 1);
      assert n + 0xffff * k - 0xffff == n + 0xffff * (k - 1);
    }
  }

  lemma {:induction false} OcAddLeft(x: nat, y: nat)
    ensures Oc(Oc(x) + y) == Oc(x + y)
    decreases x
  {
    if x > 0xffff {
      OcAddLeft(x - 0xffff, y);
    }
  }

  lemma OcAddBoth(x: nat, y: nat)
    ensures Oc(Oc(x) + Oc(y)) == Oc(x + y)
  {
    hide Oc;
    OcAddLeft(x, Oc(y));
    OcAddLeft(y, x);
  }

  lemma {:induction false} OcTimes256(x: nat)
    ensures Oc(256 * Oc(x)) == Oc(256 * x)
    decreases x
  {
    if x > 0xffff {
      OcTimes256(x - 0xffff);
      OcSkip(256 * (x - 0xffff), 256);
      assert 256 * x == 256 * (x - 0xffff) + 0xffff * 256;
    }
  }

  lemma OcTimes65536(x: nat, y: nat)
    ensures Oc(0x10000 * x + y) == Oc(x + y)
  {
    if x > 0 {
      OcSkip(x + y, x);
    }
  }

  lemma {:induction false} InetSumIsOc(d: seq<Byte>)
    ensures InetSum(d) == Oc(WordSum(d))
  {
    if |d| < 2 {
    } else {
      InetSumIsOc(d[2..]);
      OcAddLeft(WordSum(d[2..]), Word(d[0], d[1]));
    }
  }

  /** Section 2 of RFC 1071: a piece appended after an odd number of bytes counts
      with its bytes swapped, which multiplies its sum by 256 modulo 65535. */
  lemma {:induction false} WordSumConcat(a: seq<Byte>, b: seq<Byte>)
    ensures Even(|a|) ==> WordSum(a + b) == WordSum(a) + WordSum(b)
    ensures Oc(WordSum(a + b)) == Oc(WordSum(a) + (if Even(|a|) then WordSum(b) else 256 * WordSum(b)))
  {
    hide Oc, WordSum;
    if |a| == 0 {
      assert a + b == b;
      ShortSum(a);
    } else if |a| == 1 {
      OneThen(a[0], b);
      assert a + b == [a[0]] + b;
      ShortSum(a);
    } else {
      var w, t := Word(a[0], a[1]), if Even(|a|) then WordSum(b) else 256 * WordSum(b);
      WordSumConcat(a[2..], b);
      assert (a + b)[2..] == a[2..] + b;
      WordSumUnfold(a);
      WordSumUnfold(a + b);
      OcAddLeft(WordSum(a[2..] + b), w);
      OcAddLeft(WordSum(a[2..]) + t, w);
    }
  }

  lemma ShortSum(d: seq<Byte>)
    requires |d| <= 1
    ensures WordSum(d) == if |d| == 0 then 0 else d[0]
  {
  }

  lemma WordSumUnfold(d: seq<Byte>)
    requires |d| >= 2
    ensures WordSum(d) == Word(d[0], d[1]) + WordSum(d[2..])
  {
  }

  lemma {:induction false} OneThen(x: Byte, b: seq<Byte>)
    ensures Oc(WordSum([x] + b)) == Oc(Word(x, WordSum(b)))
    decreases |b|
  {
    hide Oc, WordSum;
    var d := [x] + b;
    if |b| < 1 {
      ShortSum(b);
      ShortSum(d);
    } else {
      assert d[1] == b[0] && d[2..] == b[1..];
      WordSumUnfold(d);
      if |b| == 1 {
        ShortSum(b);
        ShortSum(b[1..]);
      } else {
        OneThen(b[1], b[2..]);
        assert b[1..] == [b[1]] + b[2..];
        WordSumUnfold(b);
        CarryOver(x, b[0], b[1], WordSum(b[2..]), WordSum(b[1..]));
      }
    }
  }

  /** What the second of two bytes moves into the next word comes back as a carry. */
  lemma CarryOver(x: nat, p: nat, y: nat, w: nat, s: nat)
    requires Oc(s) == Oc(Word(y, w))
    ensures Oc(Word(x, p) + s) == Oc(Word(x, Word(p, y) + w))
  {
    hide Oc;
    var z := Word(x, p);
    OcAddLeft(s, z);
    OcAddLeft(Word(y, w), z);
    OcTimes65536(y, 256 * w + z);
    assert Word(x, Word(p, y) + w) == 0x10000 * y + (256 * w + z);
  }

  predicate Even(n: nat) {
    n % 2 == 0
  }

  // ---------------------------------------------------------------------------
  // The two macros of inet_chksum.h
  // ---------------------------------------------------------------------------

  function Fold(u: nat): nat {
    u / 0x10000 + u % 0x10000
  }

  function SwapBytes(w: nat): nat {
    Word(w / 256 % 256, w % 256)
  }

  /** One fold keeps the value and halves the width; two folds finish the sum. */
  lemma FoldOnce(n: nat)
    requires n < U32
    ensures Fold(n) <= 0x1fffe && Oc(Fold(n)) == Oc(n)
    ensures Fold(n) <= 0xffff ==> Fold(n) == Oc(n)
    ensures n <= 0x1fffe ==> Fold(n) <= 0xffff
  {
    var h, l := n / 0x10000, n % 0x10000;
    assert n == 0x10000 * h + l;
    OcTimes65536(h, l);
  }

  lemma FoldTwice(n: nat)
    requires n < U32
    ensures Fold(Fold(n)) == Oc(n)
  {
    hide Oc, Fold;
    FoldOnce(n);
    FoldOnce(Fold(n));
  }

  lemma SwapIsTimes256(w: nat)
    requires w <= 0xffff
    ensures SwapBytes(w) == Oc(256 * w) <= 0xffff
  {
    var h, l := w / 256, w % 256;
    assert h % 256 == h;
    assert 256 * w == 0x10000 * h + 256 * l;
    OcTimes65536(h, 256 * l);
  }

  /** Swapping the finished sum multiplies what it stands for by 256; twice is nothing. */
  lemma SwapOc(n: nat)
    ensures SwapBytes(Oc(n)) == Oc(256 * n)
  {
    hide Oc, SwapBytes;
    SwapIsTimes256(Oc(n));
    OcTimes256(n);
  }

  lemma SwapBack(n: nat)
    ensures SwapBytes(Oc(256 * n)) == Oc(n)
  {
    hide Oc, SwapBytes;
    SwapOc(256 * n);
    OcTimes65536(n, 0);
  }

  /** The same bytes read in network order. */
  function WordSumBE(d: seq<Byte>): nat {
    if |d| == 0 then 0
    else if |d| == 1 then Word(0, d[0])
    else Word(d[1], d[0]) + WordSumBE(d[2..])
  }

  /** Section 2(B) of RFC 1071, byte order independence. */
  lemma {:induction false} BigEndianIsSwapped(d: seq<Byte>)
    ensures Oc(WordSumBE(d)) == Oc(256 * WordSum(d))
    ensures SwapBytes(Oc(WordSumBE(d))) == InetSum(d)
  {
    hide Oc, SwapBytes;
    if |d| >= 2 {
      BigEndianIsSwapped(d[2..]);
      var hi: nat, lo: nat, w := d[1], d[0], WordSum(d[2..]);
      OcAddLeft(WordSumBE(d[2..]), Word(hi, lo));
      OcAddLeft(256 * w, Word(hi, lo));
      OcTimes65536(hi, 256 * w + 256 * lo);
      assert 256 * WordSum(d) == 0x10000 * hi + (256 * w + 256 * lo);
    }
    InetSumIsOc(d);
    SwapBack(WordSum(d));
  }

  /** No 32-bit accumulator overflows while it adds up to 0x20000 bytes. */
  lemma {:induction false} WordSumBound(d: seq<Byte>)
    ensures 2 * WordSum(d) <= 0xffff * (|d| + 1) && 2 * WordSumBE(d) <= 0xffff * (|d| + 1)
    ensures Even(|d|) ==> 2 * WordSum(d) <= 0xffff * |d| && 2 * WordSumBE(d) <= 0xffff * |d|
  {
    if |d| < 2 {
    } else {
      WordSumBound(d[2..]);
    }
  }

  /** Starting at an odd address: the first byte is put in the high half and the
      rest is summed in words; the swap at the end repairs the result. */
  lemma OddStart(d: seq<Byte>)
    requires |d| > 0
    ensures SwapBytes(Oc(Word(WordSum(d[1..]), d[0]))) == InetSum(d)
  {
    hide Oc, SwapBytes;
    OneThen(d[0], d[1..]);
    assert d == [d[0]] + d[1..];
    var x: nat, w: nat := d[0], WordSum(d[1..]);
    InetSumIsOc(d);
    SwapOc(Word(w, x));
    OcTimes65536(x, 256 * w);
    assert 256 * Word(w, x) == 0x10000 * x + 256 * w;
  }

  lemma WordSumSnoc(d: seq<Byte>, k: nat)
    requires 2 * k + 2 <= |d|
    ensures WordSum(d[..2 * k + 2]) == WordSum(d[..2 * k]) + Word(d[2 * k], d[2 * k + 1])
  {
    hide Oc, WordSum;
    var w := [d[2 * k], d[2 * k + 1]];
    assert d[..2 * k + 2] == d[..2 * k] + w;
    WordSumConcat(d[..2 * k], w);
    WordSumUnfold(w);
    ShortSum(w[2..]);
  }

  lemma {:induction false} WordSumBESnoc(d: seq<Byte>, k: nat)
    requires 2 * k + 2 <= |d|
    ensures WordSumBE(d[..2 * k + 2]) == WordSumBE(d[..2 * k]) + Word(d[2 * k + 1], d[2 * k])
    decreases k
  {
    if k == 0 {
      assert d[..2][2..] == [] && d[..0] == [];
    } else {
      WordSumBESnoc(d[2..], k - 1);
      assert d[..2 * k + 2][2..] == d[2..][..2 * k];
      assert d[..2 * k][2..] == d[2..][..2 * k - 2];
    }
  }

  /** The tail: an even part followed by at most one byte. */
  lemma WordSumTail(d: seq<Byte>, k: nat)
    requires 2 * k <= |d| <= 2 * k + 1
    ensures WordSum(d) == WordSum(d[..2 * k]) + (if 2 * k < |d| then d[2 * k] else 0)
  {
    hide Oc, WordSum;
    assert d == d[..2 * k] + d[2 * k..];
    WordSumConcat(d[..2 * k], d[2 * k..]);
    ShortSum(d[2 * k..]);
  }

  lemma {:induction false} WordSumBETail(d: seq<Byte>, k: nat)
    requires 2 * k <= |d| <= 2 * k + 1
    ensures WordSumBE(d) == WordSumBE(d[..2 * k]) + (if 2 * k < |d| then Word(0, d[2 * k]) else 0)
    decreases k
  {
    if k == 0 {
    } else {
      WordSumBETail(d[2..], k - 1);
      assert d[..2 * k][2..] == d[2..][..2 * k - 2];
    }
  }

  lemma NoCarry(x: nat)
    requires x < U32
    ensures x % U32 == x
  {
  }

  // ---------------------------------------------------------------------------
  // The three versions of lwip_standard_chksum
  // ---------------------------------------------------------------------------

  function LoadU16(d: seq<Byte>, i: nat): nat
    requires i + 2 <= |d|
  {
    Word(d[i], d[i + 1])
  }

  function LoadU32(d: seq<Byte>, i: nat): nat
    requires i + 4 <= |d|
  {
    LoadU16(d, i) + 0x10000 * LoadU16(d, i + 2)
  }

  lemma NoWordsBE(d: seq<Byte>)
    ensures WordSumBE(d[..0]) == 0
  {
  }

  /** Version 1: network byte order, two octets at a time. */
  method Chksum1(d: seq<Byte>) returns (r: int)
    requires |d| <= 0x20000
    ensures r == InetSum(d)
  {
    hide Oc, Fold, SwapBytes, WordSumBE, WordSum, InetSum;
    var acc, i, len := 0, 0, |d|;
    ghost var k := 0;
    NoWordsBE(d);
    while len > 1
      invariant 0 <= k && i == 2 * k && i + len == |d| && len >= 0
      invariant acc == WordSumBE(d[..i])
    {
      var src := Word(0, d[i]);
      src := src + d[i + 1];
      WordSumBESnoc(d, k);
      WordSumBound(d[..i + 2]);
      NoCarry(acc + src);
      acc := (acc + src) % U32;
      i := i + 2;
      len := len - 2;
      k := k + 1;
    }
    WordSumBETail(d, k);
    WordSumBound(d);
    if len > 0 {
      NoCarry(acc + Word(0, d[i]));
      acc := (acc + Word(0, d[i])) % U32;
    }
    FoldOnce(acc);
    FoldTwice(acc);
    BigEndianIsSwapped(d);
    acc := Fold(acc);
    if acc / 0x10000 != 0 {
      acc := Fold(acc);
    }
    r := SwapBytes(acc);
  }

  /** Version 2: aligned 16-bit loads; `addr` is the start address of the data. */
  method Chksum2(addr: nat, d: seq<Byte>) returns (r: int)
    requires |d| <= 0x20000
    ensures r == InetSum(d)
  {
    hide Oc, Fold, SwapBytes, WordSum, InetSum;
    var pb, len, t, sum := 0, |d|, 0, 0;
    var odd := addr % 2 == 1;
    if odd && len > 0 {
      t := Word(0, d[0]);
      pb, len := 1, len - 1;
    }
    ghost var e, k := d[pb..], 0;
    WordSumBound(e);
    NoWords(e);
    var ps := pb;
    while len > 1
      invariant 0 <= k && ps == pb + 2 * k && ps + len == |d| && len >= 0
      invariant sum == WordSum(e[..2 * k])
    {
      WordSumSnoc(e, k);
      WordSumBound(e[..2 * k + 2]);
      NoCarry(sum + LoadU16(d, ps));
      sum := (sum + LoadU16(d, ps)) % U32;
      ps := ps + 2;
      len := len - 2;
      k := k + 1;
    }
    WordSumTail(e, k);
    if len > 0 {
      t := t + d[ps];
    }
    NoCarry(sum + t);
    sum := (sum + t) % U32;
    r := FinishAligned(d, pb, odd, sum);
  }

  /** The common end of versions 2 and 3: fold twice, swap if the start was odd. */
  method FinishAligned(d: seq<Byte>, pb: nat, odd: bool, s: nat) returns (r: int)
    requires pb == (if odd && |d| > 0 then 1 else 0)
    requires s < U32 && Oc(s) == Oc(Word(WordSum(d[pb..]), if pb == 1 then d[0] else 0))
    ensures r == InetSum(d)
  {
    hide Oc, Fold, SwapBytes;
    FoldTwice(s);
    var sum := Fold(s);
    sum := Fold(sum);
    AlignedValue(d, pb, odd);
    if odd {
      sum := SwapBytes(sum);
    }
    r := sum;
  }

  lemma AlignedValue(d: seq<Byte>, pb: nat, odd: bool)
    requires pb == (if odd && |d| > 0 then 1 else 0)
    ensures var v := Oc(Word(WordSum(d[pb..]), if pb == 1 then d[0] else 0));
            InetSum(d) == if odd then SwapBytes(v) else v
  {
    hide Oc, SwapBytes;
    if pb == 1 {
      OddStart(d);
    } else {
      assert d[pb..] == d;
      InetSumIsOc(d);
      SwapOc(WordSum(d));
    }
  }

  /** 32-bit addition that adds the carry back, as the unrolled loop does. */
  method AddWithCarry(sum: nat, w: nat) returns (tmp: nat)
    requires sum < U32 && w < U32
    ensures tmp < U32 && Oc(tmp) == Oc(sum + w)
  {
    tmp := (sum + w) % U32;
    if tmp < sum {
      tmp := tmp + 1;
      OcSkip(tmp, 0x10001);
    }
  }

  /** `sum` stands for the first `k` words of `e`. */
  ghost predicate SumsWords(sum: nat, e: seq<Byte>, k: nat) {
    2 * k <= |e| && Oc(sum) == Oc(WordSum(e[..2 * k]))
  }

  lemma AddQuad(after: nat, sum: nat, e: seq<Byte>, k: nat)
    requires 2 * k + 4 <= |e| && SumsWords(sum, e, k) && Oc(after) == Oc(sum + LoadU32(e, 2 * k))
    ensures SumsWords(after, e, k + 2)
  {
    hide Oc;
    WordSumSnoc(e, k);
    WordSumSnoc(e, k + 1);
    AddHalves(sum, WordSum(e[..2 * k]), LoadU16(e, 2 * k), LoadU16(e, 2 * k + 2));
  }

  lemma AddHalves(sum: nat, n: nat, l: nat, h: nat)
    requires Oc(sum) == Oc(n)
    ensures Oc(sum + (l + 0x10000 * h)) == Oc(n + l + h)
  {
    hide Oc;
    OcAddLeft(sum, l + 0x10000 * h);
    OcAddLeft(n, l + 0x10000 * h);
    OcTimes65536(h, n + l);
  }

  lemma AddWord(sum: nat, e: seq<Byte>, k: nat)
    requires 2 * k + 2 <= |e| && SumsWords(sum, e, k)
    ensures SumsWords(sum + LoadU16(e, 2 * k), e, k + 1)
  {
    hide Oc;
    WordSumSnoc(e, k);
    OcAddLeft(sum, LoadU16(e, 2 * k));
    OcAddLeft(WordSum(e[..2 * k]), LoadU16(e, 2 * k));
  }

  /** Version 3: eight bytes at a time. No bound on the length is needed. */
  method Chksum3(addr: nat, d: seq<Byte>) returns (r: int)
    ensures r == InetSum(d)
  {
    hide Oc, Fold, SwapBytes, WordSum, LoadU16;
    var pb, len, t := 0, |d|, 0;
    var sum: nat := 0;
    var odd := addr % 2 == 1;
    if odd && len > 0 {
      t := Word(0, d[0]);
      pb, len := 1, len - 1;
    }
    ghost var e, k := d[pb..], 0;
    var ps := pb;
    NoWords(e);
    if (addr + pb) % 4 != 0 && len > 1 {
      AddWord(0, e, 0);
      WordShift(d, pb, e);
      NoCarry(LoadU16(d, ps));
      sum := (sum + LoadU16(d, ps)) % U32;
      ps := ps + 2;
      len := len - 2;
      k := 1;
    }
    sum, ps, len, k := AddEights(d, pb, e, sum, ps, len, k);
    FoldOnce(sum);
    sum := Fold(sum);
    sum, ps, len, k := AddRemaining(d, pb, e, sum, ps, len, k);
    if len > 0 {
      t := t + d[ps];
    }
    WordSumTail(e, k);
    OcAddLeft(sum, t);
    OcAddLeft(WordSum(e[..2 * k]), t);
    NoCarry(sum + t);
    sum := (sum + t) % U32;
    r := FinishAligned(d, pb, odd, sum);
  }

  lemma NoWords(e: seq<Byte>)
    ensures SumsWords(0, e, 0)
  {
    assert e[..0] == [];
  }

  lemma WordShift(d: seq<Byte>, pb: nat, e: seq<Byte>)
    requires pb <= |d| && e == d[pb..] && 2 <= |e|
    ensures LoadU16(d, pb) == LoadU16(e, 0) < 0x10000
  {
  }

  lemma LoadShift(d: seq<Byte>, pb: nat, e: seq<Byte>, i: nat)
    requires pb <= |d| && e == d[pb..] && i + 4 <= |e|
    ensures LoadU32(d, pb + i) == LoadU32(e, i) < U32
  {
  }

  /** The unrolled loop: two 32-bit additions with the carry added back. */
  method AddEights(d: seq<Byte>, pb: nat, ghost e: seq<Byte>, sum0: nat, ps0: nat, len0: nat, ghost k0: nat)
    returns (sum: nat, ps: nat, len: nat, ghost k: nat)
    requires pb <= |d| && e == d[pb..] && ps0 == pb + 2 * k0 && ps0 + len0 == |d|
    requires sum0 < U32 && SumsWords(sum0, e, k0)
    ensures ps == pb + 2 * k && ps + len == |d| && len < 8
    ensures sum < U32 && SumsWords(sum, e, k)
  {
    hide Oc, SumsWords, LoadU32;
    sum, ps, len, k := sum0, ps0, len0, k0;
    while len > 7
      invariant ps == pb + 2 * k && ps + len == |d|
      invariant sum < U32 && SumsWords(sum, e, k)
    {
      var ping, pong := LoadU32(d, ps), LoadU32(d, ps + 4);
      LoadShift(d, pb, e, 2 * k);
      LoadShift(d, pb, e, 2 * (k + 2));
      var tmp := AddWithCarry(sum, ping);
      AddQuad(tmp, sum, e, k);
      sum := AddWithCarry(tmp, pong);
      AddQuad(sum, tmp, e, k + 2);
      ps := ps + 8;
      len := len - 8;
      k := k + 4;
    }
  }

  /** The fewer than four 16-bit words left behind the unrolled loop. */
  method AddRemaining(d: seq<Byte>, pb: nat, ghost e: seq<Byte>, sum0: nat, ps0: nat, len0: nat, ghost k0: nat)
    returns (sum: nat, ps: nat, len: nat, ghost k: nat)
    requires pb <= |d| && e == d[pb..] && ps0 == pb + 2 * k0 && ps0 + len0 == |d| && len0 < 8
    requires sum0 <= 0x1fffe && SumsWords(sum0, e, k0)
    ensures ps == pb + 2 * k && ps + len == |d| && len <= 1
    ensures sum <= 0x4fffb && SumsWords(sum, e, k)
  {
    hide Oc;
    sum, ps, len, k := sum0, ps0, len0, k0;
    while len > 1
      invariant k0 <= k && ps == pb + 2 * k && ps + len == |d|
      invariant len0 - len == 2 * (k - k0) && sum <= 0x1fffe + (k - k0) * 0xffff
      invariant SumsWords(sum, e, k)
    {
      AddWord(sum, e, k);
      NoCarry(sum + LoadU16(d, ps));
      sum := (sum + LoadU16(d, ps)) % U32;
      ps := ps + 2;
      len := len - 2;
      k := k + 1;
    }
  }

  /** All three versions agree on every byte sequence, start address and length
      up to 0x20000, and the sum is 0 for all-zero data only. */
  method VersionsAgree(addr: nat, d: seq<Byte>) returns (a: int, b: int, c: int)
    requires |d| <= 0x20000
    ensures a == b == c == InetSum(d)
    ensures 0 <= a <= 0xffff
    ensures a == 0 <==> forall i :: 0 <= i < |d| ==> d[i] == 0
  {
    a := Chksum1(d);
    b := Chksum2(addr, d);
    c := Chksum3(addr, d);
    InetSumIsOc(d);
    ZeroSum(d);
  }

  lemma {:induction false} ZeroSum(d: seq<Byte>)
    ensures WordSum(d) == 0 <==> forall i :: 0 <= i < |d| ==> d[i] == 0
  {
    if |d| < 2 {
    } else {
      ZeroSum(d[2..]);
      assert forall i :: 2 <= i < |d| ==> d[i] == d[2..][i - 2];
    }
  }

  // ---------------------------------------------------------------------------
  // Chains of buffers
  // ---------------------------------------------------------------------------

  /** One buffer of a chain: its payload and the address the payload starts at. */
  datatype Pbuf = Pbuf(addr: nat, payload: seq<Byte>)

  function Flatten(chain: seq<Pbuf>): seq<Byte> {
    if chain == [] then [] else Flatten(chain[..|chain| - 1]) + chain[|chain| - 1].payload
  }

  ghost predicate ValidChain(chain: seq<Pbuf>) {
    forall i :: 0 <= i < |chain| ==> |chain[i].payload| <= 0xffff
  }

  /** What the accumulator holds for the sum `n`: with its bytes swapped, 256 times `n`. */
  function Acc(swapped: bool, n: nat): nat {
    Oc(if swapped then 256 * n else n)
  }

  lemma SwapAcc(swapped: bool, n: nat)
    ensures SwapBytes(Acc(swapped, n)) == Acc(!swapped, n)
  {
    hide Oc, SwapBytes;
    if swapped {
      SwapBack(n);
    } else {
      SwapOc(n);
    }
  }

  /** Adding the checksum of the next piece and folding once. */
  lemma AddPiece(a: nat, front: seq<Byte>, piece: seq<Byte>)
    ensures var sum := Acc(!Even(|front|), a + WordSum(front)) + InetSum(piece);
            0 <= sum <= 0x1fffe && Fold(sum) == Acc(!Even(|front|), a + WordSum(front + piece))
  {
    hide Oc, Fold, WordSum, InetSum, Even;
    WordSumConcat(front, piece);
    InetSumIsOc(piece);
    AddToAcc(Even(|front|), a, WordSum(front), WordSum(piece), WordSum(front + piece));
  }

  lemma AddToAcc(even: bool, a: nat, n: nat, w: nat, m: nat)
    requires Oc(m) == Oc(n + if even then w else 256 * w)
    ensures Fold(Acc(!even, a + n) + Oc(w)) == Acc(!even, a + m)
  {
    hide Oc, Fold;
    FoldOnce(Acc(!even, a + n) + Oc(w));
    if even {
      OcAddBoth(a + n, w);
      OcAddLeft(m, a);
      OcAddLeft(n + w, a);
    } else {
      OcAddBoth(256 * (a + n), w);
      OddPiece(a, n, w, m);
    }
  }

  /** In a swapped accumulator a piece counts as it is: 256 * 256 is 1. */
  lemma OddPiece(a: nat, n: nat, w: nat, m: nat)
    requires Oc(m) == Oc(n + 256 * w)
    ensures Oc(256 * (a + m)) == Oc(256 * (a + n) + w)
  {
    hide Oc;
    OcAddLeft(m, a);
    OcAddLeft(n + 256 * w, a);
    OcTimes256(a + m);
    OcTimes256(a + n + 256 * w);
    OcTimes65536(w, 256 * (a + n));
    assert 256 * (a + n + 256 * w) == 0x10000 * w + 256 * (a + n);
  }

  lemma EvenSum(a: nat, b: nat)
    ensures Even(a + b) <==> (Even(a) <==> Even(b))
  {
  }

  /** One turn of the chain loops: checksum `n` bytes of the piece, add, fold, and
      swap when the whole piece has an odd length. */
  method ChainTurn(acc0: nat, swapped0: bool, p: Pbuf, n: nat, ghost a: nat, ghost front: seq<Byte>)
    returns (acc: nat, swapped: bool)
    requires n <= |p.payload| <= 0xffff
    requires swapped0 == !Even(|front|) && acc0 == Acc(swapped0, a + WordSum(front))
    ensures acc == Acc(swapped, a + WordSum(front + p.payload[..n]))
    ensures n == |p.payload| ==> swapped == !Even(|front + p.payload[..n]|)
  {
    hide Oc, Fold, SwapBytes;
    AddPiece(a, front, p.payload[..n]);
    EvenSum(|front|, |p.payload|);
    swapped := swapped0;
    var s := Chksum2(p.addr, p.payload[..n]);
    NoCarry(acc0 + s);
    acc := (acc0 + s) % U32;
    acc := Fold(acc);
    if |p.payload| % 2 != 0 {
      SwapAcc(swapped, a + WordSum(front + p.payload[..n]));
      swapped := !swapped;
      acc := SwapBytes(acc);
    }
  }

  lemma NothingFlattened(chain: seq<Pbuf>)
    ensures Flatten(chain[..0]) == [] && WordSum([]) == 0
  {
  }

  lemma FlattenSnoc(chain: seq<Pbuf>, q: nat)
    requires q < |chain|
    ensures Flatten(chain[..q + 1]) == Flatten(chain[..q]) + chain[q].payload
  {
    assert chain[..q + 1][..q] == chain[..q];
  }

  /** The loop that the pbuf and the pseudo-header forms share, started with the sum `a`. */
  method SumChain(chain: seq<Pbuf>, acc0: nat, ghost a: nat) returns (acc: nat)
    requires ValidChain(chain) && acc0 == Oc(a)
    ensures acc == Oc(a + WordSum(Flatten(chain)))
  {
    hide Oc, Fold, SwapBytes, WordSum, Flatten;
    acc := acc0;
    var swapped := false;
    var q := 0;
    NothingFlattened(chain);
    while q < |chain|
      invariant 0 <= q <= |chain|
      invariant swapped == !Even(|Flatten(chain[..q])|)
      invariant acc == Acc(swapped, a + WordSum(Flatten(chain[..q])))
    {
      var p := chain[q];
      FlattenSnoc(chain, q);
      assert p.payload[..|p.payload|] == p.payload;
      acc, swapped := ChainTurn(acc, swapped, p, |p.payload|, a, Flatten(chain[..q]));
      q := q + 1;
    }
    assert chain[..q] == chain;
    if swapped {
      SwapAcc(swapped, a + WordSum(Flatten(chain)));
      acc := SwapBytes(acc);
    }
  }

  /** inet_chksum_pbuf: the complement of the sum over the flattened bytes, for
      every split into pieces, odd and empty ones included. */
  method ChksumPbuf(chain: seq<Pbuf>) returns (r: int)
    requires ValidChain(chain)
    ensures r == 0xffff - InetSum(Flatten(chain))
  {
    hide Oc, Fold, SwapBytes;
    var acc := SumChain(chain, 0, 0);
    InetSumIsOc(Flatten(chain));
    r := 0xffff - acc;
  }

  /** The 12-byte pseudo header of section 3.1 of RFC 793, in network order. */
  function PseudoHeader(src: seq<Byte>, dst: seq<Byte>, proto: Byte, protoLen: nat): seq<Byte>
    requires |src| == 4 && |dst| == 4 && protoLen <= 0xffff
  {
    src + dst + [0, proto, protoLen / 256, protoLen % 256]
  }

  function AddrSum(src: seq<Byte>, dst: seq<Byte>): nat
    requires |src| == 4 && |dst| == 4
  {
    LoadU16(src, 0) + LoadU16(src, 2) + LoadU16(dst, 0) + LoadU16(dst, 2)
  }

  /** The header words as the code adds them: the addresses first, then the
      payload, protocol and length last. */
  lemma PseudoHeaderSum(src: seq<Byte>, dst: seq<Byte>, proto: Byte, protoLen: nat, data: seq<Byte>)
    requires |src| == 4 && |dst| == 4 && protoLen <= 0xffff
    ensures InetSum(PseudoHeader(src, dst, proto, protoLen) + data) ==
            Oc(AddrSum(src, dst) + WordSum(data) + SwapBytes(proto) + SwapBytes(protoLen))
  {
    hide Oc, SwapBytes, WordSum, InetSum, PseudoHeader;
    var h := PseudoHeader(src, dst, proto, protoLen);
    HeaderSum(src, dst, proto, protoLen);
    WordSumConcat(h, data);
    InetSumIsOc(h + data);
  }

  lemma HeaderSum(src: seq<Byte>, dst: seq<Byte>, proto: Byte, protoLen: nat)
    requires |src| == 4 && |dst| == 4 && protoLen <= 0xffff
    ensures var h := PseudoHeader(src, dst, proto, protoLen);
            |h| == 12 && WordSum(h) == AddrSum(src, dst) + SwapBytes(proto) + SwapBytes(protoLen)
  {
    hide Oc, SwapBytes, WordSum;
    var tail := [0, proto, protoLen / 256, protoLen % 256];
    FourBytes(src);
    FourBytes(dst);
    FourBytes(tail);
    WordSumConcat(src, dst);
    WordSumConcat(src + dst, tail);
    SwapParts(proto);
    SwapParts(protoLen);
  }

  lemma FourBytes(d: seq<Byte>)
    requires |d| == 4
    ensures WordSum(d) == LoadU16(d, 0) + LoadU16(d, 2)
  {
    assert d[2..][2..] == [];
    assert WordSum(d[2..]) == Word(d[2], d[3]);
  }

  lemma SwapParts(w: nat)
    requires w <= 0xffff
    ensures SwapBytes(w) == Word(w / 256, w % 256)
    ensures w < 256 ==> SwapBytes(w) == Word(0, w)
  {
  }

  lemma Halves(d: seq<Byte>, i: nat)
    requires i + 4 <= |d|
    ensures LoadU32(d, i) % 0x10000 == LoadU16(d, i)
    ensures LoadU32(d, i) / 0x10000 % 0x10000 == LoadU16(d, i + 2)
  {
  }

  /** The start of inet_chksum_pseudo: both addresses, folded to 16 bits. */
  method FoldAddresses(src: seq<Byte>, dst: seq<Byte>) returns (acc: nat)
    requires |src| == 4 && |dst| == 4
    ensures acc == Oc(AddrSum(src, dst))
  {
    hide Oc, Fold, SwapBytes;
    Halves(src, 0);
    Halves(dst, 0);
    FoldTwice(AddrSum(src, dst));
    var addr := LoadU32(src, 0);
    acc := addr % 0x10000;
    acc := acc + addr / 0x10000 % 0x10000;
    addr := LoadU32(dst, 0);
    acc := acc + addr % 0x10000;
    acc := acc + addr / 0x10000 % 0x10000;
    acc := Fold(acc);
    acc := Fold(acc);
  }

  /** The end of the pseudo-header forms: protocol and length are added last. */
  method FinishPseudo(acc0: nat, proto: nat, protoLen: nat, ghost n: nat) returns (r: int)
    requires acc0 == Oc(n) && proto <= 0xffff && protoLen <= 0xffff
    ensures r == 0xffff - Oc(n + proto + protoLen)
  {
    hide Oc, Fold, SwapBytes;
    var acc := acc0 + proto;
    acc := acc + protoLen;
    OcAddLeft(n, proto + protoLen);
    FoldTwice(acc);
    acc := Fold(acc);
    acc := Fold(acc);
    r := 0xffff - acc;
  }

  /** inet_chksum_pseudo: the complement of the sum over the pseudo header
      followed by the payload of the chain. */
  method ChksumPseudo(chain: seq<Pbuf>, proto: Byte, protoLen: nat, src: seq<Byte>, dst: seq<Byte>)
    returns (r: int)
    requires ValidChain(chain) && |src| == 4 && |dst| == 4 && protoLen <= 0xffff
    ensures r == 0xffff - InetSum(PseudoHeader(src, dst, proto, protoLen) + Flatten(chain))
  {
    hide Oc, Fold, SwapBytes;
    var acc := FoldAddresses(src, dst);
    acc := SumChain(chain, acc, AddrSum(src, dst));
    SwapIsTimes256(proto);
    SwapIsTimes256(protoLen);
    PseudoHeaderSum(src, dst, proto, protoLen, Flatten(chain));
    r := FinishPseudo(acc, SwapBytes(proto), SwapBytes(protoLen), AddrSum(src, dst) + WordSum(Flatten(chain)));
  }

  lemma {:induction false} FlattenPrefix(chain: seq<Pbuf>, q: nat)
    requires q <= |chain|
    ensures |Flatten(chain[..q])| <= |Flatten(chain)|
    ensures Flatten(chain)[..|Flatten(chain[..q])|] == Flatten(chain[..q])
    decreases |chain|
  {
    if q < |chain| {
      var c := chain[..|chain| - 1];
      FlattenPrefix(c, q);
      assert c[..q] == chain[..q];
    } else {
      assert chain[..q] == chain;
    }
  }

  lemma PartialStep(chain: seq<Pbuf>, q: nat, n: nat)
    requires q < |chain| && n <= |chain[q].payload|
    ensures var more := Flatten(chain[..q]) + chain[q].payload[..n];
            |more| <= |Flatten(chain)| && more == Flatten(chain)[..|more|]
    ensures Flatten(chain[..q + 1]) == Flatten(chain[..q]) + chain[q].payload
  {
    assert chain[..q + 1][..q] == chain[..q];
    FlattenPrefix(chain, q + 1);
  }

  function Prefix(s: seq<Byte>, n: nat): seq<Byte> {
    if n < |s| then s[..n] else s
  }

  lemma NothingYet(chain: seq<Pbuf>)
    ensures Flatten(chain[..0]) == [] && WordSum([]) == 0
  {
  }

  /** The loop of inet_cksum_pseudo_partial_base: exactly the first `chksumLen`
      bytes count, although the parity test looks at the whole last piece. */
  method SumPrefix(chain: seq<Pbuf>, chksumLen: nat, acc0: nat, ghost a: nat) returns (acc: nat)
    requires ValidChain(chain) && acc0 == Oc(a)
    ensures acc == Oc(a + WordSum(Prefix(Flatten(chain), chksumLen)))
  {
    hide Oc, Fold, SwapBytes, WordSum, Flatten;
    acc := acc0;
    var swapped, left, q := false, chksumLen, 0;
    ghost var done: seq<Byte> := [];
    NothingYet(chain);
    while q < |chain| && left > 0
      invariant 0 <= q <= |chain| && 0 <= left
      invariant left > 0 ==> done == Flatten(chain[..q]) && swapped == !Even(|done|)
      invariant |done| + left == chksumLen
      invariant |done| <= |Flatten(chain)| && done == Flatten(chain)[..|done|]
      invariant acc == Acc(swapped, a + WordSum(done))
    {
      var p := chain[q];
      var chklen := |p.payload|;
      if chklen > left {
        chklen := left;
      }
      ghost var piece := p.payload[..chklen];
      PartialStep(chain, q, chklen);
      acc, swapped := ChainTurn(acc, swapped, p, chklen, a, done);
      left := left - chklen;
      done := done + piece;
      q := q + 1;
      assert left > 0 ==> piece == p.payload;
    }
    assert q == |chain| ==> chain[..q] == chain;
    assert done == Prefix(Flatten(chain), chksumLen);
    if swapped {
      SwapAcc(swapped, a + WordSum(done));
      acc := SwapBytes(acc);
    }
  }

  /** inet_chksum_pseudo_partial: the pseudo header and exactly the first
      `chksumLen` bytes of the payload. */
  method ChksumPseudoPartial(chain: seq<Pbuf>, proto: Byte, protoLen: nat, chksumLen: nat,
                             src: seq<Byte>, dst: seq<Byte>)
    returns (r: int)
    requires ValidChain(chain) && |src| == 4 && |dst| == 4
    requires protoLen <= 0xffff && chksumLen <= 0xffff
    ensures r == 0xffff - InetSum(PseudoHeader(src, dst, proto, protoLen) + Prefix(Flatten(chain), chksumLen))
  {
    hide Oc, Fold, SwapBytes;
    var acc := FoldAddresses(src, dst);
    acc := SumPrefix(chain, chksumLen, acc, AddrSum(src, dst));
    ghost var part := Prefix(Flatten(chain), chksumLen);
    SwapIsTimes256(proto);
    SwapIsTimes256(protoLen);
    PseudoHeaderSum(src, dst, proto, protoLen, part);
    r := FinishPseudo(acc, SwapBytes(proto), SwapBytes(protoLen), AddrSum(src, dst) + WordSum(part));
  }
}
