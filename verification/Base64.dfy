/**
  Base64 (section 4 of RFC 4648) as the HTTP client encodes and decodes it. Texts are C strings: they
  hold no NUL. The decoder gathers characters in a block of four bytes that is not set before its
  first use; the model takes what it happens to hold as a parameter. Both work in a buffer of the
  size they ask the heap for, and neither looks at what the heap answers or at the buffer's end.
 */
module Base64 {

  import Allocator
  import opened Basics

  const PAD: bv8 := 61

  /** The character for a 6-bit value: A to Z, a to z, 0 to 9, + and /. */
  function Sym(v: bv8): bv8 {
    if v < 26 then v + 65 else if v < 52 then v + 71 else if v < 62 then v - 4 else if v == 62 then 43 else 47
  }

  predicate IsSym(c: bv8) {
    (65 <= c <= 90) || (97 <= c <= 122) || (48 <= c <= 57) || c == 43 || c == 47
  }

  /** The 6-bit value of a character of the alphabet. */
  function Val(c: bv8): bv8 {
    if c == 43 then 62 else if c == 47 then 63 else if c <= 57 then c + 4 else if c <= 90 then c - 65 else c - 71
  }

  lemma SymVal(v: bv8)
    requires v < 64
    ensures IsSym(Sym(v)) && Val(Sym(v)) == v && Sym(v) != PAD && Sym(v) != 0
  {
  }

  // Encoding

  function Lead(a: bv8): bv8 { a >> 2 }
  function Second(a: bv8, b: bv8): bv8 { ((a & 0x03) << 4) | ((b & 0xf0) >> 4) }
  function Third(b: bv8, c: bv8): bv8 { ((b & 0x0f) << 2) | ((c & 0xc0) >> 6) }
  function Fourth(c: bv8): bv8 { c & 0x3f }

  lemma SixBits(a: bv8, b: bv8, c: bv8)
    ensures Lead(a) < 64 && Second(a, b) < 64 && Third(b, c) < 64 && Fourth(c) < 64
  {
  }

  /** One group of up to three bytes, missing ones being 0. */
  function EncodeBlock(a: bv8, b: bv8, c: bv8, len: nat): (r: seq<bv8>)
    ensures |r| == 4
  {
    [Sym(Lead(a)), Sym(Second(a, b)),
     if len > 1 then Sym(Third(b, c)) else PAD,
     if len > 2 then Sym(Fourth(c)) else PAD]
  }

  /** The encoding of a text, group by group. */
  function Encoded(t: seq<bv8>): seq<bv8> {
    if |t| == 0 then []
    else if |t| == 1 then EncodeBlock(t[0], 0, 0, 1)
    else if |t| == 2 then EncodeBlock(t[0], t[1], 0, 2)
    else EncodeBlock(t[0], t[1], t[2], 3) + Encoded(t[3..])
  }

  predicate NulFree(t: seq<bv8>) {
    forall i :: 0 <= i < |t| ==> t[i] != 0
  }

  // Buffers

  const U32: nat := 0x1_0000_0000

  /** The memory of the board; no text is longer. */
  const RAM: nat := 0x8000_0000

  /** What a call ends with: a text, a write through the null pointer that the heap returned, or a write
      behind the end of the buffer. */
  datatype Outcome = Done(text: seq<bv8>) | NullWrite | Overrun

  /** Whether the heap has room for the working buffer and for the result. */
  datatype Room = Room(buffer: bool, result: bool)

  /** The heap serves a request that is not too large for its largest block, if it has room. */
  predicate Served(request: nat, room: bool) {
    Allocator.Bucket(request) < 14 && room
  }

  /** The buffer holds the C string `text`. */
  ghost predicate HoldsText(dst: seq<bv8>, text: seq<bv8>) {
    |text| < |dst| && dst[..|text|] == text && dst[|text|] == 0 && NulFree(text)
  }

  /** strncat onto a buffer: the end of the text in it is looked for, then the block is copied. */
  method Append(dst: array<bv8>, block: seq<bv8>, ghost text: seq<bv8>) returns (inside: bool)
    requires HoldsText(dst[..], text) && NulFree(block)
    modifies dst
    ensures inside <==> |text| + |block| + 1 <= dst.Length
    ensures inside ==> HoldsText(dst[..], text + block)
  {
    var d := 0;
    while dst[d] != 0
      invariant 0 <= d <= |text| && HoldsText(dst[..], text)
      decreases |text| - d
    {
      assert d < |text|;
      d := d + 1;
    }
    assert d == |text|;
    var k := 0;
    while k < |block|
      invariant 0 <= k <= |block| && |text| + k <= dst.Length
      invariant dst[..|text| + k] == text + block[..k]
    {
      if d + k >= dst.Length {
        return false;
      }
      dst[d + k] := block[k];
      assert block[..k + 1] == block[..k] + [block[k]];
      k := k + 1;
    }
    if d + k >= dst.Length {
      return false;
    }
    dst[d + k] := 0;
    assert block[..k] == block;
    return true;
  }

  /** Up to three bytes of the text from `j` on, and zeros for missing ones. */
  method TakeGroup(t: seq<bv8>, j0: nat) returns (block: seq<bv8>, len: nat)
    requires j0 < |t|
    ensures |block| == 3 && len == (if j0 + 3 <= |t| then 3 else |t| - j0)
    ensures forall k :: 0 <= k < 3 ==> block[k] == if k < len then t[j0 + k] else 0
  {
    len, block := 0, [0, 0, 0];
    var i, j := 0, j0;
    while i < 3
      invariant 0 <= i <= 3 && |block| == 3 && len <= i && j == j0 + len <= |t|
      invariant len == if i <= |t| - j0 then i else |t| - j0
      invariant forall k :: 0 <= k < i ==> block[k] == if k < len then t[j0 + k] else 0
    {
      if j < |t| {
        block := block[i := t[j]];
        len := len + 1;
        j := j + 1;
      } else {
        block := block[i := 0];
      }
      i := i + 1;
    }
  }

  /** The encoding and its NUL stay within the buffer asked for. */
  predicate FitsBuffer(n: nat) {
    4 * ((n + 2) / 3) + 1 <= n + 50
  }

  function EncodeOutcome(t: seq<bv8>, room: Room): Outcome {
    if !Served(|t| + 50, room.buffer) then NullWrite
    else if !FitsBuffer(|t|) then Overrun
    else if !Served(|Encoded(t)| + 1, room.result) then NullWrite
    else Done(Encoded(t))
  }

  /** base64_encode */
  method Encode(t: seq<bv8>, room: Room) returns (r: Outcome)
    requires NulFree(t) && |t| <= RAM
    ensures r == EncodeOutcome(t, room)
  {
    hide EncodeBlock, Allocator.Bucket;
    if !Served(|t| + 50, room.buffer) {
      return NullWrite;
    }
    EncodedLength(t);
    var dst := new bv8[|t| + 50];
    dst[0] := 0;
    ghost var text: seq<bv8> := [];
    var j, n := 0, 0;
    while j < |t|
      invariant 0 <= j <= |t| && HoldsText(dst[..], text) && n == |text|
      invariant text + Encoded(t[j..]) == Encoded(t)
    {
      var block, len := TakeGroup(t, j);
      EncodedStep(t, j);
      var out := EncodeBlock(block[0], block[1], block[2], len);
      BlockNulFree(block[0], block[1], block[2], len);
      ghost var rest := Encoded(t[j + len..]);
      Assoc(text, out, rest);
      var inside := Append(dst, out, text);
      if !inside {
        assert |text| + |out| <= |Encoded(t)|;
        return Overrun;
      }
      text := text + out;
      n := n + |out|;
      j := j + len;
    }
    assert t[j..] == [];
    assert text + [] == text;
    if !Served(n + 1, room.result) {
      return NullWrite;
    }
    r := Done(dst[..n]);
  }

  lemma BlockNulFree(a: bv8, b: bv8, c: bv8, len: nat)
    ensures NulFree(EncodeBlock(a, b, c, len))
  {
    BlockSyms(a, b, c);
    hide Lead, Second, Third, Fourth, Sym;
  }

  lemma EncodedStep(t: seq<bv8>, j: nat)
    requires j < |t|
    ensures var len := if j + 3 <= |t| then 3 else |t| - j;
      Encoded(t[j..])
        == EncodeBlock(t[j], if len > 1 then t[j + 1] else 0, if len > 2 then t[j + 2] else 0, len) + Encoded(t[j + len..])
  {
    hide EncodeBlock;
    if j + 3 <= |t| {
      assert t[j..][3..] == t[j + 3..];
    } else {
      assert t[|t|..] == [];
      assert Encoded([]) == [];
    }
  }

  /** Four characters for every started group of three bytes. */
  lemma {:induction false} EncodedLength(t: seq<bv8>)
    ensures |Encoded(t)| == 4 * ((|t| + 2) / 3)
  {
    hide EncodeBlock;
    if |t| <= 2 {
    } else {
      EncodedLength(t[3..]);
    }
  }

  /** Only characters of the alphabet, and padding in the last two places. */
  lemma {:induction false} EncodedAlphabet(t: seq<bv8>)
    ensures forall i :: 0 <= i < |Encoded(t)| ==> IsSym(Encoded(t)[i]) || (Encoded(t)[i] == PAD && |Encoded(t)| - 2 <= i)
    ensures |t| % 3 == 0 ==> PAD !in Encoded(t)
  {
    hide EncodeBlock, IsSym;
    if |t| == 0 {
    } else if |t| < 3 {
      BlockAlphabet(t[0], if |t| > 1 then t[1] else 0, 0, |t|);
    } else {
      BlockAlphabet(t[0], t[1], t[2], 3);
      EncodedAlphabet(t[3..]);
      EncodedLength(t[3..]);
    }
  }

  lemma BlockAlphabet(a: bv8, b: bv8, c: bv8, len: nat)
    ensures var r := EncodeBlock(a, b, c, len);
      && IsSym(r[0]) && IsSym(r[1]) && (IsSym(r[2]) || r[2] == PAD) && (IsSym(r[3]) || r[3] == PAD)
      && (len > 2 ==> IsSym(r[2]) && IsSym(r[3])) && !IsSym(PAD)
  {
    BlockSyms(a, b, c);
    hide Lead, Second, Third, Fourth, Sym, IsSym;
  }

  lemma BlockSyms(a: bv8, b: bv8, c: bv8)
    ensures IsSym(Sym(Lead(a))) && IsSym(Sym(Second(a, b))) && IsSym(Sym(Third(b, c))) && IsSym(Sym(Fourth(c)))
    ensures !IsSym(PAD)
  {
    SixBits(a, b, c);
    SymVal(Lead(a));
    SymVal(Second(a, b));
    SymVal(Third(b, c));
    SymVal(Fourth(c));
  }

  // Decoding

  /** The block of four 6-bit values that the decoder fills. */
  datatype Block = Block(v0: bv8, v1: bv8, v2: bv8, v3: bv8)

  const ZERO := Block(0, 0, 0, 0)

  function Set(b: Block, phase: nat, v: bv8): Block
    requires phase < 4
  {
    match phase
    case 0 => b.(v0 := v)
    case 1 => b.(v1 := v)
    case 2 => b.(v2 := v)
    case _ => b.(v3 := v)
  }

  /** The bytes before the first NUL, which are all that is appended. */
  function UpToNul(a: bv8, b: bv8, c: bv8): seq<bv8> {
    if a == 0 then [] else if b == 0 then [a] else if c == 0 then [a, b] else [a, b, c]
  }

  function Byte0(v0: bv8, v1: bv8): bv8 { (v0 << 2) | (v1 >> 4) }
  function Byte1(v1: bv8, v2: bv8): bv8 { (v1 << 4) | (v2 >> 2) }
  function Byte2(v2: bv8, v3: bv8): bv8 { (v2 << 6) | v3 }

  function DecodeBlock(b: Block): seq<bv8> {
    UpToNul(Byte0(b.v0, b.v1), Byte1(b.v1, b.v2), Byte2(b.v2, b.v3))
  }

  /** What the decoder gives from `src` on, with `b` gathered so far and `phase` values in it. */
  function Decoded(src: seq<bv8>, b: Block, phase: nat): seq<bv8>
    requires phase < 4
  {
    if src == [] then []
    else if src[0] == PAD then DecodeBlock(b)
    else if !IsSym(src[0]) then Decoded(src[1..], b, phase)
    else if phase < 3 then Decoded(src[1..], Set(b, phase, Val(src[0])), phase + 1)
    else DecodeBlock(Set(b, 3, Val(src[0]))) + Decoded(src[1..], ZERO, 0)
  }

  /** What base64_decode asks the heap for, in 32-bit arithmetic: for an empty source the length less
      one wraps. */
  function DecodeRequest(n: nat): nat {
    ((n - 1) % U32 / 3 * 4 + 54) % U32
  }

  function DecodeOutcome(src: seq<bv8>, scratch: Block, room: Room): Outcome {
    if !Served(DecodeRequest(|src|), room.buffer) then NullWrite
    else if !Served(|Decoded(src, scratch, 0)| + 1, room.result) then NullWrite
    else Done(Decoded(src, scratch, 0))
  }

  lemma {:induction false} DecodedLength(src: seq<bv8>, b: Block, phase: nat)
    requires phase < 4
    ensures |Decoded(src, b, phase)| <= |src| + phase + 2
    ensures NulFree(Decoded(src, b, phase))
  {
    hide IsSym, Set, Val, Byte0, Byte1, Byte2;
    if src == [] {
    } else if phase < 3 {
      DecodedLength(src[1..], b, phase);
      DecodedLength(src[1..], Set(b, phase, Val(src[0])), phase + 1);
    } else {
      DecodedLength(src[1..], b, phase);
      DecodedLength(src[1..], ZERO, 0);
    }
  }

  /** An empty source asks for more than the heap ever gives; for any other the buffer is large
      enough. */
  lemma DecodeRequestFacts(n: nat)
    requires n <= RAM
    ensures n == 0 ==> !Served(DecodeRequest(n), true)
    ensures n > 0 ==> n + 3 <= DecodeRequest(n) == (n - 1) / 3 * 4 + 54
  {
    Allocator.BucketFacts(DecodeRequest(0));
    hide Allocator.Bucket;
    assert DecodeRequest(0) == 1431655818;
    if n > 0 {
      RequestArithmetic(n);
    }
  }

  lemma RequestArithmetic(n: nat)
    requires 0 < n <= RAM
    ensures (n - 1) % U32 == n - 1 && n + 3 <= (n - 1) / 3 * 4 + 54 < U32
  {
  }

  /** base64_decode; `scratch` is what the block holds before it is set. */
  method Decode(src: seq<bv8>, scratch: Block, room: Room) returns (r: Outcome)
    requires NulFree(src) && |src| <= RAM
    ensures r == DecodeOutcome(src, scratch, room)
  {
    hide Decoded, DecodeBlock, Set, Val, IsSym, Served, DecodeRequest, NulFree, HoldsText;
    DecodeRequestFacts(|src|);
    DecodeRequestFacts(0);
    NotServed(DecodeRequest(0), room.buffer);
    if !Served(DecodeRequest(|src|), room.buffer) {
      return NullWrite;
    }
    DecodedLength(src, scratch, 0);
    var dst := new bv8[DecodeRequest(|src|)];
    dst[0] := 0;
    ghost var text: seq<bv8> := [];
    NoText(dst[..]);
    ghost var whole := Decoded(src, scratch, 0);
    var b, phase, i, n := scratch, 0, 0, 0;
    while i < |src|
      invariant 0 <= i <= |src| && 0 <= phase < 4 && HoldsText(dst[..], text) && n == |text|
      invariant text + Decoded(src[i..], b, phase) == whole
    {
      DecodedAt(src, i, b, phase);
      if src[i] == PAD {
        BytesNulFree(b);
        var _ := Append(dst, DecodeBlock(b), text);
        text := text + DecodeBlock(b);
        n := n + |DecodeBlock(b)|;
        break;
      }
      if IsSym(src[i]) {
        b := Set(b, phase, Val(src[i]));
        phase := (phase + 1) % 4;
        if phase == 0 {
          Assoc(text, DecodeBlock(b), Decoded(src[i + 1..], ZERO, 0));
          BytesNulFree(b);
          var _ := Append(dst, DecodeBlock(b), text);
          text := text + DecodeBlock(b);
          n := n + |DecodeBlock(b)|;
          b := ZERO;
        }
      }
      i := i + 1;
    }
    if i == |src| {
      assert src[i..] == [];
      NothingDecoded(b, phase);
      assert text + [] == text;
    }
    TextIn(dst[..], text);
    if !Served(n + 1, room.result) {
      return NullWrite;
    }
    r := Done(dst[..n]);
  }

  lemma DecodedAt(src: seq<bv8>, i: nat, b: Block, phase: nat)
    requires i < |src| && phase < 4
    ensures Decoded(src[i..], b, phase) ==
      if src[i] == PAD then DecodeBlock(b)
      else if !IsSym(src[i]) then Decoded(src[i + 1..], b, phase)
      else if phase < 3 then Decoded(src[i + 1..], Set(b, phase, Val(src[i])), phase + 1)
      else DecodeBlock(Set(b, 3, Val(src[i]))) + Decoded(src[i + 1..], ZERO, 0)
  {
    hide DecodeBlock, Set, Val, IsSym;
    assert src[i..][1..] == src[i + 1..];
  }

  lemma TextIn(dst: seq<bv8>, text: seq<bv8>)
    requires HoldsText(dst, text)
    ensures |text| <= |dst| && dst[..|text|] == text
  {
  }

  lemma NoText(dst: seq<bv8>)
    requires 0 < |dst| && dst[0] == 0
    ensures HoldsText(dst, [])
  {
  }

  lemma BytesNulFree(b: Block)
    ensures NulFree(DecodeBlock(b)) && |DecodeBlock(b)| <= 3
  {
    hide Byte0, Byte1, Byte2;
  }

  // The round trip

  /** One character of the alphabet, before the last of a block. */
  lemma DecodedOne(v: bv8, rest: seq<bv8>, b: Block, phase: nat)
    requires v < 64 && phase < 3
    ensures Decoded([Sym(v)] + rest, b, phase) == Decoded(rest, Set(b, phase, v), phase + 1)
  {
    SymVal(v);
    hide Sym, Val, IsSym, Set, DecodeBlock;
    assert ([Sym(v)] + rest)[1..] == rest;
  }

  lemma DecodedPad(rest: seq<bv8>, b: Block, phase: nat)
    requires phase < 4
    ensures Decoded([PAD] + rest, b, phase) == DecodeBlock(b)
  {
  }

  lemma DecodedLast(v: bv8, rest: seq<bv8>, b: Block)
    requires v < 64
    ensures Decoded([Sym(v)] + rest, b, 3) == DecodeBlock(Set(b, 3, v)) + Decoded(rest, ZERO, 0)
  {
    SymVal(v);
    hide Sym, Val, IsSym, Set, DecodeBlock;
    assert ([Sym(v)] + rest)[1..] == rest;
  }

  /** The three bytes of a full group come back, whatever the block held. */
  lemma BlockBack(a: bv8, b: bv8, c: bv8)
    requires a != 0 && b != 0 && c != 0
    ensures DecodeBlock(Block(Lead(a), Second(a, b), Third(b, c), Fourth(c))) == [a, b, c]
  {
    hide Lead, Second, Third, Fourth, Byte0, Byte1, Byte2, Sym, IsSym, Val;
    BitsBack(a, b, c);
  }

  lemma BitsBack(a: bv8, b: bv8, c: bv8)
    ensures Byte0(Lead(a), Second(a, b)) == a
    ensures Byte1(Second(a, b), Third(b, c)) == b
    ensures Byte2(Third(b, c), Fourth(c)) == c
  {
  }

  lemma FullGroup(a: bv8, b: bv8, c: bv8, rest: seq<bv8>, x: Block)
    requires a != 0 && b != 0 && c != 0
    ensures Decoded(EncodeBlock(a, b, c, 3) + rest, x, 0) == [a, b, c] + Decoded(rest, ZERO, 0)
  {
    hide Sym, Lead, Second, Third, Fourth, DecodeBlock, Decoded;
    SixBits(a, b, c);
    BlockBack(a, b, c);
    var v0, v1, v2, v3 := Lead(a), Second(a, b), Third(b, c), Fourth(c);
    var r3 := [Sym(v3)] + rest;
    var r2 := [Sym(v2)] + r3;
    var r1 := [Sym(v1)] + r2;
    assert EncodeBlock(a, b, c, 3) + rest == [Sym(v0)] + r1;
    DecodedOne(v0, r1, x, 0);
    DecodedOne(v1, r2, x.(v0 := v0), 1);
    DecodedOne(v2, r3, x.(v0 := v0, v1 := v1), 2);
    DecodedLast(v3, rest, Block(v0, v1, v2, x.v3));
  }

  /** A last group of one byte: the third place of the block decides. */
  lemma OneByte(a: bv8, x: Block)
    requires a != 0
    ensures Decoded(EncodeBlock(a, 0, 0, 1), x, 0) == [a] <==> x.v2 < 4
  {
    hide Lead, Second, Third, Fourth, Byte0, Byte1, Byte2, Sym, IsSym, Val, Decoded;
    SixBits(a, 0, 0);
    var v0, v1 := Lead(a), Second(a, 0);
    DecodedOne(v0, [Sym(v1), PAD, PAD], x, 0);
    DecodedOne(v1, [PAD, PAD], x.(v0 := v0), 1);
    assert EncodeBlock(a, 0, 0, 1) == [Sym(v0)] + [Sym(v1), PAD, PAD];
    assert [Sym(v1), PAD, PAD] == [Sym(v1)] + [PAD, PAD];
    OneByteBits(a, x.v2);
    DecodedPad([PAD], Block(v0, v1, x.v2, x.v3), 2);
    assert [PAD, PAD] == [PAD] + [PAD];
  }

  lemma OneByteBits(a: bv8, g: bv8)
    ensures Byte0(Lead(a), Second(a, 0)) == a
    ensures Byte1(Second(a, 0), g) == 0 <==> g < 4
  {
  }

  /** A last group of two bytes: the fourth place decides. */
  lemma TwoBytes(a: bv8, b: bv8, x: Block)
    requires a != 0 && b != 0
    ensures Decoded(EncodeBlock(a, b, 0, 2), x, 0) == [a, b] <==> x.v3 == 0
  {
    hide Lead, Second, Third, Fourth, Byte0, Byte1, Byte2, Sym, IsSym, Val, Decoded;
    SixBits(a, b, 0);
    var v0, v1, v2 := Lead(a), Second(a, b), Third(b, 0);
    DecodedOne(v0, [Sym(v1), Sym(v2), PAD], x, 0);
    DecodedOne(v1, [Sym(v2), PAD], x.(v0 := v0), 1);
    DecodedOne(v2, [PAD], x.(v0 := v0, v1 := v1), 2);
    assert EncodeBlock(a, b, 0, 2) == [Sym(v0)] + [Sym(v1), Sym(v2), PAD];
    assert [Sym(v1), Sym(v2), PAD] == [Sym(v1)] + [Sym(v2), PAD];
    assert [Sym(v2), PAD] == [Sym(v2)] + [PAD];
    TwoBytesBits(a, b, x.v3);
    DecodedPad([], Block(v0, v1, v2, x.v3), 3);
    assert [PAD] == [PAD] + [];
  }

  lemma TwoBytesBits(a: bv8, b: bv8, g: bv8)
    ensures Byte0(Lead(a), Second(a, b)) == a
    ensures Byte1(Second(a, b), Third(b, 0)) == b
    ensures Byte2(Third(b, 0), g) == 0 <==> g == 0
  {
  }

  /** What the block must hold before it is set, for a text to come back. */
  predicate Harmless(t: seq<bv8>, x: Block) {
    (|t| == 1 ==> x.v2 < 4) && (|t| == 2 ==> x.v3 == 0)
  }

  /** As far as the characters go, decoding the encoding of a text gives the text back exactly if it
      has three bytes or more, is empty, or the block happens to hold harmless values. */
  lemma {:induction false} TextBackIff(t: seq<bv8>, x: Block)
    requires NulFree(t)
    ensures Decoded(Encoded(t), x, 0) == t <==> Harmless(t, x)
  {
    hide EncodeBlock, Decoded;
    if |t| == 0 {
      NothingDecoded(x, 0);
    } else if |t| == 1 {
      OneByte(t[0], x);
      assert t == [t[0]];
    } else if |t| == 2 {
      TwoBytes(t[0], t[1], x);
      assert t == [t[0], t[1]];
    } else {
      FullGroup(t[0], t[1], t[2], Encoded(t[3..]), x);
      TextBackIff(t[3..], ZERO);
      assert t == [t[0], t[1], t[2]] + t[3..];
    }
  }

  lemma NothingDecoded(x: Block, phase: nat)
    requires phase < 4
    ensures Decoded([], x, phase) == []
  {
  }

  /** The whole round trip. */
  function RoundTripOutcome(t: seq<bv8>, x: Block, encode: Room, decode: Room): Outcome {
    match EncodeOutcome(t, encode)
    case Done(e) => DecodeOutcome(e, x, decode)
    case other => other
  }

  /** The lengths for which the buffer of base64_encode is large enough. */
  lemma FitsIff(n: nat)
    ensures FitsBuffer(n) <==> n <= 141 || n == 143 || n == 144 || n == 147
  {
  }

  /** Small requests are within the heap's largest block. */
  lemma SmallServed(n: nat, room: bool)
    requires n <= 1000
    ensures Served(n, room) <==> room
  {
    Allocator.BucketFacts(n);
    hide Allocator.Bucket;
  }

  /** A text comes back exactly if it is not empty, the buffer of the encoder is large enough for it,
      the unset block is harmless for it, and the heap has room. */
  lemma RoundTripIff(t: seq<bv8>, x: Block, encode: Room, decode: Room)
    requires NulFree(t) && |t| <= RAM
    ensures RoundTripOutcome(t, x, encode, decode) == Done(t)
      <==> t != [] && FitsBuffer(|t|) && Harmless(t, x) && encode == Room(true, true) && decode == Room(true, true)
  {
    hide Decoded, Encoded, Served, FitsBuffer, DecodeRequest;
    FitsIff(|t|);
    EncodedLength(t);
    TextBackIff(t, x);
    if FitsBuffer(|t|) {
      SmallServed(|t| + 50, encode.buffer);
      SmallServed(|Encoded(t)| + 1, encode.result);
      var n := |Encoded(t)|;
      DecodeRequestFacts(n);
      DecodedLength(Encoded(t), x, 0);
      if n == 0 {
        NotServed(DecodeRequest(n), decode.buffer);
      } else {
        SmallServed(DecodeRequest(n), decode.buffer);
        SmallServed(|Decoded(Encoded(t), x, 0)| + 1, decode.result);
      }
    }
  }

  lemma NotServed(n: nat, room: bool)
    requires !Served(n, true)
    ensures !Served(n, room)
  {
  }

  /** The round trip, with the two methods of the program. */
  method RoundTrip(t: seq<bv8>, scratch: Block, encode: Room, decode: Room) returns (r: Outcome)
    requires NulFree(t) && |t| <= RAM
    ensures r == Done(t)
      <==> t != [] && FitsBuffer(|t|) && Harmless(t, scratch) && encode == Room(true, true) && decode == Room(true, true)
  {
    hide EncodeOutcome, DecodeOutcome, Encoded, FitsBuffer;
    RoundTripIff(t, scratch, encode, decode);
    r := Encode(t, encode);
    if r.Done? {
      EncodedShort(t, encode);
      r := Decode(r.text, scratch, decode);
    }
  }

  lemma EncodedShort(t: seq<bv8>, room: Room)
    requires EncodeOutcome(t, room).Done?
    ensures EncodeOutcome(t, room).text == Encoded(t) && NulFree(Encoded(t)) && |Encoded(t)| <= 1000
  {
    hide Encoded;
    EncodedLength(t);
    EncodedNulFree(t);
    FitsIff(|t|);
  }

  /** The empty text: decoding it writes through the null pointer. */
  lemma EmptyTextFails(x: Block)
    ensures RoundTripOutcome([], x, Room(true, true), Room(true, true)) == NullWrite
  {
    SmallServed(50, true);
    SmallServed(1, true);
    DecodeRequestFacts(0);
    hide Served, DecodeRequest;
  }

  /** A text of 142 bytes, the shortest to do so, is written past the end of the buffer. */
  lemma LongTextOverruns(t: seq<bv8>)
    requires |t| == 142
    ensures EncodeOutcome(t, Room(true, true)) == Overrun
    ensures forall n: nat :: n < 142 ==> FitsBuffer(n)
  {
    hide Encoded;
    SmallServed(192, true);
    FitsIff(142);
    forall n: nat | n < 142 ensures FitsBuffer(n) {
      FitsIff(n);
    }
  }

  /** The block that the heap really takes for the buffer of a text of `n` bytes is large enough. */
  predicate FitsBlock(n: nat) {
    var b := Allocator.Bucket(n + 50); b < 14 && 4 * ((n + 2) / 3) + 1 <= Allocator.Size(b)
  }

  /** The heap rounds requests up, so that the block lasts longer than the buffer that was asked for:
      up to three quarters of its size. */
  lemma BlockOverrunIff(n: nat)
    requires n + 50 <= 0x4000000
    ensures Allocator.Bucket(n + 50) < 14
    ensures FitsBlock(n) <==> n <= 3 * ((Allocator.Size(Allocator.Bucket(n + 50)) - 1) / 4)
    ensures n <= 765 ==> FitsBlock(n)
  {
    Allocator.BucketFacts(n + 50);
    hide Allocator.Bucket;
    var b := Allocator.Bucket(n + 50);
    GroupsFit(n, Allocator.Size(b));
    if n <= 765 {
      SmallBlocks(n, b);
    }
  }

  lemma GroupsFit(n: nat, s: nat)
    requires s > 0
    ensures 4 * ((n + 2) / 3) + 1 <= s <==> n <= 3 * ((s - 1) / 4)
  {
  }

  lemma SmallBlocks(n: nat, b: nat)
    requires b < 14 && n <= 765 && n + 50 <= Allocator.Size(b)
    ensures n <= 3 * ((Allocator.Size(b) - 1) / 4)
  {
    assert Allocator.Size(0) == 0x40 && Allocator.Size(1) == 0x400;
    if b > 1 {
      Allocator.SizesGrow(1, b);
    }
  }

  /** Every block of 1 KiB and more serves texts that do not fit it, the longest that it is given for
      among them. */
  lemma EveryBlockOverruns(b: nat)
    requires 1 <= b < 14
    ensures var n := Allocator.Size(b) - 50;
            n >= 0 && Allocator.Bucket(n + 50) == b && !FitsBlock(n)
  {
    var s := Allocator.Size(b);
    Allocator.SizeIsSize(b);
    assert s >= 0x400 by {
      assert Allocator.Size(1) == 0x400;
      if b > 1 {
        Allocator.SizesGrow(1, b);
      }
    }
    hide Allocator.Bucket, Allocator.Size;
    GroupsFit(s - 50, s);
  }

  lemma EncodedNulFree(t: seq<bv8>)
    ensures NulFree(Encoded(t))
  {
    EncodedAlphabet(t);
  }

  /** A single byte that does not come back. */
  lemma OneByteExample()
    ensures Decoded(Encoded([65]), Block(0, 0, 4, 0), 0) != [65]
  {
    TextBackIff([65], Block(0, 0, 4, 0));
  }

  /** The source without what is neither of the alphabet nor padding. */
  function Clean(src: seq<bv8>): seq<bv8> {
    if src == [] then [] else (if IsSym(src[0]) || src[0] == PAD then [src[0]] else []) + Clean(src[1..])
  }

  /** Other characters, such as line breaks, make no difference. */
  lemma {:induction false} OthersIgnored(src: seq<bv8>, b: Block, phase: nat)
    requires phase < 4
    ensures Decoded(Clean(src), b, phase) == Decoded(src, b, phase)
  {
    if src == [] {
    } else {
      hide IsSym, Set, Val, DecodeBlock;
      var rest := Clean(src[1..]);
      assert ([src[0]] + rest)[1..] == rest;
      assert [] + rest == rest;
      OthersIgnored(src[1..], b, phase);
      if phase < 3 {
        OthersIgnored(src[1..], Set(b, phase, Val(src[0])), phase + 1);
      }
      OthersIgnored(src[1..], ZERO, 0);
    }
  }
}
