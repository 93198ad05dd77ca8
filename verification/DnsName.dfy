/**
  Names and messages of the DNS resolver: the question that `dns_send` writes, the
  matcher `dns_compare_name`, the skipper `dns_skip_name` and the part of `dns_recv`
  that reads a response. Packets are byte sequences of at most 0xffff bytes.
 */
module DnsName {

  import opened Basics

  type Byte = x: int | 0 <= x < 256

  const DOT: Byte := 46
  const HDR: nat := 12
  const FAIL: nat := 0xffff

  // ---------------------------------------------------------------------------
  // Reference: section 4.1.2 of RFC 1035
  // ---------------------------------------------------------------------------

  /** The end of the label that starts at `i`: the next dot, or the end of the name. */
  function LabelEnd(name: seq<Byte>, i: nat): (e: nat)
    requires i <= |name|
    ensures i <= e <= |name|
    ensures forall k :: i <= k < e ==> name[k] != DOT
    ensures e < |name| ==> name[e] == DOT
    decreases |name| - i
  {
    if i == |name| || name[i] == DOT then i else LabelEnd(name, i + 1)
  }

  /** Labels of 1 to 63 bytes (section 2.3.4 of RFC 1035) and no zero byte. */
  ghost predicate WellFormedFrom(name: seq<Byte>, i: nat)
    requires i <= |name|
    decreases |name| - i
  {
    var e := LabelEnd(name, i);
    1 <= e - i <= 63 && (e < |name| ==> WellFormedFrom(name, e + 1))
  }

  ghost predicate WellFormed(name: seq<Byte>) {
    |name| < 256 && 0 !in name && WellFormedFrom(name, 0)
  }

  /** The label from `i` on, its length in front. */
  function Label(name: seq<Byte>, i: nat): seq<Byte>
    requires i <= |name| < 256
  {
    [LabelEnd(name, i) - i] + name[i..LabelEnd(name, i)]
  }

  /** Each label preceded by its length, and a zero length at the end. */
  function Encode(name: seq<Byte>, i: nat): seq<Byte>
    requires i <= |name| < 256
    decreases |name| - i
  {
    var e := LabelEnd(name, i);
    Label(name, i) + if e < |name| then Encode(name, e + 1) else [0]
  }

  lemma EncodeUnfold(name: seq<Byte>, i: nat)
    requires i <= |name| < 256
    ensures var e := LabelEnd(name, i);
            Encode(name, i) == Label(name, i) + if e < |name| then Encode(name, e + 1) else [0]
  {
    hide LabelEnd, Label;
  }

  lemma {:induction false} EncodeLength(name: seq<Byte>, i: nat)
    requires i <= |name| < 256
    ensures |Encode(name, i)| == |name| - i + 2
    decreases |name| - i
  {
    hide LabelEnd, Encode;
    EncodeUnfold(name, i);
    var e := LabelEnd(name, i);
    if e == |name| {
    } else {
      EncodeLength(name, e + 1);
    }
  }

  // ---------------------------------------------------------------------------
  // dns_send: writing the question
  // ---------------------------------------------------------------------------

  function Header(txid: nat): seq<Byte>
    requires txid < 0x10000
  {
    [txid / 256, txid % 256, 1, 0, 0, 1, 0, 0, 0, 0, 0, 0]
  }

  /** Type A, class IN. */
  const QUERY: seq<Byte> := [0, 1, 0, 1]

  function Question(txid: nat, name: seq<Byte>): seq<Byte>
    requires txid < 0x10000 && |name| < 256
  {
    Header(txid) + Encode(name, 0) + QUERY
  }

  /** One label: its length and its bytes. */
  method PutLabel(p: array<Byte>, idx: nat, name: seq<Byte>, part: nat) returns (n: nat)
    requires part <= |name| < 256 && idx + 1 + LabelEnd(name, part) - part <= p.Length
    modifies p
    ensures n == LabelEnd(name, part) - part
    ensures p[..idx + n + 1] == old(p[..idx]) + Label(name, part)
  {
    n := CountLabel(name, part);
    p[idx] := n;
    ghost var before := p[..];
    CopyInto(p, name[part..part + n], idx + 1);
    assert before[..idx + 1] == old(p[..idx]) + [n];
    assert p[..][..idx + n + 1] == before[..idx + 1] + name[part..part + n];
  }

  /** What follows it. */
  function Tail(name: seq<Byte>, i: nat): seq<Byte>
    requires i <= |name| < 256
  {
    if LabelEnd(name, i) < |name| then Encode(name, LabelEnd(name, i) + 1) else [0]
  }

  lemma EncodeStep(p: seq<Byte>, name: seq<Byte>, i: nat)
    requires i <= |name| < 256
    ensures p + Encode(name, i) == (p + Label(name, i)) + Tail(name, i)
  {
    assert Encode(name, i) == Label(name, i) + Tail(name, i);
    Assoc(p, Label(name, i), Tail(name, i));
  }

  /** The loop over the labels, and the zero byte behind them. */
  method PutName(p: array<Byte>, name: seq<Byte>) returns (idx: nat)
    requires |name| < 256 && p.Length >= HDR + |name| + 2
    modifies p
    ensures idx == HDR + |name| + 2 && p[..idx] == old(p[..HDR]) + Encode(name, 0)
  {
    hide Encode, Label;
    var hostname := 0;
    idx := HDR;
    ghost var whole := p[..HDR] + Encode(name, 0);
    var more := true;
    while more
      invariant 0 <= hostname <= |name| && idx == HDR + hostname + (if more then 0 else 1)
      invariant p[..idx] + (if more then Encode(name, hostname) else [0]) == whole
      invariant !more ==> hostname == |name|
      decreases more, |name| - hostname
    {
      EncodeStep(p[..idx], name, hostname);
      var n := PutLabel(p, idx, name, hostname);
      idx := idx + n + 1;
      hostname := hostname + n;
      more := hostname < |name|;
      if more {
        hostname := hostname + 1;
      }
    }
    p[idx] := 0;
    idx := idx + 1;
    assert p[..idx] == p[..idx - 1] + [0];
  }

  /** The packet that dns_send fills: its size is fixed before the name is walked, and
      the last byte written is its last byte. */
  method WriteQuestion(txid: nat, name: seq<Byte>) returns (packet: seq<Byte>)
    requires txid < 0x10000 && |name| < 256
    ensures packet == Question(txid, name)
    ensures |packet| == HDR + |name| + 2 + |QUERY|
  {
    hide Encode;
    var p := new Byte[HDR + |name| + 2 + |QUERY|];
    CopyInto(p, Header(txid), 0);
    assert p[..HDR] == Header(txid);
    var idx := PutName(p, name);
    ghost var before := p[..];
    CopyInto(p, QUERY, idx);
    packet := p[..];
    assert packet == before[..idx] + QUERY;
  }

  /** pbuf_take and pbuf_take_at on a range that lies inside the packet. */
  method CopyInto(p: array<Byte>, d: seq<Byte>, at: nat)
    requires at + |d| <= p.Length
    modifies p
    ensures p[..] == old(p[..at]) + d + old(p[at + |d|..])
  {
    for k := 0 to |d|
      invariant p[..] == old(p[..at]) + d[..k] + old(p[at + k..])
    {
      p[at + k] := d[k];
    }
  }

  /** The inner loop of dns_send: the length of the label, counted in a u8. */
  method CountLabel(name: seq<Byte>, start: nat) returns (n: nat)
    requires start <= |name| && |name| < 256
    ensures n == LabelEnd(name, start) - start
  {
    n := 0;
    var h := start;
    while h < |name| && name[h] != DOT
      invariant start <= h <= |name| && n == h - start
      invariant LabelEnd(name, start) == LabelEnd(name, h)
    {
      n := (n + 1) % 256;
      h := h + 1;
    }
  }

  // ---------------------------------------------------------------------------
  // dns_compare_name and dns_skip_name
  // ---------------------------------------------------------------------------

  /** The bytes from the start of the name of a table entry on. Nothing stops the matcher
      at the end of the name, so they go on behind it. */
  type Memory = nat -> Byte

  ghost predicate SameBytes(mem: Memory, q: nat, p: seq<Byte>, off: nat, n: nat)
    requires off + n <= |p|
  {
    forall j :: off <= j < off + n ==> p[j] == mem(j - off + q)
  }

  /** The offset behind the encoded name at `off` if its labels are found in memory from `q`
      on, one byte apart from each other. */
  ghost function Match(mem: Memory, q: nat, p: seq<Byte>, off: nat): nat
    decreases |p| - off
  {
    if off >= |p| || p[off] >= 0xc0 || off + 1 + p[off] >= |p| || !SameBytes(mem, q, p, off + 1, p[off]) then FAIL
    else
      var end := off + 1 + p[off];
      if p[end] == 0 then end + 1 else Match(mem, q + p[off] + 1, p, end)
  }

  /** dns_compare_name. */
  method CompareName(mem: Memory, p: seq<Byte>, start: nat) returns (r: nat)
    requires |p| <= 0xffff
    ensures r == Match(mem, 0, p, start)
  {
    var off, query := start, 0;
    while true
      invariant Match(mem, query, p, off) == Match(mem, 0, p, start)
      decreases |p| - off
    {
      if off >= |p| {
        return FAIL;
      }
      var n: int := p[off];
      ghost var n0, q0, off0 := n, query, off;
      off := off + 1;
      if n >= 0xc0 {
        return FAIL;
      }
      while n > 0
        invariant 0 <= n <= n0 && off == off0 + 1 + n0 - n && query == q0 + n0 - n
        invariant off <= |p| && SameBytes(mem, q0, p, off0 + 1, n0 - n)
      {
        if off >= |p| {
          return FAIL;
        }
        if mem(query) != p[off] {
          assert !SameBytes(mem, q0, p, off0 + 1, n0 - n + 1);
          return FAIL;
        }
        off := off + 1;
        query := query + 1;
        n := n - 1;
      }
      query := query + 1;
      if off >= |p| {
        return FAIL;
      }
      if p[off] == 0 {
        return off + 1;
      }
    }
  }

  /** The offset behind the name at `off`, in 16 bits; a compressed name ends with its pointer. */
  function Skip(p: seq<Byte>, off: nat): nat
    decreases |p| - off
  {
    if off >= |p| then FAIL
    else if p[off] >= 0xc0 then (off + 2) % 0x10000
    else
      var end := off + 1 + p[off];
      if end >= |p| then FAIL else if p[end] == 0 then end + 1 else Skip(p, end)
  }

  /** dns_skip_name. */
  method SkipName(p: seq<Byte>, start: nat) returns (r: nat)
    requires |p| <= 0xffff
    ensures r == Skip(p, start)
  {
    var off := start;
    while true
      invariant Skip(p, off) == Skip(p, start)
      decreases |p| - off
    {
      if off >= |p| {
        return FAIL;
      }
      var n: int := p[off];
      off := off + 1;
      if n >= 0xc0 {
        break;
      }
      if off + n >= |p| {
        return FAIL;
      }
      off := off + n;
      if p[off] == 0 {
        break;
      }
    }
    r := (off + 1) % 0x10000;
  }

  /** `p` holds the bytes `s` at offset `off`. */
  ghost predicate Holds(p: seq<Byte>, off: nat, s: seq<Byte>) {
    off + |s| <= |p| && p[off..off + |s|] == s
  }

  lemma HoldsSplit(p: seq<Byte>, off: nat, a: seq<Byte>, b: seq<Byte>)
    requires Holds(p, off, a + b)
    ensures Holds(p, off, a) && Holds(p, off + |a|, b)
  {
    var c := a + b;
    assert forall k :: off <= k < off + |c| ==> p[k] == p[off..off + |c|][k - off] == c[k - off];
  }

  lemma HoldsAt(p: seq<Byte>, off: nat, s: seq<Byte>)
    requires Holds(p, off, s)
    ensures off + |s| <= |p| && forall j :: off <= j < off + |s| ==> p[j] == s[j - off]
  {
    assert forall j :: off <= j < off + |s| ==> p[j] == p[off..off + |s|][j - off];
  }

  /** Memory and name agree wherever the name has no separator. */
  ghost predicate AgreesFrom(mem: Memory, name: seq<Byte>, i: nat) {
    forall k :: i <= k < |name| && name[k] != DOT ==> mem(k) == name[k]
  }

  /** The first label of an encoded name, and what stands behind it. */
  lemma HoldsLabel(p: seq<Byte>, off: nat, name: seq<Byte>, i: nat)
    requires i <= |name| < 256 && Holds(p, off, Encode(name, i))
    ensures var e := LabelEnd(name, i);
            && off < |p| && p[off] == e - i && Holds(p, off + 1, name[i..e])
            && Holds(p, off + 1 + (e - i), Tail(name, i)) && off + 1 + (e - i) < |p|
  {
    hide Encode, Tail, Holds;
    var e := LabelEnd(name, i);
    TailBehind(name, i);
    HoldsSplit(p, off, Label(name, i), Tail(name, i));
    HoldsSplit(p, off, [e - i], name[i..e]);
    HoldsAt(p, off, [e - i]);
    HoldsAt(p, off + 1 + (e - i), Tail(name, i));
  }

  lemma TailBehind(name: seq<Byte>, i: nat)
    requires i <= |name| < 256
    ensures Encode(name, i) == Label(name, i) + Tail(name, i) && |Tail(name, i)| > 0
  {
  }

  /** Behind a label of a well-formed name stands a zero byte exactly at its end. */
  lemma TailStart(p: seq<Byte>, off: nat, name: seq<Byte>, i: nat)
    requires i <= |name| < 256 && WellFormedFrom(name, i) && Holds(p, off, Tail(name, i)) && off < |p|
    ensures p[off] == 0 <==> LabelEnd(name, i) == |name|
  {
    var e := LabelEnd(name, i);
    HoldsAt(p, off, Tail(name, i));
    if e < |name| {
      EncodeLength(name, e + 1);
      assert Tail(name, i)[0] == LabelEnd(name, e + 1) - (e + 1);
    }
  }

  /** The matcher accepts an encoded name exactly when memory agrees with it outside the
      separators; it then stops just behind the name. */
  lemma {:induction false} MatchIff(mem: Memory, name: seq<Byte>, i: nat, p: seq<Byte>, off: nat)
    requires i <= |name| < 256 && WellFormedFrom(name, i) && Holds(p, off, Encode(name, i))
    ensures Match(mem, i, p, off) == if AgreesFrom(mem, name, i) then off + |name| - i + 2 else FAIL
    decreases |name| - i
  {
    hide Encode, Holds, SameBytes, Match, AgreesFrom;
    var e := LabelEnd(name, i);
    HoldsLabel(p, off, name, i);
    TailStart(p, off + 1 + (e - i), name, i);
    SameLabel(mem, name, i, p, off);
    MatchUnfold(mem, i, p, off);
    if e == |name| {
    } else {
      MatchIff(mem, name, e + 1, p, off + 1 + (e - i));
    }
  }

  lemma MatchUnfold(mem: Memory, q: nat, p: seq<Byte>, off: nat)
    requires off < |p| && p[off] < 0xc0 && off + 1 + p[off] < |p|
    ensures var end := off + 1 + p[off];
            Match(mem, q, p, off) ==
            if !SameBytes(mem, q, p, off + 1, p[off]) then FAIL
            else if p[end] == 0 then end + 1 else Match(mem, q + p[off] + 1, p, end)
  {
  }

  lemma SameLabel(mem: Memory, name: seq<Byte>, i: nat, p: seq<Byte>, off: nat)
    requires i <= |name| && Holds(p, off + 1, name[i..LabelEnd(name, i)])
    ensures var e := LabelEnd(name, i);
            AgreesFrom(mem, name, i) <==>
            SameBytes(mem, i, p, off + 1, e - i) && (e < |name| ==> AgreesFrom(mem, name, e + 1))
  {
    var e := LabelEnd(name, i);
    LabelBytes(name, i, p, off);
    assert forall k :: i <= k < e ==> name[k] != DOT;
    assert e < |name| ==> name[e] == DOT;
    hide Holds, LabelEnd;
    if SameBytes(mem, i, p, off + 1, e - i) {
      forall k | i <= k < e
        ensures mem(k) == name[k]
      {
        assert p[k - i + off + 1] == name[k];
        assert mem(k - i + off + 1 - (off + 1) + i) == mem(k);
      }
    }
    if AgreesFrom(mem, name, i) {
      forall j | off + 1 <= j < off + 1 + (e - i)
        ensures p[j] == mem(j - (off + 1) + i)
      {
        assert name[j - (off + 1) + i] == p[j];
      }
    }
  }

  lemma LabelBytes(name: seq<Byte>, i: nat, p: seq<Byte>, off: nat)
    requires i <= |name| && Holds(p, off + 1, name[i..LabelEnd(name, i)])
    ensures var e := LabelEnd(name, i);
            && off + 1 + (e - i) <= |p|
            && (forall k :: i <= k < e ==> p[k - i + off + 1] == name[k])
            && (forall j :: off + 1 <= j < off + 1 + (e - i) ==> name[j - (off + 1) + i] == p[j])
  {
    var e := LabelEnd(name, i);
    var s := name[i..e];
    hide LabelEnd;
    HoldsAt(p, off + 1, s);
    forall k | i <= k < e
      ensures p[k - i + off + 1] == name[k]
    {
      assert s[k - i] == name[k];
      assert p[k - i + off + 1] == s[k - i + off + 1 - (off + 1)];
    }
  }

  lemma {:induction false} SkipEncoded(name: seq<Byte>, i: nat, p: seq<Byte>, off: nat)
    requires i <= |name| < 256 && WellFormedFrom(name, i) && Holds(p, off, Encode(name, i))
    ensures Skip(p, off) == off + |name| - i + 2
    decreases |name| - i
  {
    hide Encode, Holds;
    var e := LabelEnd(name, i);
    HoldsLabel(p, off, name, i);
    TailStart(p, off + 1 + (e - i), name, i);
    if e == |name| {
    } else {
      SkipEncoded(name, e + 1, p, off + 1 + (e - i));
    }
  }

  /** Round trip: in a packet that carries the question of `dns_send`, the matcher accepts
      the same name and matcher and skipper both stop just behind it. */
  lemma QuestionAccepted(mem: Memory, txid: nat, name: seq<Byte>, rest: seq<Byte>)
    requires txid < 0x10000 && WellFormed(name)
    requires forall k :: 0 <= k < |name| ==> mem(k) == name[k]
    ensures var p := Question(txid, name) + rest;
            Match(mem, 0, p, HDR) == Skip(p, HDR) == HDR + |name| + 2
  {
    hide Encode, Match, Skip, Question, AgreesFrom, WellFormedFrom;
    var p := Question(txid, name) + rest;
    QuestionHolds(txid, name, rest);
    AllAgrees(mem, name);
    MatchIff(mem, name, 0, p, HDR);
    SkipEncoded(name, 0, p, HDR);
  }

  lemma QuestionHolds(txid: nat, name: seq<Byte>, rest: seq<Byte>)
    requires txid < 0x10000 && |name| < 256
    ensures var p := Question(txid, name) + rest;
            |Encode(name, 0)| == |name| + 2 && Holds(p, HDR, Encode(name, 0))
  {
    EncodeLength(name, 0);
    hide Encode;
    var p, h := Question(txid, name) + rest, Header(txid);
    assert |h| == HDR;
    assert p[HDR..HDR + |name| + 2] == Encode(name, 0);
  }

  /** The word "axb", as the name of an entry. */
  function Axb(k: nat): Byte {
    if k == 0 then 97 else if k == 1 then 120 else if k == 2 then 98 else 0
  }

  /** The converse fails: the separators are not compared, so the name "a.b" in a response
      is taken for an answer to "axb". */
  lemma WrongNameAccepted()
    ensures WellFormed([97, DOT, 98]) && Match(Axb, 0, Question(0, [97, DOT, 98]), HDR) == HDR + 5
  {
    var answered: seq<Byte> := [97, DOT, 98];
    assert LabelEnd(answered, 0) == 1 && LabelEnd(answered, 2) == 3;
    var p := Question(0, answered);
    EncodeLength(answered, 0);
    assert p[HDR..HDR + 5] == Encode(answered, 0);
    MatchIff(Axb, answered, 0, p, HDR);
  }

  // ---------------------------------------------------------------------------
  // dns_recv: reading a response for the entry whose id it carries
  // ---------------------------------------------------------------------------

  datatype Verdict = Ignored | NoAddress | Address(ip: seq<Byte>, ttl: nat)

  function Be16(p: seq<Byte>, i: nat): nat
    requires i + 2 <= |p|
  {
    var hi: int := p[i];
    256 * hi + p[i + 1]
  }

  function Be32(p: seq<Byte>, i: nat): nat
    requires i + 4 <= |p|
  {
    0x10000 * Be16(p, i) + Be16(p, i + 2)
  }

  /** The first A record of class IN among the `n` answers from `idx` on. */
  function Answers(p: seq<Byte>, idx: nat, n: nat): Verdict
    decreases n
  {
    if n == 0 || idx >= |p| then NoAddress
    else
      var r := Skip(p, idx);
      if r == FAIL || r + 10 > |p| then Ignored
      else if Be16(p, r + 2) == 1 && Be16(p, r) == 1 && Be16(p, r + 8) == 4 then
        if r + 14 > |p| then Ignored else Address(p[r + 10..r + 14], Be32(p, r + 4))
      else if r + 10 + Be16(p, r + 8) > 0xffff then Ignored
      else Answers(p, r + 10 + Be16(p, r + 8), n - 1)
  }

  /** What a packet says to the entry with its id. */
  ghost function Classify(p: seq<Byte>, mem: Memory, fromServer: bool): Verdict {
    if |p| < HDR + 4 || p[2] < 128 || Be16(p, 4) != 1 || !fromServer then Ignored
    else
      var r := Match(mem, 0, p, HDR);
      if r == FAIL || r + 4 > |p| || Be16(p, r + 2) != 1 || Be16(p, r) != 1 then Ignored
      else
        var code: int := p[3];
        if code % 16 != 0 then NoAddress else Answers(p, r + 4, Be16(p, 6))
  }

  method ReadAnswers(p: seq<Byte>, start: nat, count: nat) returns (v: Verdict)
    requires |p| <= 0xffff
    ensures v == Answers(p, start, count)
  {
    hide Skip, Be16, Be32;
    var idx: nat, nanswers: nat := start, count;
    while nanswers > 0 && idx < |p|
      invariant Answers(p, idx, nanswers) == Answers(p, start, count)
      decreases nanswers
    {
      var r := SkipName(p, idx);
      if r == FAIL {
        return Ignored;
      }
      if r + 10 > |p| {
        return Ignored;
      }
      if Be16(p, r + 2) == 1 {
        if Be16(p, r) == 1 && Be16(p, r + 8) == 4 {
          if r + 14 > |p| {
            return Ignored;
          }
          return Address(p[r + 10..r + 14], Be32(p, r + 4));
        }
      }
      if r + 10 + Be16(p, r + 8) > 0xffff {
        return Ignored;
      }
      idx := r + 10 + Be16(p, r + 8);
      nanswers := nanswers - 1;
    }
    v := NoAddress;
  }

  method ReadResponse(p: seq<Byte>, mem: Memory, fromServer: bool) returns (v: Verdict)
    requires |p| <= 0xffff
    ensures v == Classify(p, mem, fromServer)
  {
    if |p| < HDR + 4 || p[2] < 128 || Be16(p, 4) != 1 || !fromServer {
      return Ignored;
    }
    var r := CompareName(mem, p, HDR);
    if r == FAIL || r + 4 > |p| {
      return Ignored;
    }
    if Be16(p, r + 2) != 1 || Be16(p, r) != 1 {
      return Ignored;
    }
    var code: int := p[3];
    if code % 16 != 0 {
      return NoAddress;
    }
    v := ReadAnswers(p, r + 4, Be16(p, 6));
  }

  // ---------------------------------------------------------------------------
  // Replies: sections 4.1.3 and 4.1.4 of RFC 1035
  // ---------------------------------------------------------------------------

  /** A name on the wire ends with the root or with a pointer into the packet. */
  datatype NameEnd = Root | Pointer(hi: Byte, lo: Byte)

  /** A resource record. */
  datatype Rr = Rr(labels: seq<seq<Byte>>, end: NameEnd, typ: nat, cls: nat, ttl: seq<Byte>, data: seq<Byte>)

  /** Labels of 1 to 63 bytes; a pointer has its two highest bits set. */
  ghost predicate ValidName(labels: seq<seq<Byte>>, end: NameEnd) {
    (forall l :: l in labels ==> 1 <= |l| <= 63) && (end.Pointer? ==> end.hi >= 0xc0)
  }

  /** A record as a server sends it, whose name is not the bare root. */
  ghost predicate ValidRr(rr: Rr) {
    && ValidName(rr.labels, rr.end) && (rr.labels == [] ==> rr.end.Pointer?)
    && rr.typ < 0x10000 && rr.cls < 0x10000 && |rr.ttl| == 4 && |rr.data| < 0x10000
  }

  ghost function WireName(labels: seq<seq<Byte>>, end: NameEnd): (w: seq<Byte>)
    requires ValidName(labels, end)
    ensures |w| > 0
  {
    if labels == [] then (match end case Root => [0] case Pointer(hi, lo) => [hi, lo])
    else [|labels[0]|] + labels[0] + WireName(labels[1..], end)
  }

  function U16(x: nat): seq<Byte>
    requires x < 0x10000
  {
    [x / 256, x % 256]
  }

  /** Type, class, time to live and length: ten bytes. */
  ghost function Fixed(rr: Rr): (w: seq<Byte>)
    requires ValidRr(rr)
    ensures |w| == 10
  {
    U16(rr.typ) + U16(rr.cls) + rr.ttl + U16(|rr.data|)
  }

  ghost function WireRr(rr: Rr): seq<Byte>
    requires ValidRr(rr)
  {
    WireName(rr.labels, rr.end) + (Fixed(rr) + rr.data)
  }

  ghost function WireRrs(rrs: seq<Rr>): seq<Byte>
    requires forall rr :: rr in rrs ==> ValidRr(rr)
  {
    if rrs == [] then [] else WireRr(rrs[0]) + WireRrs(rrs[1..])
  }

  /** What the answers mean: the first address record of the Internet class counts. */
  function FirstAddress(rrs: seq<Rr>): Verdict
    requires forall rr :: rr in rrs ==> |rr.ttl| == 4
  {
    if rrs == [] then NoAddress
    else if rrs[0].cls == 1 && rrs[0].typ == 1 && |rrs[0].data| == 4 then Address(rrs[0].data, Be32(rrs[0].ttl, 0))
    else FirstAddress(rrs[1..])
  }

  /** The skipper gets behind every name but the bare root, whose zero byte it takes for a label. */
  lemma SkipWireIff(labels: seq<seq<Byte>>, end: NameEnd, p: seq<Byte>, off: nat)
    requires ValidName(labels, end) && |p| < FAIL && Holds(p, off, WireName(labels, end))
    ensures Skip(p, off) == off + |WireName(labels, end)| <==> labels != [] || end.Pointer?
  {
    if labels == [] && end.Root? {
      HoldsAt(p, off, WireName(labels, end));
      SkipBeyond(p, off + 1);
    } else {
      SkipWire(labels, end, p, off);
    }
  }

  /** The skipper fails or moves on. */
  lemma {:induction false} SkipBeyond(p: seq<Byte>, off: nat)
    requires off <= |p| < FAIL
    ensures Skip(p, off) > off
    decreases |p| - off
  {
    if off == |p| || p[off] >= 0xc0 || off + 1 + p[off] >= |p| {
    } else {
      SkipBeyond(p, off + 1 + p[off]);
    }
  }

  lemma SkipUnfold(p: seq<Byte>, off: nat)
    requires off < |p| && p[off] < 0xc0 && off + 1 + p[off] < |p|
    ensures var end := off + 1 + p[off]; Skip(p, off) == if p[end] == 0 then end + 1 else Skip(p, end)
  {
  }

  lemma SkipPointer(p: seq<Byte>, off: nat)
    requires off + 2 <= |p| <= 0xffff && p[off] >= 0xc0
    ensures Skip(p, off) == off + 2
  {
  }

  lemma {:induction false} SkipWire(labels: seq<seq<Byte>>, end: NameEnd, p: seq<Byte>, off: nat)
    requires ValidName(labels, end) && (labels == [] ==> end.Pointer?)
    requires |p| <= 0xffff && Holds(p, off, WireName(labels, end))
    ensures Skip(p, off) == off + |WireName(labels, end)|
    decreases |labels|
  {
    hide Holds, Skip;
    if labels == [] {
      HoldsAt(p, off, WireName(labels, end));
      SkipPointer(p, off);
    } else {
      var l, w := labels[0], WireName(labels[1..], end);
      assert l in labels;
      WireStart(labels[1..], end);
      HoldsSplit(p, off, [|l|] + l, w);
      HoldsSplit(p, off, [|l|], l);
      HoldsAt(p, off, [|l|]);
      HoldsAt(p, off + 1 + |l|, w);
      SkipUnfold(p, off);
      if labels[1..] == [] && end.Root? {
      } else {
        SkipWire(labels[1..], end, p, off + 1 + |l|);
      }
    }
  }

  lemma WireStart(labels: seq<seq<Byte>>, end: NameEnd)
    requires ValidName(labels, end)
    ensures WireName(labels, end)[0] == 0 <==> labels == [] && end.Root?
  {
  }

  lemma FixedRead(rr: Rr, p: seq<Byte>, r: nat)
    requires ValidRr(rr) && Holds(p, r, Fixed(rr))
    ensures r + 10 <= |p| && Be16(p, r) == rr.typ && Be16(p, r + 2) == rr.cls && Be16(p, r + 8) == |rr.data|
    ensures Be32(p, r + 4) == Be32(rr.ttl, 0)
  {
    var f := Fixed(rr);
    assert forall k :: 0 <= k < 4 ==> f[4 + k] == rr.ttl[k];
    assert f[8..] == U16(|rr.data|) && f[..2] == U16(rr.typ) && f[2..4] == U16(rr.cls);
    HoldsAt(p, r, f);
    hide Fixed;
    assert p[r] == f[0] && p[r + 1] == f[1] && p[r + 2] == f[2] && p[r + 3] == f[3];
    assert p[r + 4] == f[4] && p[r + 5] == f[5] && p[r + 6] == f[6] && p[r + 7] == f[7];
    assert p[r + 8] == f[8] && p[r + 9] == f[9];
  }

  /** One turn of the answer loop over a record. */
  lemma AnswerStep(rr: Rr, p: seq<Byte>, i: nat, n: nat)
    requires ValidRr(rr) && |p| <= 0xffff && Holds(p, i, WireRr(rr)) && n > 0
    ensures Answers(p, i, n) ==
      if rr.cls == 1 && rr.typ == 1 && |rr.data| == 4 then Address(rr.data, Be32(rr.ttl, 0))
      else Answers(p, i + |WireRr(rr)|, n - 1)
  {
    hide Holds, WireName, Fixed, Skip, Be16, Be32;
    var r := i + |WireName(rr.labels, rr.end)|;
    HoldsSplit(p, i, WireName(rr.labels, rr.end), Fixed(rr) + rr.data);
    HoldsSplit(p, r, Fixed(rr), rr.data);
    SkipWire(rr.labels, rr.end, p, i);
    FixedRead(rr, p, r);
    DataRead(rr.data, p, r + 10);
    hide ValidRr, WireRr;
  }

  lemma DataRead(data: seq<Byte>, p: seq<Byte>, at: nat)
    requires Holds(p, at, data)
    ensures at + |data| <= |p| && p[at..at + |data|] == data
  {
  }

  /** Reading any list of answers, whatever follows them in the packet. */
  lemma {:induction false} AnswersRead(rrs: seq<Rr>, p: seq<Byte>, i: nat)
    requires (forall rr :: rr in rrs ==> ValidRr(rr)) && |p| <= 0xffff && Holds(p, i, WireRrs(rrs))
    ensures Answers(p, i, |rrs|) == FirstAddress(rrs)
    decreases |rrs|
  {
    hide Holds, WireRr, ValidRr, Be32, Skip, Be16;
    if rrs == [] {
    } else {
      assert ValidRr(rrs[0]);
      var w := WireRr(rrs[0]);
      HoldsSplit(p, i, w, WireRrs(rrs[1..]));
      AnswerStep(rrs[0], p, i, |rrs|);
      AnswersRead(rrs[1..], p, i + |w|);
    }
  }

  function ReplyHeader(txid: nat, flags1: Byte, flags2: Byte, answers: nat): (h: seq<Byte>)
    requires txid < 0x10000 && answers < 0x10000
    ensures |h| == HDR
  {
    [txid / 256, txid % 256, flags1, flags2, 0, 1, answers / 256, answers % 256, 0, 0, 0, 0]
  }

  /** A server's reply to the question: header, the question itself, the answers and what follows them. */
  ghost function Reply(txid: nat, flags1: Byte, flags2: Byte, name: seq<Byte>, rrs: seq<Rr>, rest: seq<Byte>): seq<Byte>
    requires txid < 0x10000 && |name| < 256 && |rrs| < 0x10000 && forall rr :: rr in rrs ==> ValidRr(rr)
  {
    ReplyHeader(txid, flags1, flags2, |rrs|) + Encode(name, 0) + QUERY + (WireRrs(rrs) + rest)
  }

  /** Every reply from the server asked is understood, for every well-formed name and every list of
      answers: an error code means no address, and otherwise the first address counts. */
  lemma ReplyUnderstood(mem: Memory, txid: nat, flags1: Byte, flags2: Byte, name: seq<Byte>, rrs: seq<Rr>,
                        rest: seq<Byte>)
    requires txid < 0x10000 && flags1 >= 128 && WellFormed(name)
    requires |rrs| < 0x10000 && forall rr :: rr in rrs ==> ValidRr(rr)
    requires |Reply(txid, flags1, flags2, name, rrs, rest)| <= 0xffff
    requires forall k :: 0 <= k < |name| ==> mem(k) == name[k]
    ensures var code: int := flags2;
            Classify(Reply(txid, flags1, flags2, name, rrs, rest), mem, true)
            == if code % 16 != 0 then NoAddress else FirstAddress(rrs)
  {
    hide Encode, Match, Answers, Be16, ReplyHeader, Classify, AgreesFrom, WellFormedFrom, WireRrs, FirstAddress, ValidRr;
    var p, r := Reply(txid, flags1, flags2, name, rrs, rest), HDR + |name| + 2;
    EncodeLength(name, 0);
    ReplyParts(ReplyHeader(txid, flags1, flags2, |rrs|), Encode(name, 0), WireRrs(rrs), rest, p);
    AllAgrees(mem, name);
    MatchIff(mem, name, 0, p, HDR);
    HeaderRead(p, txid, flags1, flags2, |rrs|);
    AnswersRead(rrs, p, r + 4);
    ClassifyIs(p, mem, r);
  }

  lemma AllAgrees(mem: Memory, name: seq<Byte>)
    requires forall k :: 0 <= k < |name| ==> mem(k) == name[k]
    ensures AgreesFrom(mem, name, 0)
  {
  }

  lemma ClassifyIs(p: seq<Byte>, mem: Memory, r: nat)
    requires HDR + 4 <= |p| && p[2] >= 128 && Be16(p, 4) == 1
    requires Match(mem, 0, p, HDR) == r != FAIL && r + 4 <= |p| && Be16(p, r + 2) == 1 && Be16(p, r) == 1
    ensures var code: int := p[3];
            Classify(p, mem, true) == if code % 16 != 0 then NoAddress else Answers(p, r + 4, Be16(p, 6))
  {
    hide Match, Answers, Be16;
  }

  lemma HeaderRead(p: seq<Byte>, txid: nat, flags1: Byte, flags2: Byte, answers: nat)
    requires txid < 0x10000 && answers < 0x10000 && |p| >= HDR
    requires p[..HDR] == ReplyHeader(txid, flags1, flags2, answers)
    ensures p[2] == flags1 && p[3] == flags2 && Be16(p, 4) == 1 && Be16(p, 6) == answers
  {
    var h := ReplyHeader(txid, flags1, flags2, answers);
    assert forall k :: 0 <= k < HDR ==> p[k] == h[k];
  }

  /** Where header, name, question and answers of a reply stand. */
  lemma ReplyParts(head: seq<Byte>, name: seq<Byte>, rrs: seq<Byte>, rest: seq<Byte>, p: seq<Byte>)
    requires |head| == HDR && p == head + name + QUERY + (rrs + rest)
    ensures p[..HDR] == head && Holds(p, HDR, name) && Holds(p, HDR + |name| + 4, rrs)
    ensures Be16(p, HDR + |name|) == 1 && Be16(p, HDR + |name| + 2) == 1
  {
    var r := HDR + |name|;
    assert p[r] == 0 && p[r + 1] == 1 && p[r + 2] == 0 && p[r + 3] == 1;
    assert p[HDR..r] == name && p[r + 4..r + 4 + |rrs|] == rrs;
  }
}
