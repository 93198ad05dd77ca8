/**
  The kernel log: a ring of characters with free-running 32-bit indices, the copy loop of vprintk
  that puts a level tag and a time stamp in front of every line, and the console flush that takes
  the tags out again and sends each new stretch of the ring in at most two pieces.
 */
module PrintkLog {

  import opened Basics

  const U32: nat := 0x1_0000_0000

  /** The size of the ring, a power of two. */
  const N: nat := 0x20000

  const SYSLOG_PRI_MAX_LENGTH: nat := 5

  // Level tags

  /** The i-th character of a C string. */
  function At(p: string, i: nat): char {
    if i < |p| then p[i] else '\0'
  }

  predicate IsDigit(c: char) {
    '0' <= c <= '9'
  }

  /** Where the digits from `i` on end. */
  function DigitsEnd(p: string, i: nat): (e: nat)
    requires i <= |p|
    ensures i <= e <= |p|
    ensures forall j :: i <= j < e ==> IsDigit(p[j])
    ensures !IsDigit(At(p, e))
    decreases |p| - i
  {
    if i < |p| && IsDigit(p[i]) then DigitsEnd(p, i + 1) else i
  }

  /** The last three bits of the number written in p[i..e], in 32-bit arithmetic. */
  function LevelOf(p: string, i: nat, e: nat, acc: nat): (lev: nat)
    requires i <= e <= |p| && forall j :: i <= j < e ==> IsDigit(p[j])
    ensures lev < 8
    decreases e - i
  {
    if i == e then acc % 8 else LevelOf(p, i + 1, e, (acc * 10 + (p[i] as nat - '0' as nat)) % U32)
  }

  /** What log_prefix finds at the start of a string. */
  datatype Prefix = NoPrefix | Level(len: nat, level: nat) | Special(len: nat, which: char)

  function PrefixLen(x: Prefix): nat {
    if x.NoPrefix? then 0 else x.len
  }

  /** log_prefix; `special` says whether the caller asks for the special characters. */
  function LogPrefix(p: string, special: bool): (x: Prefix)
    ensures !x.NoPrefix? ==> 2 <= x.len <= |p| && p[0] == '<' && p[x.len - 1] == '>'
    ensures x.Level? ==> x.level < 8
    ensures x.Special? ==> special && x.len == 3 && x.which in "cd"
  {
    if At(p, 0) != '<' || At(p, 1) == '\0' then NoPrefix
    else if At(p, 2) == '>' then
      if '0' <= p[1] <= '7' then Level(3, p[1] as nat - '0' as nat)
      else if (p[1] == 'c' || p[1] == 'd') && special then Special(3, p[1])
      else NoPrefix
    else
      var e := DigitsEnd(p, 1);
      if At(p, e) == '>' then Level(e + 1, LevelOf(p, 1, e, 0)) else NoPrefix
  }

  /** How many characters the console takes off the start of a line: a tag it can recognise
      within the first five. */
  function Strip(r: string): (k: nat)
    ensures k <= |r|
  {
    if |r| <= 2 then 0
    else PrefixLen(LogPrefix(if |r| < SYSLOG_PRI_MAX_LENGTH then r else r[..SYSLOG_PRI_MAX_LENGTH], false))
  }

  lemma DigitsEndIs(p: string, i: nat, e: nat)
    requires i <= e < |p| && (forall j :: i <= j < e ==> IsDigit(p[j])) && !IsDigit(p[e])
    ensures DigitsEnd(p, i) == e
  {
    var f := DigitsEnd(p, i);
    assert e <= f;
    assert f <= e;
  }

  /** A tag that vprintk accepted is recognised again in front of a time stamp. */
  lemma TagIsStripped(text: string, rest: string)
    requires LogPrefix(text, true).Level? && LogPrefix(text, true).len <= SYSLOG_PRI_MAX_LENGTH
    requires rest != "" && rest[0] == '[' && 2 < |text[..LogPrefix(text, true).len] + rest|
    ensures Strip(text[..LogPrefix(text, true).len] + rest) == LogPrefix(text, true).len
  {
    var len := LogPrefix(text, true).len;
    var r := text[..len] + rest;
    var p := if |r| < SYSLOG_PRI_MAX_LENGTH then r else r[..SYSLOG_PRI_MAX_LENGTH];
    assert forall i :: 0 <= i < len ==> p[i] == text[i];
    assert len < |p| ==> p[len] == '[';
    if text[2..] != "" && text[2] == '>' {
    } else {
      assert DigitsEnd(text, 1) == len - 1;
      DigitsEndIs(p, 1, len - 1);
    }
  }

  /** A longer one is not. */
  lemma LongTagStays(text: string, rest: string)
    requires LogPrefix(text, true).Level? && SYSLOG_PRI_MAX_LENGTH < LogPrefix(text, true).len
    ensures Strip(text[..LogPrefix(text, true).len] + rest) == 0
  {
    var len := LogPrefix(text, true).len;
    var p := (text[..len] + rest)[..SYSLOG_PRI_MAX_LENGTH];
    assert forall i :: 0 <= i < 5 ==> p[i] == text[i];
    assert DigitsEnd(text, 1) == len - 1;
    assert At(p, DigitsEnd(p, 1)) != '>';
  }

  // What a message adds to the log, and what of it belongs on the console

  /** A time stamp as vprintk formats it. */
  predicate IsStamp(t: string) {
    0 < |t| <= 50 && t[0] == '[' && '\n' !in t
  }

  ghost predicate Stamps(stamps: seq<string>) {
    forall i :: 0 <= i < |stamps| ==> IsStamp(stamps[i])
  }

  /** The text from `i` on, with `tag` and a time stamp in front of every line; `nl` says whether
      position `i` starts a line. */
  function Lines(body: string, i: nat, tag: string, stamps: seq<string>, nl: bool): string
    requires i <= |body| == |stamps|
    decreases |body| - i
  {
    if i == |body| then ""
    else (if nl then tag + stamps[i] else "") + [body[i]] + Lines(body, i + 1, tag, stamps, body[i] == '\n')
  }

  /** Whether the next character starts a line once `body` has been written. */
  function LineStartAfter(body: string, nl: bool): bool {
    if body == "" then nl else body[|body| - 1] == '\n'
  }

  /** How vprintk reads a message. */
  datatype Message = Message(tag: string, body: string, newLine: bool)

  /** The tag a message's lines get, the text without its own prefix, and whether it has to begin
      on a new line. */
  function Parse(text: string): (m: Message)
    ensures |m.body| <= |text|
  {
    match LogPrefix(text, true)
    case NoPrefix => Message("<4>", text, false)
    case Special(len, which) => Message("<4>", text[len..], which == 'd')
    case Level(len, level) => Message(text[..len], text[len..], true)
  }

  /** Whether a message first has to end the line before it. */
  predicate Breaks(text: string, nl: bool) {
    Parse(text).newLine && !nl
  }

  /** Everything that a message adds, with its lines tagged by `tag`. */
  function Added(text: string, tag: string, stamps: seq<string>, nl: bool): string
    requires |stamps| == |Parse(text).body|
  {
    (if Breaks(text, nl) then "\n" else "")
    + Lines(Parse(text).body, 0, tag, stamps, nl || Parse(text).newLine)
  }

  /** What goes into the ring. */
  function Logged(text: string, stamps: seq<string>, nl: bool): string
    requires |stamps| == |Parse(text).body|
  {
    Added(text, Parse(text).tag, stamps, nl)
  }

  /** What is to appear on the console: the same without the tags. */
  function Shown(text: string, stamps: seq<string>, nl: bool): string
    requires |stamps| == |Parse(text).body|
  {
    Added(text, "", stamps, nl)
  }

  // What the console flush makes of a stretch of the log

  /** Where the flush stands: before a line, in a line whose tag it took off, or in a line without
      a tag that it could recognise. */
  datatype Place = Start | Tagged | Bare

  function PlaceRank(st: Place): nat {
    if st.Start? then 1 else 0
  }

  function Show(r: string, st: Place): string
    decreases |r|, PlaceRank(st)
  {
    if r == "" then ""
    else if st.Start? then
      if Strip(r) > 0 then Show(r[Strip(r)..], Tagged) else Show(r, Bare)
    else [r[0]] + Show(r[1..], if r[0] == '\n' then Start else st)
  }

  function PlaceAfter(r: string, st: Place): Place
    decreases |r|, PlaceRank(st)
  {
    if r == "" then st
    else if st.Start? then
      if Strip(r) > 0 then PlaceAfter(r[Strip(r)..], Tagged) else PlaceAfter(r, Bare)
    else PlaceAfter(r[1..], if r[0] == '\n' then Start else st)
  }

  /** Inside a line everything is shown. */
  lemma {:induction false} ShowPlain(x: string, y: string, st: Place)
    requires !st.Start? && '\n' !in x
    ensures Show(x + y, st) == x + Show(y, st)
    ensures PlaceAfter(x + y, st) == PlaceAfter(y, st)
  {
    if x == "" {
      assert x + y == y;
    } else {
      ShowPlain(x[1..], y, st);
      assert (x + y)[1..] == x[1..] + y;
      assert x == [x[0]] + x[1..];
      hide Show, PlaceAfter;
      assert [x[0]] + (x[1..] + Show(y, st)) == x + Show(y, st);
    }
  }

  /** One character more, inside a line. */
  lemma ShowOne(c: char, y: string, st: Place)
    requires !st.Start?
    ensures Show([c] + y, st) == [c] + Show(y, if c == '\n' then Start else st)
    ensures PlaceAfter([c] + y, st) == PlaceAfter(y, if c == '\n' then Start else st)
  {
    assert ([c] + y)[1..] == y;
  }

  function PlaceOf(nl: bool): Place {
    if nl then Start else Tagged
  }

  /** The tag is taken off in front of every time stamp. */
  ghost predicate Recognised(tag: string) {
    && tag != ""
    && forall t: string :: t != "" && t[0] == '[' && 2 < |tag + t| ==> Strip(tag + t) == |tag|
  }

  /** The tag is never taken off. */
  ghost predicate Overlooked(tag: string) {
    tag != "" && '\n' !in tag && forall t: string :: Strip(tag + t) == 0
  }

  lemma LinesStep(body: string, i: nat, tag: string, stamps: seq<string>, nl: bool)
    requires i < |body| == |stamps|
    ensures var rest := [body[i]] + Lines(body, i + 1, tag, stamps, body[i] == '\n');
      Lines(body, i, tag, stamps, nl) == if nl then tag + (stamps[i] + rest) else rest
  {
    var rest := Lines(body, i + 1, tag, stamps, body[i] == '\n');
    hide Lines;
    assert tag + stamps[i] + [body[i]] + rest == tag + (stamps[i] + ([body[i]] + rest));
    assert "" + [body[i]] + rest == [body[i]] + rest;
  }

  lemma UntaggedStep(body: string, i: nat, stamps: seq<string>, nl: bool)
    requires i < |body| == |stamps|
    ensures var rest := [body[i]] + Lines(body, i + 1, "", stamps, body[i] == '\n');
      Lines(body, i, "", stamps, nl) == if nl then stamps[i] + rest else rest
  {
    LinesStep(body, i, "", stamps, nl);
    var rest := [body[i]] + Lines(body, i + 1, "", stamps, body[i] == '\n');
    hide Lines;
    assert "" + (stamps[i] + rest) == stamps[i] + rest;
  }

  lemma ShowTag(tag: string, t: string)
    requires Recognised(tag) && |t| > 1 && t[0] == '['
    ensures Show(tag + t, Start) == Show(t, Tagged)
    ensures PlaceAfter(tag + t, Start) == PlaceAfter(t, Tagged)
  {
    hide Strip;
    assert Strip(tag + t) == |tag|;
    assert (tag + t)[|tag|..] == t;
  }

  lemma LineStartStep(body: string, i: nat, nl: bool)
    requires i < |body|
    ensures LineStartAfter(body[i + 1..], body[i] == '\n') == LineStartAfter(body[i..], nl)
  {
  }

  /** The flush takes exactly the tags out of the lines of a message, whatever follows them. */
  lemma {:induction false} ShowLines(body: string, i: nat, tag: string, stamps: seq<string>, nl: bool, more: string)
    requires i <= |body| == |stamps| && Stamps(stamps) && Recognised(tag)
    ensures var after := PlaceOf(LineStartAfter(body[i..], nl)); var r := Lines(body, i, tag, stamps, nl) + more;
      && Show(r, PlaceOf(nl)) == Lines(body, i, "", stamps, nl) + Show(more, after)
      && PlaceAfter(r, PlaceOf(nl)) == PlaceAfter(more, after)
    decreases |body| - i
  {
    if i == |body| {
      hide Show, PlaceAfter;
      LinesEnd(body, tag, stamps, nl);
      LinesEnd(body, "", stamps, nl);
      assert body[i..] == "" && "" + more == more && "" + Show(more, PlaceOf(nl)) == Show(more, PlaceOf(nl));
    } else {
      hide Show, PlaceAfter, Lines, LineStartAfter, Recognised;
      var c := body[i];
      var after := PlaceOf(LineStartAfter(body[i..], nl));
      var rest := Lines(body, i + 1, tag, stamps, c == '\n') + more;
      var out := Lines(body, i + 1, "", stamps, c == '\n');
      ShowLines(body, i + 1, tag, stamps, c == '\n', more);
      LineStartStep(body, i, nl);
      ShowOne(c, rest, Tagged);
      LinesStep(body, i, tag, stamps, nl);
      UntaggedStep(body, i, stamps, nl);
      Assoc([c], Lines(body, i + 1, tag, stamps, c == '\n'), more);
      Assoc([c], out, Show(more, after));
      if nl {
        ShowPlain(stamps[i], [c] + rest, Tagged);
        ShowTag(tag, stamps[i] + ([c] + rest));
        var l := [c] + Lines(body, i + 1, tag, stamps, c == '\n');
        Assoc(tag, stamps[i] + l, more);
        Assoc(stamps[i], l, more);
        Assoc(stamps[i], [c] + out, Show(more, after));
      }
    }
  }

  function BarePlaceOf(nl: bool): Place {
    if nl then Start else Bare
  }

  lemma ShowUntagged(tag: string, t: string)
    requires Overlooked(tag)
    ensures Show(tag + t, Start) == tag + Show(t, Bare)
    ensures PlaceAfter(tag + t, Start) == PlaceAfter(t, Bare)
  {
    hide Strip;
    assert Strip(tag + t) == 0;
    ShowPlain(tag, t, Bare);
  }

  /** With a tag that is too long the flush shows the lines as they are in the log. */
  lemma {:induction false} ShowLongLines(body: string, i: nat, tag: string, stamps: seq<string>, nl: bool)
    requires i <= |body| == |stamps| && Stamps(stamps) && Overlooked(tag)
    ensures Show(Lines(body, i, tag, stamps, nl), BarePlaceOf(nl)) == Lines(body, i, tag, stamps, nl)
    decreases |body| - i
  {
    if i == |body| {
    } else {
      hide Show, PlaceAfter, Lines, Overlooked;
      var c := body[i];
      var rest := Lines(body, i + 1, tag, stamps, c == '\n');
      ShowLongLines(body, i + 1, tag, stamps, c == '\n');
      ShowOne(c, rest, Bare);
      LinesStep(body, i, tag, stamps, nl);
      if nl {
        ShowPlain(stamps[i], [c] + rest, Bare);
        ShowUntagged(tag, stamps[i] + ([c] + rest));
      }
    }
  }

  // A whole message

  /** Messages whose own prefix, if any, is at most five characters long. */
  predicate ShortTag(text: string) {
    |Parse(text).tag| <= SYSLOG_PRI_MAX_LENGTH
  }

  lemma ShortTagRecognised(text: string)
    requires ShortTag(text)
    ensures Recognised(Parse(text).tag)
  {
    var tag := Parse(text).tag;
    forall t: string | t != "" && t[0] == '[' && 2 < |tag + t|
      ensures Strip(tag + t) == |tag|
    {
      if LogPrefix(text, true).Level? {
        TagIsStripped(text, t);
      } else {
        DefaultTagIsStripped(t);
      }
    }
  }

  lemma DefaultTagIsStripped(t: string)
    ensures Strip("<4>" + t) == 3
  {
    var r := "<4>" + t;
    var p := if |r| < SYSLOG_PRI_MAX_LENGTH then r else r[..SYSLOG_PRI_MAX_LENGTH];
    assert p[0] == '<' && p[1] == '4' && p[2] == '>';
  }

  lemma LongTagOverlooked(text: string)
    requires !ShortTag(text)
    ensures Overlooked(Parse(text).tag)
  {
    var len := LogPrefix(text, true).len;
    forall t: string
      ensures Strip(Parse(text).tag + t) == 0
    {
      LongTagStays(text, t);
    }
    assert forall j :: 1 <= j < len - 1 ==> IsDigit(text[j]);
  }

  /** The stretch `r`, flushed from place `st` on, shows `out` and leaves the flush before or inside a
      line as `nl` says, whatever follows it. */
  ghost predicate Shows(r: string, st: Place, out: string, nl: bool) {
    forall more: string ::
      Show(r + more, st) == out + Show(more, PlaceOf(nl)) && PlaceAfter(r + more, st) == PlaceAfter(more, PlaceOf(nl))
  }

  /** Stretches may be flushed together or one after the other. */
  lemma ShowsTogether(a: string, b: string, st: Place, out: string, nl: bool, out': string, nl': bool)
    requires Shows(a, st, out, nl) && Shows(b, PlaceOf(nl), out', nl')
    ensures Shows(a + b, st, out + out', nl')
  {
    hide Show, PlaceAfter;
    forall more: string
      ensures Show((a + b) + more, st) == (out + out') + Show(more, PlaceOf(nl'))
        && PlaceAfter((a + b) + more, st) == PlaceAfter(more, PlaceOf(nl'))
    {
      Assoc(a, b, more);
      assert Show(a + (b + more), st) == out + Show(b + more, PlaceOf(nl));
      assert Show(b + more, PlaceOf(nl)) == out' + Show(more, PlaceOf(nl'));
      Assoc(out, out', Show(more, PlaceOf(nl')));
    }
  }

  lemma ShowsNothing(st: Place, nl: bool)
    requires st == PlaceOf(nl)
    ensures Shows("", st, "", nl)
  {
    hide Show, PlaceAfter;
    forall more: string
      ensures Show("" + more, st) == "" + Show(more, PlaceOf(nl)) && PlaceAfter("" + more, st) == PlaceAfter(more, PlaceOf(nl))
    {
      assert "" + more == more;
      assert "" + Show(more, st) == Show(more, st);
    }
  }

  lemma ShowsAll(r: string, st: Place, out: string, nl: bool)
    requires Shows(r, st, out, nl)
    ensures Show(r, st) == out && PlaceAfter(r, st) == PlaceOf(nl)
  {
    assert r + "" == r;
    assert Show(r + "", st) == out + Show("", PlaceOf(nl));
    assert out + "" == out;
  }

  /** The flush of a message with a short tag gives what is to be shown. */
  lemma ShowMessage(text: string, stamps: seq<string>, nl: bool)
    requires |stamps| == |Parse(text).body| && Stamps(stamps) && ShortTag(text)
    ensures Shows(Logged(text, stamps, nl), PlaceOf(nl), Shown(text, stamps, nl), NewLineAfter(text, nl))
  {
    ShortTagRecognised(text);
    var m := Parse(text);
    hide Show, PlaceAfter, Lines, LineStartAfter, Recognised, Parse, ShortTag;
    var rest, out := Lines(m.body, 0, m.tag, stamps, nl || m.newLine), Lines(m.body, 0, "", stamps, nl || m.newLine);
    var after := PlaceOf(NewLineAfter(text, nl));
    assert m.body[0..] == m.body;
    forall more: string
      ensures Show(Logged(text, stamps, nl) + more, PlaceOf(nl)) == Shown(text, stamps, nl) + Show(more, after)
        && PlaceAfter(Logged(text, stamps, nl) + more, PlaceOf(nl)) == PlaceAfter(more, after)
    {
      ShowLines(m.body, 0, m.tag, stamps, nl || m.newLine, more);
      if Breaks(text, nl) {
        ShowOne('\n', rest + more, Tagged);
        Assoc("\n", rest, more);
        Assoc("\n", out, Show(more, after));
      } else {
        assert "" + rest == rest && "" + out == out;
      }
    }
  }

  function NewLineAfter(text: string, nl: bool): bool {
    LineStartAfter(Parse(text).body, nl || Parse(text).newLine)
  }

  /** Taking out the tags shortens the text, unless there is no line at all. */
  lemma {:induction false} TagsTakeRoom(body: string, i: nat, tag: string, stamps: seq<string>, nl: bool)
    requires i <= |body| == |stamps|
    ensures |Lines(body, i, "", stamps, nl)| <= |Lines(body, i, tag, stamps, nl)|
    ensures nl && i < |body| && tag != "" ==> |Lines(body, i, "", stamps, nl)| < |Lines(body, i, tag, stamps, nl)|
    decreases |body| - i
  {
    if i == |body| {
    } else {
      TagsTakeRoom(body, i + 1, tag, stamps, body[i] == '\n');
    }
  }

  /** The flush of a message gives what is to be shown exactly if the message's own prefix is at
      most five characters long, or there is no text behind it. */
  lemma ShownIff(text: string, stamps: seq<string>, nl: bool)
    requires |stamps| == |Parse(text).body| && Stamps(stamps)
    ensures Show(Logged(text, stamps, nl), PlaceOf(nl)) == Shown(text, stamps, nl)
      <==> ShortTag(text) || Parse(text).body == ""
  {
    var m := Parse(text);
    if ShortTag(text) {
      ShowMessage(text, stamps, nl);
      ShowsAll(Logged(text, stamps, nl), PlaceOf(nl), Shown(text, stamps, nl), NewLineAfter(text, nl));
    } else {
      LongTagOverlooked(text);
      assert m.newLine;
      hide Show, PlaceAfter, Lines, Parse, ShortTag, Overlooked;
      ShowLongLines(m.body, 0, m.tag, stamps, true);
      TagsTakeRoom(m.body, 0, m.tag, stamps, true);
      var rest := Lines(m.body, 0, m.tag, stamps, true);
      if Breaks(text, nl) {
        ShowOne('\n', rest, Tagged);
      } else {
        assert "" + rest == rest;
        assert "" + Lines(m.body, 0, "", stamps, true) == Lines(m.body, 0, "", stamps, true);
      }
      if m.body == "" {
        NoLines(m.tag);
      }
    }
  }

  lemma NoLines(tag: string)
    ensures Lines("", 0, tag, [], true) == ""
  {
  }

  lemma {:induction false} LinesLength(body: string, i: nat, tag: string, stamps: seq<string>, nl: bool)
    requires i <= |body| == |stamps| && Stamps(stamps) && |tag| <= SYSLOG_PRI_MAX_LENGTH
    ensures |Lines(body, i, tag, stamps, nl)| <= 56 * (|body| - i)
    decreases |body| - i
  {
    if i == |body| {
    } else {
      LinesLength(body, i + 1, tag, stamps, body[i] == '\n');
      assert IsStamp(stamps[i]);
    }
  }

  /** What one message of at most 1023 characters adds is far shorter than the ring. */
  lemma MessageFits(text: string, stamps: seq<string>, nl: bool)
    requires |stamps| == |Parse(text).body| && Stamps(stamps) && ShortTag(text) && |text| < 1024
    ensures |Logged(text, stamps, nl)| < N
  {
    var m := Parse(text);
    LinesLength(m.body, 0, m.tag, stamps, nl || m.newLine);
  }

  // The ring

  /** The ring `b` holds the last characters of the history, each at its index modulo N. */
  ghost predicate Holds(b: seq<char>, h: string) {
    |b| == N && forall k :: 0 <= k < |h| && |h| <= k + N ==> b[Slot(k)] == h[k]
  }

  /** 32-bit arithmetic, and the slot of an index. */
  function W(x: nat): (w: nat)
    ensures w < U32
  {
    x % U32
  }

  function Sub(a: nat, b: nat): (w: nat)
    ensures w < U32
  {
    (a - b) % U32
  }

  function Slot(x: nat): (i: nat)
    ensures i < N
  {
    x % N
  }

  function Max(a: int, b: int): int {
    if a < b then b else a
  }

  lemma SlotsDiffer(k: nat, n: nat)
    requires k < n < k + N
    ensures Slot(k) != Slot(n)
  {
  }

  lemma IndexSlot(x: nat)
    ensures Slot(W(x)) == Slot(x)
  {
  }

  /** Wrapping subtraction of two wrapped indices gives their true distance. */
  lemma Distance(a: nat, b: nat)
    requires a <= b < a + U32
    ensures Sub(W(b), W(a)) == b - a
    ensures W(a) == W(b) <==> a == b
  {
  }

  lemma WrapAdd(a: nat, i: nat)
    ensures W(W(a) + i) == W(a + i)
  {
  }

  lemma WrapSub(a: nat)
    requires N <= a
    ensures Sub(W(a), N) == W(a - N)
  {
  }

  lemma EmitHolds(b: seq<char>, h: string, c: char)
    requires Holds(b, h)
    ensures Holds(b[Slot(|h|) := c], h + [c])
  {
    var b', h' := b[Slot(|h|) := c], h + [c];
    forall k | 0 <= k < |h'| && |h'| <= k + N
      ensures b'[Slot(k)] == h'[k]
    {
      if k < |h| {
        SlotsDiffer(k, |h|);
        assert b[Slot(k)] == h[k];
      }
    }
  }

  /** The characters from slot `a` on, as they lie in the ring, `beyond` being the memory behind
      it. */
  function Piece(b: seq<char>, beyond: seq<char>, a: nat, n: nat): string
    requires a <= |b| && a + n <= |b| + |beyond|
  {
    (b + beyond)[a..a + n]
  }

  lemma SlotAt(s: nat, k: nat)
    requires Slot(s) + k < N
    ensures Slot(s + k) == Slot(s) + k
  {
  }

  lemma PieceIs(b: seq<char>, beyond: seq<char>, h: string, s: nat, e: nat)
    requires Holds(b, h) && s <= e <= |h| <= s + N && |beyond| == N
    requires Slot(s) + (e - s) <= N
    ensures Piece(b, beyond, Slot(s), e - s) == h[s..e]
  {
    var x := Piece(b, beyond, Slot(s), e - s);
    forall k: nat | k < e - s
      ensures x[k] == h[s..e][k]
    {
      SlotAt(s, k);
      assert b[Slot(s + k)] == h[s + k];
    }
  }

  /** Where a stretch goes round the end of the ring. */
  lemma RoundTheEnd(s: nat, e: nat)
    requires s <= e <= s + N
    ensures Slot(s) > Slot(e) ==> e - s < N && Slot(s) + (e - s) == N + Slot(e)
    ensures Slot(s) < Slot(e) ==> Slot(s) + (e - s) == Slot(e)
    ensures Slot(s) == Slot(e) ==> e == s || e == s + N
  {
  }

  // One line of a flush

  lemma ShowStrip(r: string)
    requires r != ""
    ensures var st := if Strip(r) > 0 then Tagged else Bare;
      Show(r, Start) == Show(r[Strip(r)..], st) && PlaceAfter(r, Start) == PlaceAfter(r[Strip(r)..], st)
  {
    assert r[0..] == r;
  }

  /** A line up to its end, inside a stretch h[a..e]. */
  lemma ShowToNewline(h: string, a: nat, b: nat, e: nat, st: Place)
    requires a < b <= e <= |h| && !st.Start? && '\n' !in h[a..b - 1] && h[b - 1] == '\n'
    ensures Show(h[a..e], st) == h[a..b] + Show(h[b..e], Start)
    ensures PlaceAfter(h[a..e], st) == PlaceAfter(h[b..e], Start)
  {
    hide Show, PlaceAfter;
    var x, rest := h[a..b - 1], h[b..e];
    ShowPlain(x, ['\n'] + rest, st);
    ShowOne('\n', rest, st);
    assert h[a..e] == x + (['\n'] + rest);
    assert h[a..b] == x + ['\n'];
    Assoc(x, ['\n'], Show(rest, Start));
  }

  /** A last line without an end. */
  lemma ShowToEnd(h: string, a: nat, e: nat, st: Place)
    requires a <= e <= |h| && !st.Start? && '\n' !in h[a..e]
    ensures Show(h[a..e], st) == h[a..e] && PlaceAfter(h[a..e], st) == st
  {
    ShowPlain(h[a..e], "", st);
    assert h[a..e] + "" == h[a..e];
  }

  lemma Slices(h: string, a: nat, b: nat, e: nat)
    requires a <= b <= e <= |h|
    ensures h[a..e] == h[a..b] + h[b..e]
  {
  }

  lemma HoldsAt(b: seq<char>, h: string, k: nat)
    requires Holds(b, h) && k < |h| <= k + N
    ensures b[Slot(k)] == h[k]
  {
  }

  lemma WholeTurns(s: nat)
    ensures Slot(s + (N - Slot(s))) == 0
  {
  }

  lemma PieceBeyond(b: seq<char>, beyond: string, a: nat)
    requires |b| == |beyond| == N && a < N
    ensures Piece(b, beyond, a, N) == b[a..] + beyond[..a]
  {
  }

  /** What is stripped depends only on the first five characters. */
  lemma StripIs(h: string, a: nat, e: nat)
    requires a + 2 < e <= |h|
    ensures var x := LogPrefix(h[a..if e - a < SYSLOG_PRI_MAX_LENGTH then e else a + SYSLOG_PRI_MAX_LENGTH], false);
      && Strip(h[a..e]) == PrefixLen(x) && !x.Special? && (x.Level? ==> 0 <= x.level)
      && (PrefixLen(x) > 0 <==> x.Level?)
      && h[a..e][PrefixLen(x)..] == h[a + PrefixLen(x)..e]
  {
    if SYSLOG_PRI_MAX_LENGTH <= e - a {
      assert h[a..e][..SYSLOG_PRI_MAX_LENGTH] == h[a..a + SYSLOG_PRI_MAX_LENGTH];
    }
  }

  lemma NoStrip(r: string)
    requires |r| <= 2
    ensures Strip(r) == 0
  {
  }

  lemma Unsent(console: string, h: string, a: nat, rest: string)
    requires a <= |h|
    ensures console + h[a..a] + rest == console + rest
  {
    assert console + h[a..a] == console;
  }

  lemma ShowNothing(h: string, e: nat, st: Place)
    requires e <= |h|
    ensures Show(h[e..e], st) == "" && PlaceAfter(h[e..e], st) == st
  {
  }

  lemma LinesEnd(body: string, tag: string, stamps: seq<string>, nl: bool)
    requires |stamps| == |body|
    ensures Lines(body, |body|, tag, stamps, nl) == ""
  {
  }

  lemma ParseIs(text: string)
    ensures var x := LogPrefix(text, true);
      && PrefixLen(x) <= |text| && Parse(text).body == text[PrefixLen(x)..]
      && Parse(text).tag == (if x.Level? then text[..x.len] else "<4>")
      && Parse(text).newLine == (x.Level? || (x.Special? && x.which != 'c'))
  {
    var x := LogPrefix(text, true);
    assert x.NoPrefix? ==> text[0..] == text;
    assert x.Special? ==> x.which == 'c' || x.which == 'd';
  }

  lemma LoggedIs(h: string, text: string, stamps: seq<string>, nl: bool)
    requires |stamps| == |Parse(text).body|
    ensures var m := Parse(text); var lines := Lines(m.body, 0, m.tag, stamps, nl || m.newLine);
      && (m.newLine && !nl ==> h + "\n" + lines == h + Logged(text, stamps, nl))
      && (!(m.newLine && !nl) ==> h + lines == h + Logged(text, stamps, nl))
  {
    var m := Parse(text);
    hide Parse, Lines;
    var lines := Lines(m.body, 0, m.tag, stamps, nl || m.newLine);
    Assoc(h, "\n", lines);
    assert "" + lines == lines;
  }

  class Log {
    const buf: array<char>
    /** The memory behind the ring. */
    const beyond: string

    var logStart: nat
    var conStart: nat
    var logEnd: nat
    var loggedChars: nat
    var newTextLine: bool
    var msgLevel: int
    /** Everything sent to the serial line. */
    var console: string

    /** Every character ever logged. */
    ghost var history: string
    /** How much of it has been given to the console flush, or lost to it. */
    ghost var sent: nat
    /** What the rest is to show. */
    ghost var due: string

    /** The ring holds the last min(|history|, N) characters, and the 32-bit indices are the true
        ones modulo 2^32. */
    ghost predicate Valid()
      reads this, buf
    {
      && buf.Length == N == |beyond| && Holds(buf[..], history)
      && sent <= |history| <= sent + N
      && logEnd == W(|history|) && conStart == W(sent)
      && logStart == W(Max(0, |history| - N))
      && loggedChars == if |history| < N then |history| else N
    }

    /** The part of the log that has not been flushed yet will show `due` and then stand where the log
        stands. */
    ghost predicate InStep()
      reads this
    {
      sent <= |history| && Shows(history[sent..], Stands(), due, newTextLine)
    }

    constructor (behind: string)
      requires |behind| == N
      ensures Valid() && InStep() && fresh(buf) && history == "" && console == "" && due == "" && newTextLine
    {
      hide Shows, Show, PlaceAfter;
      buf := new char[N](_ => '\0');
      beyond := behind;
      logStart, conStart, logEnd, loggedChars := 0, 0, 0, 0;
      newTextLine, msgLevel, console := true, -1, "";
      history, sent, due := "", 0, "";
      new;
      ShowsNothing(Start, true);
      assert history[sent..] == "";
    }

    method EmitLogChar(c: char)
      requires Valid()
      modifies `logStart, `conStart, `logEnd, `loggedChars, `history, `sent, buf
      ensures Valid()
      ensures history == old(history) + [c] && sent == Max(old(sent), |history| - N)
    {
      hide W, Sub, Slot, Holds;
      IndexSlot(|history|);
      EmitHolds(buf[..], history, c);
      buf[Slot(logEnd)] := c;
      assert buf[..] == old(buf[..])[Slot(|history|) := c];
      WrapAdd(|history|, 1);
      logEnd := W(logEnd + 1);
      ghost var n := |history| + 1;
      Distance(Max(0, n - 1 - N), n);
      if Sub(logEnd, logStart) > N {
        WrapSub(n);
        logStart := Sub(logEnd, N);
      }
      Distance(sent, n);
      if Sub(logEnd, conStart) > N {
        WrapSub(n);
        conStart := Sub(logEnd, N);
        sent := n - N;
      }
      if loggedChars < N {
        loggedChars := loggedChars + 1;
      }
      history := history + [c];
    }

    method EmitAll(t: string)
      requires Valid()
      modifies `logStart, `conStart, `logEnd, `loggedChars, `history, `sent, buf
      ensures Valid()
      ensures history == old(history) + t && sent == Max(old(sent), |history| - N)
    {
      hide W, Sub, Slot, Holds;
      var i := 0;
      while i < |t|
        invariant 0 <= i <= |t|
        invariant Valid() && history == old(history) + t[..i] && sent == Max(old(sent), |history| - N)
      {
        EmitLogChar(t[i]);
        assert t[..i + 1] == t[..i] + [t[i]];
        i := i + 1;
      }
      assert t[..i] == t;
    }

    /** _call_console_drivers: sends the characters between two indices, in two pieces if they go
        round the end of the ring; `s` and `e` are the true indices. */
    method SendPieces(start: nat, end: nat, ghost s: nat, ghost e: nat)
      requires Valid() && s <= e <= |history| <= s + N && start == W(s) && end == W(e)
      modifies `console
      ensures e - s < N || Slot(s) == 0 ==> console == old(console) + history[s..e]
      ensures e - s == N && Slot(s) != 0 ==> console == old(console) + (buf[Slot(s)..] + beyond[..Slot(s)])
    {
      hide W, Sub, Slot, Holds;
      IndexSlot(s);
      IndexSlot(e);
      RoundTheEnd(s, e);
      Distance(s, e);
      if start != end {
        if Slot(start) > Slot(end) {
          ghost var m := s + (N - Slot(s));
          WholeTurns(s);
          PieceIs(buf[..], beyond, history, s, m);
          PieceIs(buf[..], beyond, history, m, e);
          console := console + Piece(buf[..], beyond, Slot(start), N - Slot(start));
          console := console + Piece(buf[..], beyond, 0, Slot(end));
          Slices(history, s, m, e);
          Assoc(old(console), history[s..m], history[m..e]);
        } else {
          if Slot(s) + (e - s) <= N {
            PieceIs(buf[..], beyond, history, s, e);
          } else {
            PieceBeyond(buf[..], beyond, Slot(s));
          }
          console := console + Piece(buf[..], beyond, Slot(start), Sub(end, start));
        }
      } else {
        assert s == e;
        assert console + history[s..e] == console;
      }
    }

    /** The first characters of a line, as a string of their own. */
    method ReadStart(cur: nat, end: nat, ghost a: nat, ghost e: nat) returns (p: string)
      requires Valid() && a <= e <= |history| <= a + N && cur == W(a) && end == W(e)
      ensures p == history[a..if e - a < SYSLOG_PRI_MAX_LENGTH then e else a + SYSLOG_PRI_MAX_LENGTH]
    {
      hide W, Sub, Slot, Holds;
      Distance(a, e);
      p := "";
      var i := 0;
      while i < Sub(end, cur) && i < SYSLOG_PRI_MAX_LENGTH
        invariant 0 <= i <= e - a && i <= SYSLOG_PRI_MAX_LENGTH && p == history[a..a + i]
      {
        WrapAdd(a, i);
        IndexSlot(a + i);
        HoldsAt(buf[..], history, a + i);
        p := p + [buf[Slot(W(cur + i))]];
        i := i + 1;
      }
    }

    /** The rest of a line: it is sent as soon as its end is found, and otherwise left to be sent
        by the caller. */
    method SendLine(cur0: nat, startPrint0: nat, end: nat, ghost p: nat, ghost a: nat, ghost e: nat)
      returns (cur: nat, startPrint: nat, ghost b: nat)
      requires Valid() && p <= a <= e <= |history| <= p + N
      requires cur0 == W(a) && startPrint0 == W(p) && end == W(e)
      modifies `console, `msgLevel
      ensures a <= b <= e && cur == W(b) && (a < e ==> a < b)
      ensures a < b && history[b - 1] == '\n' ==>
        && '\n' !in history[a..b - 1] && msgLevel == -1
        && (b - p < N ==> console == old(console) + history[p..b]) && startPrint == cur
      ensures !(a < b && history[b - 1] == '\n') ==>
        b == e && '\n' !in history[a..e] && msgLevel == old(msgLevel) && console == old(console) && startPrint == startPrint0
    {
      hide W, Sub, Slot, Holds;
      cur, startPrint, b := cur0, startPrint0, a;
      while cur != end
        invariant a <= b <= e && cur == W(b) && startPrint == startPrint0
        invariant '\n' !in history[a..b] && msgLevel == old(msgLevel) && console == old(console)
        decreases e - b
      {
        Distance(b, e);
        IndexSlot(b);
        HoldsAt(buf[..], history, b);
        WrapAdd(b, 1);
        var c := buf[Slot(cur)];
        cur := W(cur + 1);
        b := b + 1;
        assert c == history[b - 1];
        Slices(history, a, b - 1, b);
        if c == '\n' {
          if msgLevel < 0 {
            msgLevel := 4;
          }
          SendPieces(startPrint, cur, p, b);
          msgLevel := -1;
          startPrint := cur;
          return;
        }
      }
      Distance(b, e);
    }

    /** Where the flush stands between two calls. */
    ghost function Stands(): Place
      reads `msgLevel
    {
      if msgLevel < 0 then Start else Tagged
    }

    /** At a line start: the tag, if one can be recognised there, is skipped and gives the line's
        level. */
    method TakeTag(cur0: nat, end: nat, ghost a: nat, ghost e: nat) returns (cur: nat, ghost b: nat)
      requires Valid() && a < e <= |history| <= a + N && cur0 == W(a) && end == W(e)
      modifies `msgLevel
      ensures a <= b <= e && cur == W(b)
      ensures var st := if msgLevel < 0 then Bare else Tagged;
        && Show(history[a..e], old(Stands())) == Show(history[b..e], st)
        && PlaceAfter(history[a..e], old(Stands())) == PlaceAfter(history[b..e], st)
    {
      hide W, Sub, Slot, Holds, Show, PlaceAfter, Strip, LogPrefix;
      Distance(a, e);
      cur, b := cur0, a;
      if msgLevel < 0 {
        ShowStrip(history[a..e]);
        if Sub(end, cur) > 2 {
          var head := ReadStart(cur, end, a, e);
          StripIs(history, a, e);
          var x := LogPrefix(head, false);
          WrapAdd(a, PrefixLen(x));
          cur := W(cur + PrefixLen(x));
          b := a + PrefixLen(x);
          if x.Level? {
            msgLevel := x.level;
          }
        } else {
          NoStrip(history[a..e]);
          assert history[a..e][0..] == history[a..e];
        }
      }
    }

    /** call_console_drivers: sends a stretch of the log shorter than the ring without the tags at
        its line starts. */
    method CallConsoleDrivers(start: nat, end: nat, ghost s: nat, ghost e: nat)
      requires Valid() && s <= e == |history| <= s + N && start == W(s) && end == W(e)
      modifies `console, `msgLevel
      ensures e - s < N ==> console == old(console) + Show(history[s..e], old(Stands()))
      ensures e - s < N ==> (msgLevel < 0 <==> !PlaceAfter(history[s..e], old(Stands())).Tagged?)
    {
      hide W, Sub, Slot, Holds, Show, PlaceAfter, Strip, LogPrefix;
      var cur, startPrint := start, start;
      ghost var a, p := s, s;
      ghost var whole, at := Show(history[s..e], Stands()), PlaceAfter(history[s..e], Stands());
      Unsent(console, history, s, whole);
      while cur != end
        invariant s <= p <= a <= e && cur == W(a) && startPrint == W(p) && (a < e ==> p == a)
        invariant e - s < N ==> console + history[p..a] + Show(history[a..e], Stands()) == old(console) + whole
        invariant e - s < N ==> PlaceAfter(history[a..e], Stands()).Tagged? == at.Tagged?
        decreases e - a
      {
        Distance(a, e);
        ghost var sent0, rest := console, Show(history[a..e], Stands());
        Unsent(console, history, a, rest);
        cur, p := TakeTag(cur, end, a, e);
        startPrint := cur;
        ghost var st := if msgLevel < 0 then Bare else Tagged;
        ghost var b;
        cur, startPrint, b := SendLine(cur, startPrint, end, p, p, e);
        if p < b && history[b - 1] == '\n' {
          ShowToNewline(history, p, b, e, st);
          Assoc(sent0, history[p..b], Show(history[b..e], Start));
          p := b;
          Unsent(console, history, b, Show(history[b..e], Start));
        } else {
          ShowToEnd(history, p, e, st);
          ShowNothing(history, e, Stands());
          assert sent0 + history[p..e] + "" == sent0 + history[p..e];
        }
        a := b;
      }
      Distance(a, e);
      ShowNothing(history, e, Stands());
      SendPieces(startPrint, end, p, e);
      assert old(console) + whole + "" == old(console) + whole;
    }

    /** console_unlock: flushes what has been logged since the last time. */
    method ConsoleUnlock()
      requires Valid()
      modifies `console, `msgLevel, `conStart, `sent
      ensures Valid() && sent == |history|
      ensures var r := history[old(sent)..]; |r| < N ==>
        console == old(console) + Show(r, old(Stands())) && (msgLevel < 0 <==> !PlaceAfter(r, old(Stands())).Tagged?)
    {
      hide W, Sub, Slot, Holds, Show, PlaceAfter;
      ghost var s0, r := sent, history[sent..];
      assert history[s0..|history|] == r;
      ShowNothing(history, |history|, Stands());
      assert console + "" == console;
      while conStart != logEnd
        invariant Valid() && s0 <= sent && (sent == s0 || sent == |history|)
        invariant sent == s0 ==> console == old(console) && msgLevel == old(msgLevel)
        invariant s0 < sent && |r| < N ==>
          console == old(console) + Show(r, old(Stands())) && (msgLevel < 0 <==> !PlaceAfter(r, old(Stands())).Tagged?)
        decreases |history| - sent
      {
        Distance(sent, |history|);
        ghost var s := sent;
        var start, end := conStart, logEnd;
        conStart := logEnd;
        sent := |history|;
        CallConsoleDrivers(start, end, s, |history|);
      }
      Distance(sent, |history|);
      if s0 == |history| {
        assert r == history[|history|..|history|];
      }
    }

    /** The copy loop of vprintk: every line gets the tag and the time stamp in front. */
    method CopyBody(body: string, tag: string, stamps: seq<string>) returns (extra: nat)
      requires Valid() && |stamps| == |body|
      modifies `logStart, `conStart, `logEnd, `loggedChars, `history, `sent, `newTextLine, buf
      ensures Valid()
      ensures history == old(history) + Lines(body, 0, tag, stamps, old(newTextLine))
      ensures sent == Max(old(sent), |history| - N)
      ensures newTextLine == LineStartAfter(body, old(newTextLine))
      ensures extra == |history| - |old(history)| - |body|
    {
      hide W, Sub, Slot, Holds, Lines;
      extra := 0;
      var i := 0;
      ghost var whole := old(history) + Lines(body, 0, tag, stamps, old(newTextLine));
      while i < |body|
        invariant 0 <= i <= |body| && Valid() && sent == Max(old(sent), |history| - N)
        invariant history + Lines(body, i, tag, stamps, newTextLine) == whole
        invariant newTextLine == LineStartAfter(body[..i], old(newTextLine))
        invariant extra == |history| - |old(history)| - i
      {
        ghost var h := history;
        ghost var rest := [body[i]] + Lines(body, i + 1, tag, stamps, body[i] == '\n');
        LinesStep(body, i, tag, stamps, newTextLine);
        if newTextLine {
          newTextLine := false;
          EmitAll(tag);
          extra := extra + |tag|;
          EmitAll(stamps[i]);
          extra := extra + |stamps[i]|;
          Assoc(h, tag, stamps[i] + rest);
          Assoc(h + tag, stamps[i], rest);
        }
        assert history + rest == whole;
        Assoc(history, [body[i]], Lines(body, i + 1, tag, stamps, body[i] == '\n'));
        EmitLogChar(body[i]);
        newTextLine := body[i] == '\n';
        assert body[..i + 1] == body[..i] + [body[i]];
        i := i + 1;
      }
      LinesEnd(body, tag, stamps, newTextLine);
      assert body[..i] == body;
      assert history + "" == history;
    }

    /** The first part of vprintk, from the formatted text on: the log grows by the message, every line
        of it tagged and stamped. */
    method LogMessage(text: string, stamps: seq<string>) returns (printed: nat)
      requires Valid() && |stamps| == |Parse(text).body|
      modifies `logStart, `conStart, `logEnd, `loggedChars, `history, `sent, `newTextLine, buf
      ensures printed == |text| + |Lines(Parse(text).body, 0, Parse(text).tag, stamps, old(newTextLine) || Parse(text).newLine)|
        - |Parse(text).body|
      ensures Valid() && history == old(history) + Logged(text, stamps, old(newTextLine))
      ensures newTextLine == NewLineAfter(text, old(newTextLine)) && sent == Max(old(sent), |history| - N)
    {
      hide W, Sub, Slot, Holds, Lines, Logged, Parse, NewLineAfter, LogPrefix;
      printed := |text|;
      ghost var nl, h0 := newTextLine, history;
      var x := LogPrefix(text, true);
      ParseIs(text);
      if x.Level? || (x.Special? && x.which != 'c') {
        if !newTextLine {
          EmitLogChar('\n');
          newTextLine := true;
        }
      }
      var tag := if x.Level? then text[..x.len] else "<4>";
      var extra := CopyBody(text[PrefixLen(x)..], tag, stamps);
      printed := printed + extra;
      LoggedIs(h0, text, stamps, nl);
      NewLineIs(text, nl);
    }

    /** vprintk; `lock` says whether it gets the console. */
    method Vprintk(text: string, stamps: seq<string>, lock: bool) returns (printed: nat)
      requires Valid() && |text| < 1024 && |stamps| == |Parse(text).body| && Stamps(stamps)
      modifies this, buf
      ensures printed == |text| + |Lines(Parse(text).body, 0, Parse(text).tag, stamps, old(newTextLine) || Parse(text).newLine)|
        - |Parse(text).body|
      ensures Valid() && history == old(history) + Logged(text, stamps, old(newTextLine))
      ensures newTextLine == NewLineAfter(text, old(newTextLine))
      // All that is in the ring is flushed, if the console can be had.
      ensures lock ==> sent == |history|
      ensures !lock ==> console == old(console) && sent == Max(old(sent), |history| - N)
      ensures lock && |history| - old(sent) < N ==>
        console == old(console) + Show(old(history)[old(sent)..] + Logged(text, stamps, old(newTextLine)), old(Stands()))
      // The console gets the same characters in the same order, without the tags, now or later.
      ensures old(InStep()) && ShortTag(text) && |history| - old(sent) < N ==>
        && InStep() && due == (if lock then "" else old(due) + Shown(text, stamps, old(newTextLine)))
        && (lock ==> console == old(console) + (old(due) + Shown(text, stamps, old(newTextLine))))
    {
      hide W, Sub, Slot, Holds, Lines, Show, Shown, Logged, Parse, ShortTag, PlaceAfter, NewLineAfter, Stamps, Shows, Max;
      ghost var nl, h0, s0, st := newTextLine, history, sent, Stands();
      ghost var good := InStep() && ShortTag(text);
      printed := LogMessage(text, stamps);
      ghost var added := Logged(text, stamps, nl);
      StretchGrows(h0, added, s0);
      ghost var out := due + Shown(text, stamps, nl);
      if good {
        ShowMessage(text, stamps, nl);
        ShowsTogether(h0[s0..], added, st, due, nl, Shown(text, stamps, nl), NewLineAfter(text, nl));
        ShowsAll(history[s0..], st, out, newTextLine);
      }
      due := out;
      StillUnsent(s0, |history|, sent);
      if lock {
        ConsoleUnlock();
        due := "";
        assert history[sent..] == "";
        if good && |history| - s0 < N {
          ShowsNothing(Stands(), newTextLine);
        }
      }
    }
  }

  lemma StretchGrows(h: string, added: string, s: nat)
    requires s <= |h|
    ensures (h + added)[s..] == h[s..] + added
  {
  }

  lemma StillUnsent(s: nat, n: nat, sent: nat)
    requires s <= n && sent == Max(s, n - N)
    ensures s <= sent && (n - s < N ==> sent == s)
  {
  }

  lemma NewLineIs(text: string, nl: bool)
    ensures NewLineAfter(text, nl) == LineStartAfter(Parse(text).body, nl || Parse(text).newLine)
  {
  }

  // Whole runs

  /** A message, the time stamps its lines get, and whether the console can be had. */
  datatype Call = Call(text: string, stamps: seq<string>, lock: bool)

  ghost predicate GoodCall(c: Call) {
    |c.text| < 1024 && |c.stamps| == |Parse(c.text).body| && Stamps(c.stamps) && ShortTag(c.text)
  }

  ghost predicate GoodRun(run: seq<Call>) {
    forall j :: 0 <= j < |run| ==> GoodCall(run[j])
  }

  /** What a run of calls, from the i-th on, puts into the log; or, without the tags, what it is
      to show. */
  ghost function RunOutput(run: seq<Call>, i: nat, nl: bool, tags: bool): string
    requires i <= |run| && GoodRun(run)
    decreases |run| - i
  {
    if i == |run| then ""
    else
      assert GoodCall(run[i]);
      (if tags then Logged(run[i].text, run[i].stamps, nl) else Shown(run[i].text, run[i].stamps, nl))
      + RunOutput(run, i + 1, NewLineAfter(run[i].text, nl), tags)
  }

  /** The text that waits for the console never fills the ring. */
  ghost predicate KeepsUp(run: seq<Call>, i: nat, nl: bool, backlog: nat)
    requires i <= |run| && GoodRun(run)
    decreases |run| - i
  {
    i == |run| ||
    assert GoodCall(run[i]);
    var all := backlog + |Logged(run[i].text, run[i].stamps, nl)|;
    all < N && KeepsUp(run, i + 1, NewLineAfter(run[i].text, nl), if run[i].lock then 0 else all)
  }

  /** A run that always gets the console keeps up. */
  lemma {:induction false} LockedKeepsUp(run: seq<Call>, i: nat, nl: bool)
    requires i <= |run| && GoodRun(run) && forall j :: 0 <= j < |run| ==> run[j].lock
    ensures KeepsUp(run, i, nl, 0)
    decreases |run| - i
  {
    if i == |run| {
    } else {
      assert GoodCall(run[i]);
      MessageFits(run[i].text, run[i].stamps, nl);
      LockedKeepsUp(run, i + 1, NewLineAfter(run[i].text, nl));
    }
  }

  /** Over any run of calls, however often the ring and the indices wrap and whenever the console can
      be had, the console receives exactly what is logged, in order and once each, with only the tags
      taken out; `due` is what still waits. */
  method PrintRun(log: Log, run: seq<Call>)
    requires log.Valid() && log.InStep() && GoodRun(run)
    requires KeepsUp(run, 0, log.newTextLine, |log.history| - log.sent)
    modifies log, log.buf
    ensures log.Valid() && log.InStep()
    ensures log.history == old(log.history) + RunOutput(run, 0, old(log.newTextLine), true)
    ensures log.console + log.due == old(log.console) + old(log.due) + RunOutput(run, 0, old(log.newTextLine), false)
  {
    hide Holds, Logged, Shown, Parse, ShortTag, NewLineAfter, Shows, W, Slot, Sub;
    ghost var nl0 := log.newTextLine;
    ghost var wholeLog := log.history + RunOutput(run, 0, nl0, true);
    ghost var whole := log.console + log.due + RunOutput(run, 0, nl0, false);
    var i := 0;
    while i < |run|
      invariant 0 <= i <= |run| && log.Valid() && log.InStep()
      invariant KeepsUp(run, i, log.newTextLine, |log.history| - log.sent)
      invariant log.history + RunOutput(run, i, log.newTextLine, true) == wholeLog
      invariant log.console + log.due + RunOutput(run, i, log.newTextLine, false) == whole
    {
      assert GoodCall(run[i]);
      ghost var nl, h, c, d := log.newTextLine, log.history, log.console, log.due;
      ghost var shown := Shown(run[i].text, run[i].stamps, nl);
      var _ := log.Vprintk(run[i].text, run[i].stamps, run[i].lock);
      Assoc(h, Logged(run[i].text, run[i].stamps, nl), RunOutput(run, i + 1, log.newTextLine, true));
      Assoc(c + d, shown, RunOutput(run, i + 1, log.newTextLine, false));
      Assoc(c, d, shown);
      assert log.console + log.due == (c + d) + shown by {
        assert c + (d + shown) + "" == c + (d + shown);
      }
      i := i + 1;
    }
    assert log.history + "" == log.history && log.console + log.due + "" == log.console + log.due;
  }

  // Where the console goes wrong

  lemma LongTagParse()
    ensures LogPrefix("<00004>x", true).Level? && Parse("<00004>x") == Message("<00004>", "x", true)
  {
    var text := "<00004>x";
    assert text[6] == '>' && text[1] == text[2] == text[3] == text[4] == '0' && text[5] == '4';
    DigitsEndIs(text, 1, 6);
    hide DigitsEnd, LevelOf;
    assert text[..7] == "<00004>" && text[7..] == "x";
  }

  /** A prefix of seven characters: a valid one for vprintk, but it stays on the console. */
  lemma LongTagExample()
    ensures LogPrefix("<00004>x", true).Level? && Parse("<00004>x").body == "x"
    ensures Show(Logged("<00004>x", ["[0] "], true), Start) != Shown("<00004>x", ["[0] "], true)
  {
    LongTagParse();
    hide LogPrefix, Parse, Show, Logged, Shown;
    assert '\n' !in "[0] ";
    ShownIff("<00004>x", ["[0] "], true);
  }

  /** Sending the whole ring at once is right, whatever lies behind it in memory, exactly if it
      starts at the first slot. */
  lemma WholeRingIff(b: seq<char>, h: string, s: nat)
    requires Holds(b, h) && |h| == s + N
    ensures (forall beyond: string :: |beyond| == N ==> Piece(b, beyond, Slot(s), N) == h[s..]) <==> Slot(s) == 0
  {
    if Slot(s) == 0 {
      forall beyond: string | |beyond| == N
        ensures Piece(b, beyond, Slot(s), N) == h[s..]
      {
        PieceIs(b, beyond, h, s, s + N);
        assert h[s..s + N] == h[s..];
      }
    } else {
      var k := N - Slot(s);
      var wrong := if h[s + k] == 'a' then 'b' else 'a';
      var beyond := seq(N, (i: nat) => wrong);
      assert Piece(b, beyond, Slot(s), N)[k] == wrong != h[s..][k];
    }
  }
}
