/**
  The kernel timers: twenty slots holding a handler and the value the 32-bit tick counter is to
  reach, polled from the timer interrupt. Handlers run inside the poll and may themselves start,
  cancel and move timers.

  Every timer started gets a serial number and a fate in the model, so that one can say of a timer
  what happened to it although its slot may be used again.
 */
module KernelTimer {

  const U32: nat := 0x1_0000_0000
  const HALF: nat := 0x8000_0000
  const SLOTS: nat := 20
  const HZ: nat := 1000

  datatype Slot = Slot(handler: nat, elapsesAt: nat)

  /** What a handler, or any other code, does to the timers. */
  datatype Op = Start(handler: nat, delay: nat) | Cancel(h: nat) | Move(h: nat, delay: nat)

  predicate GoodOp(op: Op) {
    match op
    case Start(handler, delay) => handler != 0 && delay < U32
    case Cancel(h) => 1 <= h <= SLOTS
    case Move(h, delay) => 1 <= h <= SLOTS && delay < U32
  }

  /** What the handlers do: each call of a handler may do something else, so that the script is
      asked for the handler and the number of the call. */
  ghost predicate GoodScript(script: (nat, nat) -> seq<Op>) {
    forall x, c, i :: 0 <= i < |script(x, c)| ==> GoodOp(script(x, c)[i])
  }

  // Time

  /** A 32-bit value read as signed. */
  function Signed(x: nat): int {
    if x < HALF then x else x - U32
  }

  function W(x: int): (w: nat)
    ensures w < U32
  {
    x % U32
  }

  /** The test of the poll: the 32-bit difference, read as signed, is not positive. */
  predicate Elapsed(elapsesAt: nat, jiffies: nat) {
    Signed(W(elapsesAt - jiffies)) <= 0
  }

  /** The true tick at which a timer started at `now` elapses; a delay of 2^31 or more counts as
      negative. */
  function DueTick(now: nat, delay: nat): int {
    now + Signed(delay)
  }

  /** Close enough for the signed difference to be the true one. */
  predicate InRange(due: int, now: int) {
    due < now + HALF && now <= due + HALF
  }

  lemma WrappedDifference(a: int, b: int)
    ensures W(W(a) - W(b)) == W(a - b)
  {
  }

  lemma SignedResidue(d: int)
    requires 0 <= d + HALF && d < HALF
    ensures Signed(W(d)) == d
  {
  }

  /** The wrapping test is exact for a timer in range, however often the counter has wrapped. */
  lemma ElapsedIsExact(due: int, now: int)
    requires InRange(due, now)
    ensures Elapsed(W(due), W(now)) <==> due <= now
  {
    WrappedDifference(due, now);
    SignedResidue(due - now);
  }

  lemma DueWrapped(now: nat, delay: nat)
    requires delay < U32
    ensures W(W(now) + delay) == W(DueTick(now, delay))
  {
  }

  /** Once its time has come a timer is seen to have elapsed exactly up to 2^31 ticks later; from
      then on, until the counter has gone round, it is taken for one far in the future. */
  lemma LatePolls(due: int, now: int)
    requires due <= now < due + U32
    ensures Elapsed(W(due), W(now)) <==> now <= due + HALF
  {
    WrappedDifference(due, now);
    if now <= due + HALF {
      SignedResidue(due - now);
    } else {
      SignedResidue(due - now + U32);
      WholeTurn(due - now);
    }
  }

  lemma WholeTurn(d: int)
    ensures W(d + U32) == W(d)
  {
  }

  // Seconds

  /** The ticks among the first n at which the counter shows a multiple of HZ. */
  function Beats(n: nat): nat {
    if n == 0 then 0 else Beats(n - 1) + if W(n) % HZ == 0 then 1 else 0
  }

  lemma BeatArithmetic(n: nat)
    requires 0 < n
    ensures n / U32 * 4294968 + n % U32 / 1000
      == (n - 1) / U32 * 4294968 + (n - 1) % U32 / 1000 + if n % U32 % 1000 == 0 then 1 else 0
  {
    var q, r := (n - 1) / U32, (n - 1) % U32;
    assert n == q * U32 + (r + 1);
    if r + 1 == U32 {
      assert n / U32 == q + 1 && n % U32 == 0;
    } else {
      assert n / U32 == q && n % U32 == r + 1;
    }
  }

  lemma {:induction false} BeatsAre(n: nat)
    ensures Beats(n) == n / U32 * 4294968 + n % U32 / 1000
  {
    if n == 0 {
    } else {
      BeatsAre(n - 1);
      BeatArithmetic(n);
    }
  }

  /** The seconds are exact until the tick counter wraps; during its second turn only in the last 296
      ticks of each second; after that they are ahead for good. */
  lemma SecondsExactIff(n: nat)
    ensures Beats(n) >= n / 1000
    ensures Beats(n) == n / 1000 <==> n < U32 || (n < 2 * U32 && (n - U32) % 1000 >= 704)
  {
    BeatsAre(n);
    hide Beats;
    SecondsArithmetic(n / U32, n % U32);
    assert n == n / U32 * U32 + n % U32;
  }

  lemma SecondsArithmetic(q: nat, r: nat)
    requires r < U32
    ensures var n := q * U32 + r; var b := q * 4294968 + r / 1000;
      b >= n / 1000 && (b == n / 1000 <==> q == 0 || (q == 1 && r % 1000 >= 704))
  {
    assert q * U32 + r == 1000 * (q * 4294967 + r / 1000) + (296 * q + r % 1000);
  }

  // Fates

  /** What has become of a timer that was started. */
  datatype Fate = Pending(h: nat, due: int) | Fired(at: nat, due: int) | Cancelled

  /** The armed slots and the pending timers correspond one to one. */
  ghost predicate Matched(slots: seq<Slot>, serial: seq<nat>, fate: seq<Fate>) {
    && |slots| == |serial| == SLOTS
    && (forall h :: 0 <= h < SLOTS && slots[h].handler != 0 ==>
      serial[h] < |fate| && fate[serial[h]].Pending? && fate[serial[h]].h == h
      && slots[h].elapsesAt == W(fate[serial[h]].due))
    && (forall s :: 0 <= s < |fate| && fate[s].Pending? ==>
      fate[s].h < SLOTS && slots[fate[s].h].handler != 0 && serial[fate[s].h] == s)
  }

  /** The serial numbers of the handlers called, in order: those of the timers that have fired,
      each once, and none before its time. */
  ghost predicate Calls(fired: seq<nat>, fate: seq<Fate>) {
    && (forall i :: 0 <= i < |fired| ==> fired[i] < |fate| && fate[fired[i]].Fired?)
    && (forall i, j :: 0 <= i < j < |fired| ==> fired[i] != fired[j])
    && (forall s :: 0 <= s < |fate| && fate[s].Fired? ==> s in fired)
    && (forall s :: 0 <= s < |fate| && fate[s].Fired? && InRange(fate[s].due, fate[s].at) ==> fate[s].due <= fate[s].at)
  }

  lemma ArmKeeps(slots: seq<Slot>, serial: seq<nat>, fate: seq<Fate>, fired: seq<nat>, h: nat, x: Slot, due: int)
    requires Matched(slots, serial, fate) && Calls(fired, fate)
    requires h < SLOTS && slots[h].handler == 0 && x.handler != 0 && x.elapsesAt == W(due)
    ensures Matched(slots[h := x], serial[h := |fate|], fate + [Pending(h, due)]) && Calls(fired, fate + [Pending(h, due)])
  {
  }

  lemma MoveKeeps(slots: seq<Slot>, serial: seq<nat>, fate: seq<Fate>, fired: seq<nat>, h: nat, x: Slot, due: int)
    requires Matched(slots, serial, fate) && Calls(fired, fate)
    requires h < SLOTS && slots[h].handler != 0 && x.handler != 0 && x.elapsesAt == W(due)
    ensures serial[h] < |fate| && fate[serial[h]].Pending? && fate[serial[h]].h == h
    ensures Matched(slots[h := x], serial, fate[serial[h] := Pending(h, due)])
      && Calls(fired, fate[serial[h] := Pending(h, due)])
  {
  }

  lemma DisarmKeeps(slots: seq<Slot>, serial: seq<nat>, fate: seq<Fate>, h: nat, x: Slot, f: Fate)
    requires Matched(slots, serial, fate)
    requires h < SLOTS && slots[h].handler != 0 && x.handler == 0 && !f.Pending?
    ensures serial[h] < |fate| && fate[serial[h]].Pending? && fate[serial[h]].h == h
    ensures Matched(slots[h := x], serial, fate[serial[h] := f])
  {
  }

  lemma IdleKeeps(slots: seq<Slot>, serial: seq<nat>, fate: seq<Fate>, h: nat, x: Slot)
    requires Matched(slots, serial, fate) && h < SLOTS && slots[h].handler == 0 == x.handler
    ensures Matched(slots[h := x], serial, fate)
  {
  }

  lemma CancelCalls(fired: seq<nat>, fate: seq<Fate>, s: nat)
    requires Calls(fired, fate) && s < |fate| && fate[s].Pending?
    ensures Calls(fired, fate[s := Cancelled])
  {
  }

  lemma FireCalls(fired: seq<nat>, fate: seq<Fate>, s: nat, at: nat, due: int)
    requires Calls(fired, fate) && s < |fate| && fate[s].Pending? && (InRange(due, at) ==> due <= at)
    ensures Calls(fired + [s], fate[s := Fired(at, due)])
  {
    var fired', fate' := fired + [s], fate[s := Fired(at, due)];
    assert forall i :: 0 <= i < |fired| ==> fired'[i] == fired[i] && fired[i] != s;
    assert fired'[|fired|] == s;
    forall t | 0 <= t < |fate'| && fate'[t].Fired?
      ensures t in fired'
    {
      if t != s {
        assert t in fired;
      }
    }
  }

  /** Timers that nobody touched keep their fate, and so do all that are no longer pending. */
  ghost predicate Kept(was: seq<Fate>, fate: seq<Fate>, touched: set<nat>) {
    |was| <= |fate| && forall s :: 0 <= s < |was| && (s !in touched || !was[s].Pending?) ==> fate[s] == was[s]
  }

  lemma KeptTwice(a: seq<Fate>, b: seq<Fate>, c: seq<Fate>, t: set<nat>, u: set<nat>)
    requires Kept(a, b, t) && Kept(b, c, u) && t <= u
    ensures Kept(a, c, u)
  {
  }

  /** What a poll at tick `now` makes of an untouched timer. */
  predicate Judged(was: Fate, f: Fate, now: nat) {
    if !was.Pending? then f == was
    else if !InRange(was.due, now) then f == was || f == Fired(now, was.due)
    else f == if was.due <= now then Fired(now, was.due) else was
  }

  /** Slots below i have been polled. */
  ghost predicate PolledTo(was: seq<Fate>, fate: seq<Fate>, touched: set<nat>, now: nat, i: nat) {
    |was| <= |fate| && forall s :: 0 <= s < |was| && (s !in touched || !was[s].Pending?) ==>
      if was[s].Pending? && was[s].h < i then Judged(was[s], fate[s], now) else fate[s] == was[s]
  }

  lemma PolledKept(was: seq<Fate>, fate: seq<Fate>, next: seq<Fate>, t: set<nat>, u: set<nat>, now: nat, i: nat, fires: nat)
    requires PolledTo(was, fate, t, now, i) && t <= u && |fate| <= |next|
    requires fires < |fate| && fate[fires].Pending? && fate[fires].h == i
    requires forall s :: 0 <= s < |fate| && fate[s].Pending? && fate[s].h == i ==> s == fires
    requires InRange(fate[fires].due, now) ==> fate[fires].due <= now
    requires Kept(fate[fires := Fired(now, fate[fires].due)], next, u)
    ensures PolledTo(was, next, u, now, i + 1)
  {
    var mid := fate[fires := Fired(now, fate[fires].due)];
    forall s | 0 <= s < |was| && (s !in u || !was[s].Pending?)
      ensures if was[s].Pending? && was[s].h < i + 1 then Judged(was[s], next[s], now) else next[s] == was[s]
    {
      assert s == fires ==> !mid[s].Pending?;
      assert s !in u || !mid[s].Pending? ==> next[s] == mid[s];
    }
  }

  /** A slot at which nothing fires. */
  lemma PolledSkip(was: seq<Fate>, slots: seq<Slot>, serial: seq<nat>, fate: seq<Fate>, t: set<nat>, now: nat, i: nat)
    requires PolledTo(was, fate, t, now, i) && Matched(slots, serial, fate) && i < SLOTS
    requires slots[i].handler == 0 || !Elapsed(slots[i].elapsesAt, W(now))
    ensures PolledTo(was, fate, t, now, i + 1)
  {
    hide Elapsed, W;
    forall s | 0 <= s < |was| && (s !in t || !was[s].Pending?) && was[s].Pending? && was[s].h == i
      ensures Judged(was[s], fate[s], now)
    {
      assert fate[s] == was[s];
      if InRange(was[s].due, now) {
        ElapsedIsExact(was[s].due, now);
      }
    }
  }

  /** The one timer pending in an armed slot. */
  lemma PendingAt(slots: seq<Slot>, serial: seq<nat>, fate: seq<Fate>, h: nat, now: nat)
    requires Matched(slots, serial, fate) && h < SLOTS && slots[h].handler != 0 && Elapsed(slots[h].elapsesAt, W(now))
    ensures serial[h] < |fate| && fate[serial[h]].Pending? && fate[serial[h]].h == h
    ensures forall s :: 0 <= s < |fate| && fate[s].Pending? && fate[s].h == h ==> s == serial[h]
    ensures InRange(fate[serial[h]].due, now) ==> fate[serial[h]].due <= now
  {
    hide Elapsed, W;
    if InRange(fate[serial[h]].due, now) {
      ElapsedIsExact(fate[serial[h]].due, now);
    }
  }

  lemma AllPolled(was: seq<Fate>, fate: seq<Fate>, t: set<nat>, now: nat)
    requires PolledTo(was, fate, t, now, SLOTS)
    requires forall s :: 0 <= s < |was| && was[s].Pending? ==> was[s].h < SLOTS
    ensures forall s :: 0 <= s < |was| && (s !in t || !was[s].Pending?) ==> Judged(was[s], fate[s], now)
  {
  }

  lemma PolledNone(fate: seq<Fate>, t: set<nat>, now: nat)
    ensures PolledTo(fate, fate, t, now, 0)
  {
  }

  lemma NextTick(now: nat)
    ensures W(W(now) + 1) == W(now + 1)
  {
  }

  class Timers {
    var slots: seq<Slot>
    var jiffies: nat
    /** The seconds counted, of HZ ticks each. */
    var seconds: nat
    /** How many handlers have been called. */
    var calls: nat

    /** The true number of ticks. */
    ghost var now: nat
    /** The serial number of the timer each slot was last used for. */
    ghost var serial: seq<nat>
    /** The fate of every timer ever started, by serial number. */
    ghost var fate: seq<Fate>
    /** The timers whose handlers were called, in order. */
    ghost var fired: seq<nat>
    /** The timers that were cancelled or moved. */
    ghost var touched: set<nat>

    ghost predicate Valid()
      reads this
    {
      && Matched(slots, serial, fate) && Calls(fired, fate) && calls == |fired|
      && jiffies == W(now) && seconds == Beats(now)
    }

    constructor ()
      ensures Valid() && fate == [] && now == 0
    {
      slots, serial := seq(SLOTS, (h: nat) => Slot(0, 0)), seq(SLOTS, (h: nat) => 0);
      jiffies, now, seconds, calls := 0, 0, 0, 0;
      fate, fired, touched := [], [], {};
    }

    /** TimerStartKernelTimer: the handle of the new timer, or 0 if all slots are taken. */
    method StartTimer(handler: nat, delay: nat) returns (handle: nat)
      requires Valid() && handler != 0 && delay < U32
      modifies `slots, `serial, `fate
      ensures Valid() && handle <= SLOTS
      ensures handle == 0 ==> unchanged(this) && forall h :: 0 <= h < SLOTS ==> slots[h].handler != 0
      ensures handle != 0 ==> fate == old(fate) + [Pending(handle - 1, DueTick(now, delay))]
    {
      var h: nat := 0;
      while h < SLOTS && slots[h].handler != 0
        invariant h <= SLOTS
        invariant forall i :: 0 <= i < h ==> slots[i].handler != 0
      {
        h := h + 1;
      }
      if h == SLOTS {
        return 0;
      }
      DueWrapped(now, delay);
      ghost var due := DueTick(now, delay);
      var x := Slot(handler, W(jiffies + delay));
      ArmKeeps(slots, serial, fate, fired, h, x, due);
      hide Matched, Calls, W, DueTick;
      slots := slots[h := x];
      serial := serial[h := |fate|];
      fate := fate + [Pending(h, due)];
      handle := h + 1;
    }

    /** TimerCancelKernelTimer */
    method CancelTimer(handle: nat)
      requires Valid() && 1 <= handle <= SLOTS
      modifies `slots, `fate, `touched
      ensures Valid() && slots[handle - 1].handler == 0
      ensures Kept(old(fate), fate, touched) && |fate| == |old(fate)| && old(touched) <= touched
      ensures forall s :: 0 <= s < |fate| ==>
        fate[s] == if old(fate)[s].Pending? && old(fate)[s].h == handle - 1 then Cancelled else old(fate)[s]
    {
      var h := handle - 1;
      var x := slots[h].(handler := 0);
      if slots[h].handler != 0 {
        DisarmKeeps(slots, serial, fate, h, x, Cancelled);
        CancelCalls(fired, fate, serial[h]);
        fate := fate[serial[h] := Cancelled];
        touched := touched + {serial[h]};
      } else {
        IdleKeeps(slots, serial, fate, h, x);
      }
      slots := slots[h := x];
    }

    /** TimerUpdateKernelTimer */
    method MoveTimer(handle: nat, delay: nat)
      requires Valid() && 1 <= handle <= SLOTS && delay < U32
      modifies `slots, `fate, `touched
      ensures Valid()
      ensures Kept(old(fate), fate, touched) && |fate| == |old(fate)| && old(touched) <= touched
      ensures forall s :: 0 <= s < |fate| ==>
        fate[s] == if old(fate)[s].Pending? && old(fate)[s].h == handle - 1
          then Pending(handle - 1, DueTick(now, delay)) else old(fate)[s]
    {
      var h := handle - 1;
      DueWrapped(now, delay);
      ghost var due := DueTick(now, delay);
      var x := slots[h].(elapsesAt := W(jiffies + delay));
      if slots[h].handler != 0 {
        MoveKeeps(slots, serial, fate, fired, h, x, due);
        fate := fate[serial[h] := Pending(h, due)];
        touched := touched + {serial[h]};
      } else {
        IdleKeeps(slots, serial, fate, h, x);
      }
      slots := slots[h := x];
    }

    /** Any code that uses the timers, such as a handler. */
    method Perform(ops: seq<Op>)
      requires Valid() && forall i :: 0 <= i < |ops| ==> GoodOp(ops[i])
      modifies `slots, `serial, `fate, `touched
      ensures Valid() && Kept(old(fate), fate, touched) && old(touched) <= touched
    {
      hide Matched, Calls, W, DueTick;
      var i := 0;
      while i < |ops|
        invariant 0 <= i <= |ops| && Valid() && Kept(old(fate), fate, touched) && old(touched) <= touched
      {
        ghost var was, t := fate, touched;
        assert GoodOp(ops[i]);
        match ops[i] {
          case Start(handler, delay) =>
            var _ := StartTimer(handler, delay);
          case Cancel(h) =>
            CancelTimer(h);
          case Move(h, delay) =>
            MoveTimer(h, delay);
        }
        KeptTwice(old(fate), was, fate, t, touched);
        i := i + 1;
      }
    }

    /** TimerPollKernelTimers; `script` says what each handler does. */
    method Poll(script: (nat, nat) -> seq<Op>)
      requires Valid() && GoodScript(script)
      modifies `slots, `serial, `fate, `touched, `fired, `calls
      ensures Valid() && old(touched) <= touched && |old(fate)| <= |fate|
      // Every timer that nobody touched has fired now exactly if its time has come.
      ensures forall s :: 0 <= s < |old(fate)| && (s !in touched || !old(fate)[s].Pending?) ==>
        Judged(old(fate)[s], fate[s], now)
    {
      assert forall s :: 0 <= s < |fate| && fate[s].Pending? ==> fate[s].h < SLOTS;
      PolledNone(fate, touched, now);
      hide Matched, Calls, W, DueTick, PolledTo, Elapsed, Kept, Beats;
      var h: nat := 0;
      while h < SLOTS
        invariant h <= SLOTS && Valid() && old(touched) <= touched && |slots| == SLOTS
        invariant PolledTo(old(fate), fate, touched, now, h)
      {
        var handler := slots[h].handler;
        if handler != 0 && Elapsed(slots[h].elapsesAt, jiffies) {
          ghost var was, t, s := fate, touched, serial[h];
          PendingAt(slots, serial, fate, h, now);
          ghost var due := fate[s].due;
          DisarmKeeps(slots, serial, fate, h, slots[h].(handler := 0), Fired(now, due));
          FireCalls(fired, fate, s, now, due);
          slots := slots[h := slots[h].(handler := 0)];
          fate := fate[s := Fired(now, due)];
          fired := fired + [s];
          calls := calls + 1;
          Perform(script(handler, calls));
          PolledKept(old(fate), was, fate, t, touched, now, h, s);
        } else {
          PolledSkip(old(fate), slots, serial, fate, touched, now, h);
        }
        h := h + 1;
      }
      AllPolled(old(fate), fate, touched, now);
    }

    /** One tick. */
    method Tick()
      requires Valid()
      modifies `jiffies, `seconds, `now
      ensures Valid() && now == old(now) + 1
    {
      NextTick(now);
      hide Matched, Calls, W;
      jiffies := W(jiffies + 1);
      if jiffies % HZ == 0 {
        seconds := seconds + 1;
      }
      now := now + 1;
    }

    /** TimerInterruptHandler on the processor that counts the ticks. */
    method Interrupt(script: (nat, nat) -> seq<Op>)
      requires Valid() && GoodScript(script)
      modifies this
      ensures Valid() && now == old(now) + 1 && old(touched) <= touched && |old(fate)| <= |fate|
      ensures forall s :: 0 <= s < |old(fate)| && (s !in touched || !old(fate)[s].Pending?) ==>
        Judged(old(fate)[s], fate[s], now)
    {
      hide Matched, Calls, W, Beats;
      Tick();
      Poll(script);
    }
  }

  // Whole runs

  /** What can happen: code uses the timers, a tick passes, the timers are polled. */
  datatype Step = Do(op: Op) | Tick | PollNow

  /** The tick of the first poll from step i on at which `due` has been reached; -1 if there is none. */
  function FirstPoll(steps: seq<Step>, i: nat, now: nat, due: int): int
    requires i <= |steps|
    decreases |steps| - i
  {
    if i == |steps| then -1
    else match steps[i]
      case Do(_) => FirstPoll(steps, i + 1, now, due)
      case Tick => FirstPoll(steps, i + 1, now + 1, due)
      case PollNow => if due <= now then now else FirstPoll(steps, i + 1, now, due)
  }

  lemma {:induction false} FirstPollLater(steps: seq<Step>, i: nat, now: nat, due: int)
    requires i <= |steps|
    ensures FirstPoll(steps, i, now, due) == -1 || (now <= FirstPoll(steps, i, now, due) && due <= FirstPoll(steps, i, now, due))
    decreases |steps| - i
  {
    if i == |steps| {
    } else {
      FirstPollLater(steps, i + 1, if steps[i].Tick? then now + 1 else now, due);
    }
  }

  ghost predicate GoodSteps(steps: seq<Step>) {
    forall i :: 0 <= i < |steps| && steps[i].Do? ==> GoodOp(steps[i].op)
  }

  /** In any run, a pending timer that nobody cancels or moves fires at the first poll at which its
      time has come, not before and not again; polls may come up to 2^31 ticks late. */
  method RunSteps(t: Timers, steps: seq<Step>, script: (nat, nat) -> seq<Op>, ghost s: nat)
    requires t.Valid() && GoodSteps(steps) && GoodScript(script)
    requires s < |t.fate| && t.fate[s].Pending? && t.fate[s].due < t.now + HALF
    modifies t
    ensures t.Valid() && s < |t.fate|
    ensures s !in t.touched ==>
      var due := old(t.fate)[s].due;
      var at := FirstPoll(steps, 0, old(t.now), due);
      && (at == -1 ==> t.fate[s] == old(t.fate)[s])
      && (0 <= at <= due + HALF ==> t.fate[s] == Fired(at, due))
  {
    hide Matched, Calls, W, DueTick, Beats;
    ghost var due := t.fate[s].due;
    ghost var at := FirstPoll(steps, 0, t.now, due);
    var i := 0;
    while i < |steps|
      invariant 0 <= i <= |steps| && t.Valid() && s < |t.fate| && due < t.now + HALF
      invariant s !in t.touched && (at == -1 || at <= due + HALF) ==>
        || (t.fate[s] == old(t.fate)[s] && at == FirstPoll(steps, i, t.now, due))
        || (at >= 0 && t.fate[s] == Fired(at, due))
    {
      FirstPollLater(steps, i, t.now, due);
      match steps[i] {
        case Do(op) =>
          t.Perform([op]);
        case Tick =>
          t.Tick();
        case PollNow =>
          t.Poll(script);
      }
      i := i + 1;
    }
  }

  /** A timer started with a delay 0 < d < 2^31. */
  method StartAndRun(t: Timers, handler: nat, delay: nat, steps: seq<Step>, script: (nat, nat) -> seq<Op>) returns (handle: nat)
    requires t.Valid() && handler != 0 && 0 < delay < HALF
    requires GoodSteps(steps) && GoodScript(script)
    modifies t
    ensures t.Valid()
    ensures handle == 0 ==> forall h :: 0 <= h < |old(t.slots)| ==> old(t.slots)[h].handler != 0
    ensures handle != 0 ==> |old(t.fate)| < |t.fate|
    ensures handle != 0 && |old(t.fate)| !in t.touched ==>
      var due := old(t.now) + delay;
      var at := FirstPoll(steps, 0, old(t.now), due);
      && (at == -1 ==> t.fate[|old(t.fate)|] == Pending(handle - 1, due))
      && (0 <= at <= due + HALF ==> t.fate[|old(t.fate)|] == Fired(at, due))
  {
    handle := t.StartTimer(handler, delay);
    if handle != 0 {
      RunSteps(t, steps, script, |old(t.fate)|);
    }
  }

  ghost predicate Once(fired: seq<nat>, s: nat) {
    exists i :: 0 <= i < |fired| && fired[i] == s && forall j :: 0 <= j < |fired| && fired[j] == s ==> j == i
  }

  /** Every timer ever started is pending in a slot of its own, has had its handler called once, or
      was cancelled. */
  lemma NoTimerLost(t: Timers, s: nat)
    requires t.Valid() && s < |t.fate|
    ensures match t.fate[s]
      case Pending(h, due) => h < SLOTS && t.slots[h].handler != 0 && t.serial[h] == s && s !in t.fired
      case Fired(_, _) => Once(t.fired, s)
      case Cancelled => s !in t.fired && forall h :: 0 <= h < SLOTS && t.slots[h].handler != 0 ==> t.serial[h] != s
  {
    if t.fate[s].Fired? {
      var i :| 0 <= i < |t.fired| && t.fired[i] == s;
      assert i < |t.fired| && t.fired[i] == s && forall j :: 0 <= j < |t.fired| && t.fired[j] == s ==> j == i;
    }
  }
}
