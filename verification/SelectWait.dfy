/**
  Select callers against event callbacks in the socket layer.

  Every protected section of `lwip_select`, `lwip_selscan` and `event_callback`, and
  every unprotected store of `alloc_socket` and the hand-over that follows it, is one
  atomic step. A run is any sequence of actions of any number of threads; an action that
  is not enabled leaves the state as it is.
 */
module SelectWait {

  /** A thread that calls select. */
  type Tid = nat

  /** A call of event_callback that is under way. */
  type Cid = nat

  /** A socket entry. `setup` counts the steps that are left after alloc_socket marked it as used:
      four stores of alloc_socket and the hand-over by lwip_socket or lwip_accept. `rcvevent` is
      16-bit signed, `selectWaiting` 8-bit. */
  datatype Sock = Sock(open: bool, setup: nat, lastdata: bool, rcvevent: int, sendevent: bool, errevent: bool,
                       selectWaiting: nat)

  datatype FdSets = FdSets(read: set<nat>, write: set<nat>, except: set<nat>)

  datatype Stage = First | Second | Last

  datatype Phase =
    | Idle
    | Scanning(stage: Stage, i: nat, nready: nat)
    | Joining
    | Increasing(i: nat)
    | Waiting
    | Decreasing(i: nat, stop: nat)
    | Leaving

  /** One select call: its arguments, where it is, and its entry on the list of
      waiters (`signalled`) with the semaphore it owns (`sem`). */
  datatype Caller = Caller(phase: Phase, sets: FdSets, maxfd: nat, signalled: bool, sem: nat)

  datatype Event = RcvPlus | RcvMinus | SendPlus | SendMinus | Error

  /** A callback before it looked up its socket, before it stores its event, and
      while it walks the list: the entry just handled and the counter it saw. */
  datatype Callback =
    | Started(s: nat, evt: Event)
    | Found(s: nat, evt: Event)
    | Walking(s: nat, at: Tid, seen: nat)

  datatype State = State(sockets: seq<Sock>, list: seq<Tid>, ctr: nat,
                         callers: map<Tid, Caller>, callbacks: map<Cid, Callback>)

  datatype Action =
    | Call(t: Tid, sets: FdSets, maxfd: nat)
    | Scan(t: Tid, poll: bool)
    | Join(t: Tid)
    | Increase(t: Tid)
    | Wake(t: Tid)
    | Timeout(t: Tid)
    | Decrease(t: Tid)
    | Leave(t: Tid, rescan: bool)
    | Begin(c: Cid, s: nat, evt: Event)
    | Resolve(c: Cid)
    | Apply(c: Cid)
    | Visit(c: Cid)
    | Claim(s: nat)
    | Reset(s: nat, writable: bool)
    | HandOver(s: nat, early: nat)
    | CloseSocket(s: nat)
    | SetLastData(s: nat, left: bool)

  // ---------------------------------------------------------------------------
  // The steps
  // ---------------------------------------------------------------------------

  predicate Wants(f: FdSets, s: nat) {
    s in f.read || s in f.write || s in f.except
  }

  /** The test of event_callback: an event is pending that the caller asked for. */
  predicate Pending(f: FdSets, k: Sock, s: nat) {
    (s in f.read && k.rcvevent > 0) || (s in f.write && k.sendevent) || (s in f.except && k.errevent)
  }

  predicate IsOpen(st: State, s: nat) {
    s < |st.sockets| && st.sockets[s].open
  }

  /** What lwip_selscan adds to its count for descriptor `s`. */
  function ReadyCount(st: State, f: FdSets, s: nat): nat {
    if !IsOpen(st, s) then 0 else
      var k := st.sockets[s];
      (if s in f.read && (k.lastdata || k.rcvevent > 0) then 1 else 0) +
      (if s in f.write && k.sendevent then 1 else 0) +
      (if s in f.except && k.errevent then 1 else 0)
  }

  function SetPhase(st: State, t: Tid, p: Phase): State
    requires t in st.callers
  {
    st.(callers := st.callers[t := st.callers[t].(phase := p)])
  }

  function CallStep(st: State, t: Tid, sets: FdSets, maxfd: nat): State {
    if t !in st.callers || st.callers[t].phase.Idle? then
      st.(callers := st.callers[t := Caller(Scanning(First, 0, 0), sets, maxfd, false, 0)])
    else st
  }

  function ScanStep(st: State, t: Tid, poll: bool): State {
    if t !in st.callers || !st.callers[t].phase.Scanning? then st else
      var c := st.callers[t];
      var p := c.phase;
      if p.i < c.maxfd then
        SetPhase(st, t, Scanning(p.stage, p.i + 1, p.nready + ReadyCount(st, c.sets, p.i)))
      else match p.stage
        case First => SetPhase(st, t, if p.nready > 0 || poll then Idle else Joining)
        case Second => SetPhase(st, t, if p.nready == 0 then Waiting else Decreasing(0, c.maxfd))
        case Last => SetPhase(st, t, Idle)
  }

  function JoinStep(st: State, t: Tid): State {
    if t !in st.callers || !st.callers[t].phase.Joining? then st else
      var c := st.callers[t].(phase := Increasing(0), signalled := false, sem := 0);
      st.(list := [t] + st.list, ctr := st.ctr + 1, callers := st.callers[t := c])
  }

  function SetWaiting(st: State, s: nat, n: nat): State
    requires s < |st.sockets|
  {
    st.(sockets := st.sockets[s := st.sockets[s].(selectWaiting := n)])
  }

  function IncreaseStep(st: State, t: Tid): State {
    if t !in st.callers || !st.callers[t].phase.Increasing? then st else
      var c := st.callers[t];
      var i := c.phase.i;
      if i >= c.maxfd then SetPhase(st, t, Scanning(Second, 0, 0))
      else if !Wants(c.sets, i) then SetPhase(st, t, Increasing(i + 1))
      else if IsOpen(st, i) then
        SetPhase(SetWaiting(st, i, (st.sockets[i].selectWaiting + 1) % 256), t, Increasing(i + 1))
      else SetPhase(st, t, Decreasing(0, i))
  }

  function WakeStep(st: State, t: Tid): State {
    if t !in st.callers || !st.callers[t].phase.Waiting? || st.callers[t].sem == 0 then st else
      var c := st.callers[t];
      st.(callers := st.callers[t := c.(phase := Decreasing(0, c.maxfd), sem := c.sem - 1)])
  }

  function TimeoutStep(st: State, t: Tid): State {
    if t !in st.callers || !st.callers[t].phase.Waiting? then st else
      SetPhase(st, t, Decreasing(0, st.callers[t].maxfd))
  }

  function DecreaseStep(st: State, t: Tid): State {
    if t !in st.callers || !st.callers[t].phase.Decreasing? then st else
      var c := st.callers[t];
      var i := c.phase.i;
      if i >= c.phase.stop then SetPhase(st, t, Leaving)
      else if Wants(c.sets, i) && IsOpen(st, i) && st.sockets[i].selectWaiting > 0 then
        SetPhase(SetWaiting(st, i, st.sockets[i].selectWaiting - 1), t, Decreasing(i + 1, c.phase.stop))
      else SetPhase(st, t, Decreasing(i + 1, c.phase.stop))
  }

  /** The index of `t`, or the length of the list. */
  function IndexOf(list: seq<Tid>, t: Tid): (k: nat)
    ensures k <= |list| && (k < |list| ==> list[k] == t) && (k == |list| <==> t !in list)
  {
    if list == [] then 0 else if list[0] == t then 0 else 1 + IndexOf(list[1..], t)
  }

  function Remove(list: seq<Tid>, t: Tid): seq<Tid> {
    var k := IndexOf(list, t);
    if k < |list| then list[..k] + list[k + 1..] else list
  }

  function LeaveStep(st: State, t: Tid, rescan: bool): State {
    if t !in st.callers || !st.callers[t].phase.Leaving? then st else
      var st' := SetPhase(st, t, if rescan then Scanning(Last, 0, 0) else Idle);
      st'.(list := Remove(st.list, t), ctr := st.ctr + 1)
  }

  function Drop(st: State, c: Cid): State {
    st.(callbacks := st.callbacks - {c})
  }

  function BeginStep(st: State, c: Cid, s: nat, evt: Event): State {
    if c in st.callbacks then st else st.(callbacks := st.callbacks[c := Started(s, evt)])
  }

  function ResolveStep(st: State, c: Cid): State {
    if c !in st.callbacks || !st.callbacks[c].Started? then st else
      var k := st.callbacks[c];
      if IsOpen(st, k.s) then st.(callbacks := st.callbacks[c := Found(k.s, k.evt)]) else Drop(st, c)
  }

  function S16(x: int): int {
    (x + 0x8000) % 0x10000 - 0x8000
  }

  function Store(k: Sock, evt: Event): Sock {
    match evt
    case RcvPlus => k.(rcvevent := S16(k.rcvevent + 1))
    case RcvMinus => k.(rcvevent := S16(k.rcvevent - 1))
    case SendPlus => k.(sendevent := true)
    case SendMinus => k.(sendevent := false)
    case Error => k.(errevent := true)
  }

  /** Signal the caller unless its semaphore was signalled before. */
  function Signal(st: State, t: Tid, s: nat): State
    requires s < |st.sockets|
  {
    if t in st.callers && !st.callers[t].signalled && Pending(st.callers[t].sets, st.sockets[s], s) then
      var c := st.callers[t];
      st.(callers := st.callers[t := c.(signalled := true, sem := c.sem + 1)])
    else st
  }

  /** Handle the list entry at `k` for the callback `c`, or end the walk. */
  function VisitAt(st: State, c: Cid, s: nat, k: nat): State
    requires s < |st.sockets|
  {
    if k >= |st.list| then Drop(st, c)
    else
      var st' := Signal(st, st.list[k], s);
      st'.(callbacks := st.callbacks[c := Walking(s, st.list[k], st.ctr)])
  }

  function ApplyStep(st: State, c: Cid): State {
    if c !in st.callbacks || !st.callbacks[c].Found? || st.callbacks[c].s >= |st.sockets| then st else
      var k := st.callbacks[c];
      var st' := st.(sockets := st.sockets[k.s := Store(st.sockets[k.s], k.evt)]);
      if st.sockets[k.s].selectWaiting == 0 then Drop(st', c) else VisitAt(st', c, k.s, 0)
  }

  function VisitStep(st: State, c: Cid): State {
    if c !in st.callbacks || !st.callbacks[c].Walking? || st.callbacks[c].s >= |st.sockets| then st else
      var k := st.callbacks[c];
      VisitAt(st, c, k.s, NextEntry(st, k))
  }

  /** The next entry of a walk: the first one if the list has changed meanwhile. */
  function NextEntry(st: State, k: Callback): nat
    requires k.Walking?
  {
    if k.seen != st.ctr then 0 else IndexOf(st.list, k.at) + 1
  }

  /** The protected section of alloc_socket: a free entry that nobody waits for is marked as
      used. Its other fields still hold what its last user left there. */
  function ClaimStep(st: State, s: nat): State {
    if s < |st.sockets| && !st.sockets[s].open && st.sockets[s].selectWaiting == 0 then
      st.(sockets := st.sockets[s := st.sockets[s].(open := true, setup := 5)])
    else st
  }

  /** The stores of alloc_socket that follow, one at a time and unprotected. */
  function NextStore(k: Sock, writable: bool): Sock {
    if k.setup == 5 then k.(setup := 4, lastdata := false)
    else if k.setup == 4 then k.(setup := 3, rcvevent := 0)
    else if k.setup == 3 then k.(setup := 2, sendevent := writable)
    else if k.setup == 2 then k.(setup := 1, errevent := false)
    else k
  }

  function ResetStep(st: State, s: nat, writable: bool): State {
    if s < |st.sockets| && st.sockets[s].setup > 1 then
      st.(sockets := st.sockets[s := NextStore(st.sockets[s], writable)])
    else st
  }

  /** The hand-over: lwip_accept adds the receive events that came before there was a socket, and
      the connection learns its socket number. Nobody walks the list. For lwip_socket `early` is 0. */
  function Received(k: Sock, early: nat): Sock {
    k.(setup := 0, rcvevent := S16(k.rcvevent + early))
  }

  function HandOverStep(st: State, s: nat, early: nat): State {
    if s < |st.sockets| && st.sockets[s].setup == 1 then
      st.(sockets := st.sockets[s := Received(st.sockets[s], early)])
    else st
  }

  /** A socket is freed by somebody who was given it, so not while it is set up. */
  function CloseStep(st: State, s: nat): State {
    if s < |st.sockets| && st.sockets[s].setup == 0 then
      st.(sockets := st.sockets[s := st.sockets[s].(open := false, lastdata := false)])
    else st
  }

  function LastDataStep(st: State, s: nat, left: bool): State {
    if s < |st.sockets| then st.(sockets := st.sockets[s := st.sockets[s].(lastdata := left)]) else st
  }

  function Step(st: State, a: Action): State {
    match a
    case Call(t, sets, maxfd) => CallStep(st, t, sets, maxfd)
    case Scan(t, poll) => ScanStep(st, t, poll)
    case Join(t) => JoinStep(st, t)
    case Increase(t) => IncreaseStep(st, t)
    case Wake(t) => WakeStep(st, t)
    case Timeout(t) => TimeoutStep(st, t)
    case Decrease(t) => DecreaseStep(st, t)
    case Leave(t, rescan) => LeaveStep(st, t, rescan)
    case Begin(c, s, evt) => BeginStep(st, c, s, evt)
    case Resolve(c) => ResolveStep(st, c)
    case Apply(c) => ApplyStep(st, c)
    case Visit(c) => VisitStep(st, c)
    case Claim(s) => ClaimStep(st, s)
    case Reset(s, writable) => ResetStep(st, s, writable)
    case HandOver(s, early) => HandOverStep(st, s, early)
    case CloseSocket(s) => CloseStep(st, s)
    case SetLastData(s, left) => LastDataStep(st, s, left)
  }

  function Initial(numSockets: nat): State {
    State(seq(numSockets, _ => Sock(false, 0, false, 0, false, false, 0)), [], 0, map[], map[])
  }

  function Run(st: State, run: seq<Action>): State {
    if run == [] then st else Step(Run(st, run[..|run| - 1]), run[|run| - 1])
  }

  // ---------------------------------------------------------------------------
  // The invariant
  // ---------------------------------------------------------------------------

  predicate OnList(p: Phase) {
    p.Increasing? || (p.Scanning? && p.stage == Second) || p.Waiting? || p.Decreasing? || p.Leaving?
  }

  ghost predicate ListOk(st: State) {
    && (forall i, j :: 0 <= i < j < |st.list| ==> st.list[i] != st.list[j])
    && (forall t :: t in st.list ==> t in st.callers)
    && (forall t :: t in st.callers ==> (t in st.list <==> OnList(st.callers[t].phase)))
  }

  ghost predicate WalkOk(st: State) {
    forall c :: c in st.callbacks ==>
      var k := st.callbacks[c];
      && (k.Found? ==> k.s < |st.sockets|)
      && (k.Walking? ==> k.s < |st.sockets| && k.seen <= st.ctr && (k.seen == st.ctr ==> k.at in st.list))
  }

  /** `c` has raised the waiting count of socket `s` and not lowered it again. */
  predicate Registered(c: Caller, s: nat) {
    && Wants(c.sets, s)
    && match c.phase
       case Increasing(i) => s < i && s < c.maxfd
       case Scanning(stage, _, _) => stage == Second && s < c.maxfd
       case Waiting => s < c.maxfd
       case Decreasing(i, stop) => i <= s < stop
       case _ => false
  }

  ghost function Waiters(st: State, s: nat): set<Tid> {
    set t | t in st.callers && Registered(st.callers[t], s)
  }

  /** An open socket's counter is exact; a closed one may keep a surplus, which stops it
      from being handed out again. */
  ghost predicate CountOk(st: State) {
    forall s :: 0 <= s < |st.sockets| ==>
      && |Waiters(st, s)| <= st.sockets[s].selectWaiting < 256
      && (st.sockets[s].open ==> |Waiters(st, s)| == st.sockets[s].selectWaiting)
  }

  /** A step that is still left in setting up the socket can make an event appear that is asked for:
      the hand-over data, and the store of `sendevent` room to write. */
  predicate Unsettled(f: FdSets, k: Sock, s: nat) {
    (s in f.read && k.setup >= 1) || (s in f.write && k.setup >= 3)
  }

  /** Whoever waits for a socket that is being set up has nothing to hope for from that. */
  ghost predicate SetupOk(st: State) {
    forall t: Tid, s: nat :: t in st.callers && s < |st.sockets| && Registered(st.callers[t], s) ==>
      !Unsettled(st.callers[t].sets, st.sockets[s], s)
  }

  /** The semaphore is signalled at most once per call. */
  predicate SemOk(st: State) {
    forall t :: t in st.callers && OnList(st.callers[t].phase) ==>
      && st.callers[t].sem <= (if st.callers[t].signalled then 1 else 0)
      && (!st.callers[t].phase.Decreasing? && !st.callers[t].phase.Leaving? && st.callers[t].signalled ==>
            st.callers[t].sem == 1)
  }

  /** `c` has found nothing on socket `s` since it is on the list and counted. */
  predicate Relies(c: Caller, s: nat) {
    match c.phase
    case Waiting => s < c.maxfd
    case Scanning(stage, i, nready) => stage == Second && nready == 0 && s < i && s < c.maxfd
    case _ => false
  }

  /** The walking callback `k` still has the entry of `t` before it. */
  predicate WillVisit(st: State, k: Callback, s: nat, t: Tid) {
    && k.Walking? && k.s == s
    && (k.seen != st.ctr || IndexOf(st.list, k.at) < IndexOf(st.list, t))
  }

  ghost predicate Covered(st: State, s: nat, t: Tid) {
    exists c :: c in st.callbacks && WillVisit(st, st.callbacks[c], s, t)
  }

  /** `t` counts on being woken for an event that is pending on the open socket `s`. */
  predicate Owed(st: State, t: Tid, s: nat) {
    && t in st.callers && !st.callers[t].signalled && Relies(st.callers[t], s)
    && IsOpen(st, s) && Pending(st.callers[t].sets, st.sockets[s], s)
  }

  /** The heart of the protocol: whoever is owed a signal will be visited. */
  ghost predicate WakeupOk(st: State) {
    forall t: Tid, s: nat :: Owed(st, t, s) ==> Covered(st, s, t)
  }

  ghost predicate Inv(st: State) {
    ListOk(st) && WalkOk(st) && CountOk(st) && SetupOk(st) && SemOk(st) && WakeupOk(st)
  }

  /** The step raises the counter of socket `i`. */
  predicate Raises(st: State, a: Action, i: nat) {
    && a.Increase? && a.t in st.callers && st.callers[a.t].phase == Increasing(i)
    && i < st.callers[a.t].maxfd && Wants(st.callers[a.t].sets, i) && IsOpen(st, i)
  }

  /** A caller names a socket that socket or accept has not returned yet, and asks for an event that
      a step left in its setup can make appear. */
  predicate Premature(st: State, a: Action) {
    a.Increase? && a.t in st.callers && st.callers[a.t].phase.Increasing?
    && var i := st.callers[a.t].phase.i; Raises(st, a, i) && Unsettled(st.callers[a.t].sets, st.sockets[i], i)
  }

  /** A caller is the 256th to wait for a socket. */
  predicate Overflow(st: State, a: Action) {
    a.Increase? && a.t in st.callers && st.callers[a.t].phase.Increasing?
    && var i := st.callers[a.t].phase.i; Raises(st, a, i) && st.sockets[i].selectWaiting == 255
  }

  predicate Good(st: State, a: Action) {
    !Premature(st, a) && !Overflow(st, a)
  }

  // ---------------------------------------------------------------------------
  // Every step keeps the invariant
  // ---------------------------------------------------------------------------

  /** A step of one caller that touches neither the list nor a counter. */
  lemma ReplaceCaller(st: State, t: Tid, c: Caller)
    requires Inv(st) && t in st.callers
    requires OnList(c.phase) == OnList(st.callers[t].phase)
    requires forall s :: 0 <= s < |st.sockets| ==> (Registered(c, s) <==> Registered(st.callers[t], s))
    requires c.sets == st.callers[t].sets || forall s: nat :: !Registered(c, s)
    requires SemOk(st.(callers := st.callers[t := c]))
    requires forall s: nat :: !c.signalled && Relies(c, s) && IsOpen(st, s) && Pending(c.sets, st.sockets[s], s) ==>
                                Covered(st, s, t)
    ensures Inv(st.(callers := st.callers[t := c]))
  {
    var st' := st.(callers := st.callers[t := c]);
    forall s | 0 <= s < |st.sockets| ensures Waiters(st', s) == Waiters(st, s) {
    }
    forall u: Tid, s: nat | Owed(st', u, s) ensures Covered(st', s, u) {
      assert Covered(st, s, u) by { assert u != t ==> Owed(st, u, s); }
      KeepCovered(st, st', s, u);
    }
  }

  lemma KeepCovered(st: State, st': State, s: nat, t: Tid)
    requires Covered(st, s, t)
    requires st'.list == st.list && st'.ctr == st.ctr && st'.callbacks == st.callbacks
    ensures Covered(st', s, t)
  {
    var c :| c in st.callbacks && WillVisit(st, st.callbacks[c], s, t);
    assert WillVisit(st', st'.callbacks[c], s, t);
  }

  lemma CallKeeps(st: State, t: Tid, sets: FdSets, maxfd: nat)
    requires Inv(st)
    ensures Inv(CallStep(st, t, sets, maxfd))
  {
    if t in st.callers && st.callers[t].phase.Idle? {
      hide ListOk, WalkOk, CountOk, WakeupOk;
      ReplaceCaller(st, t, Caller(Scanning(First, 0, 0), sets, maxfd, false, 0));
    } else if t !in st.callers {
      AddCaller(st, t, Caller(Scanning(First, 0, 0), sets, maxfd, false, 0));
    }
  }

  lemma AddCaller(st: State, t: Tid, c: Caller)
    requires Inv(st) && t !in st.callers
    requires !OnList(c.phase) && forall s: nat :: !Registered(c, s) && !Relies(c, s)
    ensures Inv(st.(callers := st.callers[t := c]))
  {
    var st' := st.(callers := st.callers[t := c]);
    forall s | 0 <= s < |st.sockets| ensures Waiters(st', s) == Waiters(st, s) {
    }
    forall u: Tid, s: nat | Owed(st', u, s) ensures Covered(st', s, u) {
      assert Owed(st, u, s);
      KeepCovered(st, st', s, u);
    }
  }

  lemma ScanKeeps(st: State, t: Tid, poll: bool)
    requires Inv(st)
    ensures Inv(ScanStep(st, t, poll))
  {
    if t in st.callers && st.callers[t].phase.Scanning? {
      var c := ScanStep(st, t, poll).callers[t];
      forall s: nat | !c.signalled && Relies(c, s) && IsOpen(st, s) && Pending(c.sets, st.sockets[s], s)
        ensures Covered(st, s, t)
      {
        assert Owed(st, t, s);
      }
      ReplaceCaller(st, t, c);
    }
  }

  lemma WaitEndKeeps(st: State, t: Tid)
    requires Inv(st)
    ensures Inv(WakeStep(st, t)) && Inv(TimeoutStep(st, t))
  {
    if t in st.callers && st.callers[t].phase.Waiting? {
      ReplaceCaller(st, t, TimeoutStep(st, t).callers[t]);
      if st.callers[t].sem > 0 {
        ReplaceCaller(st, t, WakeStep(st, t).callers[t]);
      }
    }
  }

  lemma JoinKeeps(st: State, t: Tid)
    requires Inv(st)
    ensures Inv(JoinStep(st, t))
  {
    if t in st.callers && st.callers[t].phase.Joining? {
      var st' := JoinStep(st, t);
      assert forall u :: u in st'.list <==> u == t || u in st.list;
      forall s | 0 <= s < |st.sockets| ensures Waiters(st', s) == Waiters(st, s) {
      }
      ListChange(st, st', t);
    }
  }

  /** After a change of the list every walk starts over, so nobody is missed. */
  lemma ListChange(st: State, st': State, t: Tid)
    requires Inv(st) && st'.sockets == st.sockets && st'.callbacks == st.callbacks && st'.ctr == st.ctr + 1
    requires forall u :: u in st'.callers && u != t ==> u in st.callers && st'.callers[u] == st.callers[u]
    requires forall s: nat :: t in st'.callers ==> !Relies(st'.callers[t], s)
    ensures WakeupOk(st') && WalkOk(st')
  {
    forall u: Tid, s: nat | Owed(st', u, s) ensures Covered(st', s, u) {
      assert Owed(st, u, s);
      var c :| c in st.callbacks && WillVisit(st, st.callbacks[c], s, u);
      assert WillVisit(st', st'.callbacks[c], s, u);
    }
  }

  lemma LeaveKeeps(st: State, t: Tid, rescan: bool)
    requires Inv(st)
    ensures Inv(LeaveStep(st, t, rescan))
  {
    if t in st.callers && st.callers[t].phase.Leaving? {
      var st' := LeaveStep(st, t, rescan);
      forall s | 0 <= s < |st.sockets| ensures Waiters(st', s) == Waiters(st, s) {
      }
      RemoveElements(st.list, t);
      ListChange(st, st', t);
    }
  }

  lemma RemoveElements(list: seq<Tid>, t: Tid)
    requires forall i, j :: 0 <= i < j < |list| ==> list[i] != list[j]
    ensures var r := Remove(list, t);
            && (forall i, j :: 0 <= i < j < |r| ==> r[i] != r[j])
            && (forall u :: u in r <==> u in list && u != t)
  {
    var k, r := IndexOf(list, t), Remove(list, t);
    if k < |list| {
      assert forall i :: 0 <= i < |r| ==> r[i] == list[if i < k then i else i + 1];
      forall u | u in list && u != t ensures u in r {
        var i :| 0 <= i < |list| && list[i] == u;
        assert r[if i < k then i else i - 1] == u;
      }
    }
  }

  /** A step that moves caller `t` on and changes the counter of socket `i` only. */
  lemma CounterStep(st: State, t: Tid, i: nat, n: nat, p: Phase)
    requires Inv(st) && t in st.callers && i < |st.sockets|
    requires OnList(st.callers[t].phase) && OnList(p) && !p.Waiting? && !p.Scanning?
    requires p.Decreasing? || !st.callers[t].phase.Decreasing?
    requires !p.Leaving? && !st.callers[t].phase.Leaving?
    requires var st' := SetPhase(SetWaiting(st, i, n), t, p);
             && (forall s :: 0 <= s < |st.sockets| && s != i ==>
                   (Registered(st'.callers[t], s) <==> Registered(st.callers[t], s)))
             && |Waiters(st', i)| <= n < 256 && (st.sockets[i].open ==> |Waiters(st', i)| == n)
             && (Registered(st'.callers[t], i) ==> !Unsettled(st.callers[t].sets, st.sockets[i], i))
    ensures Inv(SetPhase(SetWaiting(st, i, n), t, p))
  {
    var st' := SetPhase(SetWaiting(st, i, n), t, p);
    forall s | 0 <= s < |st.sockets| && s != i ensures Waiters(st', s) == Waiters(st, s) {
    }
    forall u: Tid, s: nat | Owed(st', u, s) ensures Covered(st', s, u) {
      assert Owed(st, u, s);
      KeepCovered(st, st', s, u);
    }
  }

  lemma IncreaseKeeps(st: State, t: Tid)
    requires Inv(st) && Good(st, Increase(t))
    ensures Inv(IncreaseStep(st, t))
  {
    if t in st.callers && st.callers[t].phase.Increasing? {
      var c := st.callers[t];
      var i := c.phase.i;
      if i < c.maxfd && Wants(c.sets, i) && IsOpen(st, i) {
        RaiseKeeps(st, t, i);
      } else {
        hide ListOk, WalkOk, CountOk, WakeupOk;
        ReplaceCaller(st, t, IncreaseStep(st, t).callers[t]);
      }
    }
  }

  lemma RaiseKeeps(st: State, t: Tid, i: nat)
    requires Inv(st) && t in st.callers && st.callers[t].phase == Increasing(i)
    requires i < st.callers[t].maxfd && Wants(st.callers[t].sets, i) && IsOpen(st, i)
    requires !Unsettled(st.callers[t].sets, st.sockets[i], i) && st.sockets[i].selectWaiting < 255
    ensures Inv(IncreaseStep(st, t))
  {
    hide ListOk, WalkOk, WakeupOk, SemOk;
    var n := st.sockets[i].selectWaiting;
    RaisedWaiters(st, t, i, n + 1);
    CounterStep(st, t, i, n + 1, Increasing(i + 1));
  }

  lemma RaisedWaiters(st: State, t: Tid, i: nat, n: nat)
    requires t in st.callers && st.callers[t].phase == Increasing(i) && i < |st.sockets|
    requires i < st.callers[t].maxfd && Wants(st.callers[t].sets, i)
    ensures var st' := SetPhase(SetWaiting(st, i, n), t, Increasing(i + 1));
            Waiters(st', i) == Waiters(st, i) + {t} && t !in Waiters(st, i)
  {
  }

  /** Raising the counter against the guards breaks the invariant at once: somebody waits for an
      event that will appear unannounced, or 256 waiters are counted as none. */
  lemma BadRaiseBreaks(st: State, t: Tid)
    requires Inv(st) && !Good(st, Increase(t))
    ensures Premature(st, Increase(t)) ==> !SetupOk(IncreaseStep(st, t))
    ensures Overflow(st, Increase(t)) ==> !CountOk(IncreaseStep(st, t))
  {
    hide Inv, CountOk, SetupOk, IncreaseStep, Premature, Overflow;
    if Premature(st, Increase(t)) {
      PrematureBreaks(st, t);
    }
    if Overflow(st, Increase(t)) {
      OverflowBreaks(st, t);
    }
  }

  lemma PrematureBreaks(st: State, t: Tid)
    requires Premature(st, Increase(t))
    ensures !SetupOk(IncreaseStep(st, t))
  {
    var i := st.callers[t].phase.i;
    var st' := IncreaseStep(st, t);
    assert Registered(st'.callers[t], i) && Unsettled(st'.callers[t].sets, st'.sockets[i], i);
  }

  lemma OverflowBreaks(st: State, t: Tid)
    requires Inv(st) && Overflow(st, Increase(t))
    ensures !CountOk(IncreaseStep(st, t))
  {
    hide Inv, CountOk, Waiters;
    var i := st.callers[t].phase.i;
    CountParts(st, i);
    RaisedWaiters(st, t, i, 0);
    Miscounted(IncreaseStep(st, t), i);
  }

  lemma CountParts(st: State, i: nat)
    requires Inv(st) && IsOpen(st, i)
    ensures |Waiters(st, i)| == st.sockets[i].selectWaiting < 256
  {
  }

  lemma Miscounted(st: State, i: nat)
    requires IsOpen(st, i) && |Waiters(st, i)| != st.sockets[i].selectWaiting
    ensures !CountOk(st)
  {
  }

  lemma NeedsBoth(st: State)
    ensures Inv(st) ==> CountOk(st) && SetupOk(st)
  {
    hide CountOk, SetupOk, ListOk, WalkOk, SemOk, WakeupOk;
  }

  lemma DecreaseKeeps(st: State, t: Tid)
    requires Inv(st)
    ensures Inv(DecreaseStep(st, t))
  {
    if t in st.callers && st.callers[t].phase.Decreasing? {
      var c := st.callers[t];
      var i := c.phase.i;
      if i < c.phase.stop && Wants(c.sets, i) && i < |st.sockets| {
        LowerKeeps(st, t, i, c.phase.stop);
      } else {
        hide ListOk, WalkOk, CountOk, WakeupOk;
        ReplaceCaller(st, t, DecreaseStep(st, t).callers[t]);
      }
    }
  }

  lemma LowerKeeps(st: State, t: Tid, i: nat, stop: nat)
    requires Inv(st) && t in st.callers && st.callers[t].phase == Decreasing(i, stop)
    requires i < stop && Wants(st.callers[t].sets, i) && i < |st.sockets|
    ensures Inv(DecreaseStep(st, t))
  {
    hide ListOk, WalkOk, WakeupOk, SemOk;
    var open, n := st.sockets[i].open, st.sockets[i].selectWaiting;
    assert t in Waiters(st, i);
    assert |Waiters(st, i)| > 0;
    var m := if open then n - 1 else n;
    var st2 := SetPhase(SetWaiting(st, i, m), t, Decreasing(i + 1, stop));
    assert Waiters(st2, i) == Waiters(st, i) - {t};
    CounterStep(st, t, i, m, Decreasing(i + 1, stop));
    assert !open ==> SetWaiting(st, i, m) == st;
  }

  /** Nobody relies on a socket whose counter is zero. */
  lemma Unwatched(st: State, s: nat)
    requires CountOk(st) && s < |st.sockets| && st.sockets[s].selectWaiting == 0
    ensures forall t :: t in st.callers ==> !Registered(st.callers[t], s)
  {
    forall t | t in st.callers ensures !Registered(st.callers[t], s) {
      assert Waiters(st, s) == {};
      assert t !in Waiters(st, s);
    }
  }

  /** A store to a socket that makes no event appear for those who wait for it, if any do. */
  lemma SetupStore(st: State, s: nat, k: Sock)
    requires Inv(st) && s < |st.sockets| && k.selectWaiting == st.sockets[s].selectWaiting
    requires k.open != st.sockets[s].open ==> k.selectWaiting == 0
    requires forall t :: t in st.callers && Registered(st.callers[t], s) ==>
               NothingNew(st.callers[t].sets, st.sockets[s], k, s)
    ensures Inv(st.(sockets := st.sockets[s := k]))
  {
    var st' := st.(sockets := st.sockets[s := k]);
    forall j | 0 <= j < |st.sockets| ensures Waiters(st', j) == Waiters(st, j) {
    }
    if k.selectWaiting == 0 {
      Unwatched(st, s);
    }
    forall t: Tid, j: nat | Owed(st', t, j) ensures Covered(st', j, t) {
      assert Registered(st.callers[t], j);
      assert Owed(st, t, j);
      KeepCovered(st, st', j, t);
    }
  }

  predicate NothingNew(f: FdSets, k: Sock, k': Sock, s: nat) {
    !Unsettled(f, k', s) && (Pending(f, k', s) ==> Pending(f, k, s))
  }

  lemma OpenKeeps(st: State, s: nat, writable: bool, early: nat)
    requires Inv(st)
    ensures Inv(ClaimStep(st, s)) && Inv(ResetStep(st, s, writable)) && Inv(HandOverStep(st, s, early))
  {
    hide ListOk, WalkOk, SemOk, WakeupOk;
    if s < |st.sockets| {
      if !st.sockets[s].open && st.sockets[s].selectWaiting == 0 {
        Unwatched(st, s);
        SetupStore(st, s, st.sockets[s].(open := true, setup := 5));
      }
      hide CountOk;
      if st.sockets[s].setup > 1 {
        SetupStore(st, s, NextStore(st.sockets[s], writable));
      }
      if st.sockets[s].setup == 1 {
        SetupStore(st, s, Received(st.sockets[s], early));
      }
    }
  }

  lemma CloseKeeps(st: State, s: nat, left: bool)
    requires Inv(st)
    ensures Inv(CloseStep(st, s)) && Inv(LastDataStep(st, s, left))
  {
    QuietSocket(st, CloseStep(st, s));
    QuietSocket(st, LastDataStep(st, s, left));
  }

  /** A change of the sockets that makes no event appear. */
  lemma QuietSocket(st: State, st': State)
    requires Inv(st) && st' == st.(sockets := st'.sockets) && |st'.sockets| == |st.sockets|
    requires forall s :: 0 <= s < |st.sockets| ==>
               st'.sockets[s] == st.sockets[s].(open := st'.sockets[s].open, lastdata := st'.sockets[s].lastdata)
    requires forall s :: 0 <= s < |st.sockets| && st'.sockets[s].open ==> st.sockets[s].open
    ensures Inv(st')
  {
    forall k | 0 <= k < |st.sockets| ensures Waiters(st', k) == Waiters(st, k) {
    }
    forall t: Tid, k: nat | Owed(st', t, k) ensures Covered(st', k, t) {
      assert Owed(st, t, k);
      KeepCovered(st, st', k, t);
    }
  }

  lemma BeginKeeps(st: State, c: Cid, s: nat, evt: Event)
    requires Inv(st)
    ensures Inv(BeginStep(st, c, s, evt)) && Inv(ResolveStep(st, c))
  {
    if c !in st.callbacks || !st.callbacks[c].Walking? {
      QuietCallback(st, BeginStep(st, c, s, evt), c);
      QuietCallback(st, ResolveStep(st, c), c);
    }
  }

  /** A step of a callback that is not on the list yet. */
  lemma QuietCallback(st: State, st': State, c: Cid)
    requires Inv(st) && st' == st.(callbacks := st'.callbacks)
    requires c in st.callbacks ==> !st.callbacks[c].Walking?
    requires forall d :: d in st.callbacks && d != c ==> d in st'.callbacks && st'.callbacks[d] == st.callbacks[d]
    requires WalkOk(st')
    ensures Inv(st')
  {
    forall k | 0 <= k < |st.sockets| ensures Waiters(st', k) == Waiters(st, k) {
    }
    forall t: Tid, k: nat | Owed(st', t, k) ensures Covered(st', k, t) {
      assert Owed(st, t, k);
      var d :| d in st.callbacks && WillVisit(st, st.callbacks[d], k, t);
      assert WillVisit(st', st'.callbacks[d], k, t);
    }
  }

  /** Somebody else, or the rest of this walk from entry `from` on, will serve `t`. */
  ghost predicate Served(st: State, c: Cid, s: nat, from: nat, t: Tid, k: nat) {
    || (exists d :: d in st.callbacks && d != c && WillVisit(st, st.callbacks[d], k, t))
    || (k == s && from <= IndexOf(st.list, t))
  }

  /** Handling one entry: the walk goes on behind it, or has ended because no
      entry is left. */
  lemma VisitAtKeeps(st: State, c: Cid, s: nat, from: nat)
    requires ListOk(st) && WalkOk(st) && CountOk(st) && SetupOk(st) && SemOk(st) && s < |st.sockets|
    requires forall t: Tid, k: nat :: Owed(st, t, k) ==> Served(st, c, s, from, t, k)
    ensures Inv(VisitAt(st, c, s, from))
  {
    var st' := VisitAt(st, c, s, from);
    VisitAtOk(st, c, s, from);
    forall t: Tid, k: nat | Owed(st', t, k) ensures Covered(st', k, t) {
      VisitAtServes(st, c, s, from, t, k);
    }
  }

  lemma VisitAtOk(st: State, c: Cid, s: nat, from: nat)
    requires ListOk(st) && WalkOk(st) && CountOk(st) && SetupOk(st) && SemOk(st) && s < |st.sockets|
    ensures var st' := VisitAt(st, c, s, from);
            ListOk(st') && WalkOk(st') && CountOk(st') && SetupOk(st') && SemOk(st')
  {
    var st' := VisitAt(st, c, s, from);
    var st1 := if from < |st.list| then Signal(st, st.list[from], s) else st;
    if from < |st.list| {
      SignalOk(st, st.list[from], s);
    }
    hide SemOk, ListOk;
    assert ListOk(st') && SemOk(st') && WalkOk(st') by { CallbacksOnly(st1, st'); }
    forall k | 0 <= k < |st.sockets| ensures Waiters(st', k) == Waiters(st1, k) {
    }
  }

  lemma CallbacksOnly(st: State, st': State)
    requires st' == st.(callbacks := st'.callbacks)
    requires ListOk(st) && SemOk(st)
    ensures ListOk(st') && SemOk(st')
  {
  }

  lemma SignalOk(st: State, t: Tid, s: nat)
    requires ListOk(st) && WalkOk(st) && CountOk(st) && SetupOk(st) && SemOk(st) && s < |st.sockets| && t in st.list
    ensures var st' := Signal(st, t, s);
            ListOk(st') && WalkOk(st') && CountOk(st') && SetupOk(st') && SemOk(st')
  {
    var st' := Signal(st, t, s);
    forall k | 0 <= k < |st.sockets| ensures Waiters(st', k) == Waiters(st, k) {
    }
  }

  lemma VisitAtServes(st: State, c: Cid, s: nat, from: nat, t: Tid, k: nat)
    requires ListOk(st) && s < |st.sockets| && Owed(VisitAt(st, c, s, from), t, k)
    requires Owed(st, t, k) ==> Served(st, c, s, from, t, k)
    ensures Covered(VisitAt(st, c, s, from), k, t)
  {
    hide Pending, Relies, Owed;
    var st' := VisitAt(st, c, s, from);
    VisitedOnList(st, c, s, from, t, k);
    if from < |st.list| {
      IndexUnique(st.list, from);
    }
    hide ListOk;
    assert Owed(st, t, k);
    if d :| d in st.callbacks && d != c && WillVisit(st, st.callbacks[d], k, t) {
      assert WillVisit(st', st'.callbacks[d], k, t);
    } else {
      assert k == s && from <= IndexOf(st.list, t) < |st.list|;
      assert from < |st.list| && st.list[from] != t;
      assert WillVisit(st', st'.callbacks[c], k, t);
    }
  }

  lemma VisitedOnList(st: State, c: Cid, s: nat, from: nat, t: Tid, k: nat)
    requires ListOk(st) && s < |st.sockets| && Owed(VisitAt(st, c, s, from), t, k)
    ensures t in st.list && Owed(st, t, k)
    ensures from < |st.list| && st.list[from] == t ==> k != s
  {
  }

  lemma {:induction false} IndexUnique(list: seq<Tid>, k: nat)
    requires forall i, j :: 0 <= i < j < |list| ==> list[i] != list[j]
    requires k < |list|
    ensures IndexOf(list, list[k]) == k
  {
  }

  lemma VisitKeeps(st: State, c: Cid)
    requires Inv(st)
    ensures Inv(VisitStep(st, c))
  {
    if c in st.callbacks && st.callbacks[c].Walking? {
      var k := st.callbacks[c];
      forall t: Tid, s: nat | Owed(st, t, s) ensures Served(st, c, k.s, NextEntry(st, k), t, s) {
        StillServed(st, c, t, s);
      }
      hide WakeupOk, Owed, Served;
      VisitAtKeeps(st, c, k.s, NextEntry(st, k));
    }
  }

  lemma StillServed(st: State, c: Cid, t: Tid, s: nat)
    requires WakeupOk(st) && Owed(st, t, s) && c in st.callbacks && st.callbacks[c].Walking?
    ensures Served(st, c, st.callbacks[c].s, NextEntry(st, st.callbacks[c]), t, s)
  {
    var d :| d in st.callbacks && WillVisit(st, st.callbacks[d], s, t);
  }

  lemma ApplyKeeps(st: State, c: Cid)
    requires Inv(st)
    ensures Inv(ApplyStep(st, c))
  {
    if c in st.callbacks && st.callbacks[c].Found? {
      var s, k := st.callbacks[c].s, Store(st.sockets[st.callbacks[c].s], st.callbacks[c].evt);
      var st1 := st.(sockets := st.sockets[s := k]);
      StoredOk(st, s, k);
      forall t: Tid, j: nat | Owed(st1, t, j) ensures Served(st1, c, s, 0, t, j) {
        StoredServed(st, c, s, k, t, j);
      }
      hide Inv, ListOk, WalkOk, CountOk, SetupOk, SemOk, Owed, Served;
      if st.sockets[s].selectWaiting == 0 {
        StoreUnwatched(st1, c, s);
      } else {
        VisitAtKeeps(st1, c, s, 0);
      }
    }
  }

  /** Storing an event changes nothing of the rest. */
  lemma StoredOk(st: State, s: nat, k: Sock)
    requires ListOk(st) && WalkOk(st) && CountOk(st) && SetupOk(st) && SemOk(st)
    requires s < |st.sockets| && k.open == st.sockets[s].open
    requires k.setup == st.sockets[s].setup && k.selectWaiting == st.sockets[s].selectWaiting
    ensures var st' := st.(sockets := st.sockets[s := k]);
            ListOk(st') && WalkOk(st') && CountOk(st') && SetupOk(st') && SemOk(st')
  {
    var st' := st.(sockets := st.sockets[s := k]);
    forall j | 0 <= j < |st.sockets| ensures Waiters(st', j) == Waiters(st, j) {
    }
  }

  lemma StoredServed(st: State, c: Cid, s: nat, k: Sock, t: Tid, j: nat)
    requires WakeupOk(st) && s < |st.sockets| && c in st.callbacks && st.callbacks[c].Found?
    requires var st' := st.(sockets := st.sockets[s := k]); Owed(st', t, j)
    ensures Served(st.(sockets := st.sockets[s := k]), c, s, 0, t, j)
  {
    var st' := st.(sockets := st.sockets[s := k]);
    if j != s {
      assert Owed(st, t, j);
      var d :| d in st.callbacks && WillVisit(st, st.callbacks[d], j, t);
      assert WillVisit(st', st'.callbacks[d], j, t);
    }
  }

  lemma StoreUnwatched(st: State, c: Cid, s: nat)
    requires ListOk(st) && WalkOk(st) && CountOk(st) && SetupOk(st) && SemOk(st)
    requires s < |st.sockets| && st.sockets[s].selectWaiting == 0
    requires forall t: Tid, k: nat :: Owed(st, t, k) ==> Served(st, c, s, 0, t, k)
    ensures Inv(Drop(st, c))
  {
    var st' := Drop(st, c);
    Unwatched(st, s);
    forall k | 0 <= k < |st.sockets| ensures Waiters(st', k) == Waiters(st, k) {
    }
    forall t: Tid, k: nat | Owed(st', t, k) ensures Covered(st', k, t) {
      assert Owed(st, t, k) && !Registered(st.callers[t], s);
      var d :| d in st.callbacks && d != c && WillVisit(st, st.callbacks[d], k, t);
      assert WillVisit(st', st'.callbacks[d], k, t);
    }
  }

  lemma StepKeeps(st: State, a: Action)
    requires Inv(st) && Good(st, a)
    ensures Inv(Step(st, a))
  {
    hide Inv, Good, CallStep, ScanStep, JoinStep, IncreaseStep, WakeStep, TimeoutStep, DecreaseStep, LeaveStep;
    hide BeginStep, ResolveStep, ApplyStep, VisitStep, ClaimStep, ResetStep, HandOverStep, CloseStep, LastDataStep;
    match a
    case Call(t, sets, maxfd) => CallKeeps(st, t, sets, maxfd);
    case Scan(t, poll) => ScanKeeps(st, t, poll);
    case Join(t) => JoinKeeps(st, t);
    case Increase(t) => IncreaseKeeps(st, t);
    case Wake(t) => WaitEndKeeps(st, t);
    case Timeout(t) => WaitEndKeeps(st, t);
    case Decrease(t) => DecreaseKeeps(st, t);
    case Leave(t, rescan) => LeaveKeeps(st, t, rescan);
    case Begin(c, s, evt) => BeginKeeps(st, c, s, evt);
    case Resolve(c) => BeginKeeps(st, c, 0, RcvPlus);
    case Apply(c) => ApplyKeeps(st, c);
    case Visit(c) => VisitKeeps(st, c);
    case Claim(s) => OpenKeeps(st, s, false, 0);
    case Reset(s, writable) => OpenKeeps(st, s, writable, 0);
    case HandOver(s, early) => OpenKeeps(st, s, false, early);
    case CloseSocket(s) => CloseKeeps(st, s, false);
    case SetLastData(s, left) => CloseKeeps(st, s, left);
  }

  /** Exactly the steps within the two guards keep the invariant. */
  lemma StepKeepsIffGood(st: State, a: Action)
    requires Inv(st)
    ensures Inv(Step(st, a)) <==> Good(st, a)
  {
    if Good(st, a) {
      StepKeeps(st, a);
    } else {
      BadRaiseBreaks(st, a.t);
      NeedsBoth(Step(st, a));
    }
  }

  /** Every step of the run is within the guards. */
  ghost predicate GoodRun(st: State, run: seq<Action>)
    decreases |run|
  {
    run == [] || (GoodRun(st, run[..|run| - 1]) && Good(Run(st, run[..|run| - 1]), run[|run| - 1]))
  }

  lemma {:induction false} RunKeeps(numSockets: nat, run: seq<Action>)
    requires GoodRun(Initial(numSockets), run)
    ensures Inv(Run(Initial(numSockets), run))
    decreases |run|
  {
    if run == [] {
      var st := Initial(numSockets);
      forall s | 0 <= s < numSockets ensures Waiters(st, s) == {} {
      }
    } else {
      RunKeeps(numSockets, run[..|run| - 1]);
      StepKeeps(Run(Initial(numSockets), run[..|run| - 1]), run[|run| - 1]);
    }
  }

  // ---------------------------------------------------------------------------
  // No lost wake-up
  // ---------------------------------------------------------------------------

  /** Caller `t` sleeps, unsignalled, although an event it asked for is pending on the open socket `s`. */
  predicate SleepsThrough(st: State, t: Tid, s: nat) {
    && t in st.callers && st.callers[t].phase.Waiting? && st.callers[t].sem == 0
    && s < st.callers[t].maxfd && IsOpen(st, s) && Pending(st.callers[t].sets, st.sockets[s], s)
  }

  /** In every interleaving within the guards: when a caller sleeps with its semaphore unsignalled and
      an event it asked for is pending on an open socket, a callback for that socket is walking the
      list and has the caller's entry still before it. */
  lemma NoLostWakeup(numSockets: nat, run: seq<Action>, t: Tid, s: nat)
    requires GoodRun(Initial(numSockets), run)
    requires SleepsThrough(Run(Initial(numSockets), run), t, s)
    ensures var st := Run(Initial(numSockets), run);
            exists c :: c in st.callbacks && WillVisit(st, st.callbacks[c], s, t)
  {
    hide Inv, Run, GoodRun, SleepsThrough, WillVisit;
    RunKeeps(numSockets, run);
    SleeperCovered(Run(Initial(numSockets), run), t, s);
  }

  lemma SleeperCovered(st: State, t: Tid, s: nat)
    requires Inv(st) && SleepsThrough(st, t, s)
    ensures exists c :: c in st.callbacks && WillVisit(st, st.callbacks[c], s, t)
  {
    hide ListOk, WalkOk, CountOk;
    assert OnList(st.callers[t].phase);
    assert Owed(st, t, s);
  }

  /** Once no callback is walking, nobody sleeps through a pending event. */
  lemma QuietMeansServed(numSockets: nat, run: seq<Action>, t: Tid, s: nat)
    requires GoodRun(Initial(numSockets), run)
    requires var st := Run(Initial(numSockets), run);
             && t in st.callers && st.callers[t].phase.Waiting?
             && s < st.callers[t].maxfd && IsOpen(st, s) && Pending(st.callers[t].sets, st.sockets[s], s)
             && forall c :: c in st.callbacks ==> !st.callbacks[c].Walking?
    ensures Run(Initial(numSockets), run).callers[t].sem == 1
  {
    hide Inv, Run, GoodRun, WillVisit;
    RunKeeps(numSockets, run);
    SleeperServed(Run(Initial(numSockets), run), t, s);
  }

  lemma SleeperServed(st: State, t: Tid, s: nat)
    requires Inv(st) && t in st.callers && st.callers[t].phase.Waiting?
    requires s < st.callers[t].maxfd && IsOpen(st, s) && Pending(st.callers[t].sets, st.sockets[s], s)
    requires forall c :: c in st.callbacks ==> !st.callbacks[c].Walking?
    ensures st.callers[t].sem == 1
  {
    hide ListOk, WalkOk, CountOk;
    assert OnList(st.callers[t].phase);
    assert !Covered(st, s, t);
    assert !Owed(st, t, s);
  }

  /** The same callback taking `n` turns in a row. */
  function Visits(st: State, c: Cid, n: nat): State
    decreases n
  {
    if n == 0 then st else Visits(VisitStep(st, c), c, n - 1)
  }

  /** A walk that has the sleeper before it signals it within one pass of the list,
      so the cover promised above is worth something. */
  lemma {:induction false} CoverSignals(st: State, c: Cid, s: nat, t: Tid) returns (n: nat)
    requires Inv(st) && Owed(st, t, s) && c in st.callbacks && WillVisit(st, st.callbacks[c], s, t)
    ensures NextEntry(st, st.callbacks[c]) + n <= |st.list|
    ensures t in Visits(st, c, n).callers && Visits(st, c, n).callers[t].signalled
    decreases |st.list| - NextEntry(st, st.callbacks[c])
  {
    hide Inv, ListOk, WalkOk, Owed, VisitStep, IndexOf;
    var st' := VisitStep(st, c);
    WalkParts(st);
    VisitKeeps(st, c);
    VisitEffect(st, c, s, t);
    assert Visits(st, c, 1) == Visits(st', c, 0) == st';
    if st'.callers[t].signalled {
      n := 1;
    } else {
      var m := CoverSignals(st', c, s, t);
      n := m + 1;
    }
  }

  lemma WalkParts(st: State)
    requires Inv(st)
    ensures ListOk(st) && WalkOk(st)
  {
  }

  /** One turn of a walk that has `t` before it: `t` is signalled, or the walk is one
      entry further and still has `t` before it. */
  lemma VisitEffect(st: State, c: Cid, s: nat, t: Tid)
    requires ListOk(st) && WalkOk(st) && Owed(st, t, s)
    requires c in st.callbacks && WillVisit(st, st.callbacks[c], s, t)
    ensures var st' := VisitStep(st, c);
            && NextEntry(st, st.callbacks[c]) < |st.list| == |st'.list| && t in st'.callers
            && (!st'.callers[t].signalled ==>
                  && c in st'.callbacks && Owed(st', t, s) && WillVisit(st', st'.callbacks[c], s, t)
                  && NextEntry(st', st'.callbacks[c]) == NextEntry(st, st.callbacks[c]) + 1)
  {
    hide WalkOk, Pending, Relies;
    var from := NextEntry(st, st.callbacks[c]);
    assert t in st.list by { OwedOnList(st, t, s); }
    IndexUnique(st.list, from);
    hide ListOk;
    if st.list[from] == t {
      assert VisitStep(st, c).callers[t].signalled;
    } else {
      assert IndexOf(st.list, t) != from;
      var st' := VisitStep(st, c);
      assert st'.callbacks[c] == Walking(s, st.list[from], st.ctr) && st'.callers[t] == st.callers[t];
    }
  }

  lemma OwedOnList(st: State, t: Tid, s: nat)
    requires ListOk(st) && Owed(st, t, s)
    ensures t in st.list
  {
  }

  /** The test of lwip_selscan also counts data left over from a read, which no callback announces.
      Once no callback is walking, a caller that sleeps on although a scan would count a socket is
      kept asleep by such data, and by nothing else. */
  lemma OnlyLeftDataHidden(numSockets: nat, run: seq<Action>, t: Tid, s: nat)
    requires GoodRun(Initial(numSockets), run)
    requires var st := Run(Initial(numSockets), run);
             && t in st.callers && st.callers[t].phase.Waiting? && st.callers[t].sem == 0 && s < st.callers[t].maxfd
             && forall c :: c in st.callbacks ==> !st.callbacks[c].Walking?
    ensures var st := Run(Initial(numSockets), run);
            ReadyCount(st, st.callers[t].sets, s) > 0 <==>
            IsOpen(st, s) && s in st.callers[t].sets.read && st.sockets[s].lastdata
  {
    hide Inv, Run, GoodRun, WillVisit;
    var st := Run(Initial(numSockets), run);
    if IsOpen(st, s) && Pending(st.callers[t].sets, st.sockets[s], s) {
      QuietMeansServed(numSockets, run, t, s);
    }
  }

  // ---------------------------------------------------------------------------
  // What the guards are for
  // ---------------------------------------------------------------------------

  /** A caller sleeps on an open socket whose counter is zero and waits for incoming data: the next
      data event is stored, nobody walks the list, and the caller sleeps on. */
  lemma UncountedSleeperMisses(st: State, t: Tid, s: nat, c: Cid)
    requires t in st.callers && st.callers[t].phase.Waiting? && st.callers[t].sem == 0
    requires s < st.callers[t].maxfd && s in st.callers[t].sets.read
    requires IsOpen(st, s) && st.sockets[s].selectWaiting == 0 && 0 <= st.sockets[s].rcvevent < 0x7fff
    requires c !in st.callbacks
    ensures var st' := Step(Step(Step(st, Begin(c, s, RcvPlus)), Resolve(c)), Apply(c));
            && SleepsThrough(st', t, s) && st'.callers == st.callers
            && forall d :: d in st'.callbacks ==> d in st.callbacks && st'.callbacks[d] == st.callbacks[d]
  {
    var k := st.sockets[s];
    assert S16(k.rcvevent + 1) == k.rcvevent + 1;
    var st1 := BeginStep(st, c, s, RcvPlus);
    var st2 := ResolveStep(st1, c);
    assert st2.callbacks[c] == Found(s, RcvPlus);
  }

  /** A caller sleeps on a socket that is being set up and waits to write: the store that makes the
      socket writable wakes nobody. */
  lemma PrematureSleeperMisses(st: State, t: Tid, s: nat)
    requires t in st.callers && st.callers[t].phase.Waiting? && st.callers[t].sem == 0
    requires s < st.callers[t].maxfd && s in st.callers[t].sets.write
    requires IsOpen(st, s) && st.sockets[s].setup == 3
    ensures var st' := Step(st, Reset(s, true));
            SleepsThrough(st', t, s) && st'.callers == st.callers && st'.callbacks == st.callbacks
  {
  }

  /** A caller sleeps on a socket that accept has not handed over and waits for incoming data: the
      events that came early are added and wake nobody. */
  lemma HandOverMisses(st: State, t: Tid, s: nat, early: nat)
    requires t in st.callers && st.callers[t].phase.Waiting? && st.callers[t].sem == 0
    requires s < st.callers[t].maxfd && s in st.callers[t].sets.read
    requires IsOpen(st, s) && st.sockets[s].setup == 1 && 0 <= st.sockets[s].rcvevent
    requires 0 < early && st.sockets[s].rcvevent + early < 0x8000
    ensures var st' := Step(st, HandOver(s, early));
            SleepsThrough(st', t, s) && st'.callers == st.callers && st'.callbacks == st.callbacks
  {
  }

  /** The steps left in setting up a socket. */
  function RestOfSetup(s: nat, setup: nat, writable: bool, early: nat): seq<Action> {
    seq(setup, i => if i + 1 < setup then Reset(s, writable) else HandOver(s, early))
  }

  /** What the first `n` of them make of it. */
  function Settle(k: Sock, writable: bool, early: nat, n: nat): Sock {
    if n == 0 then k else
      var j := Settle(k, writable, early, n - 1);
      if j.setup > 1 then NextStore(j, writable) else if j.setup == 1 then Received(j, early) else j
  }

  lemma {:induction false} RunSetup(st: State, s: nat, writable: bool, early: nat, n: nat)
    requires s < |st.sockets| && n <= st.sockets[s].setup <= 5
    ensures Run(st, RestOfSetup(s, st.sockets[s].setup, writable, early)[..n])
      == st.(sockets := st.sockets[s := Settle(st.sockets[s], writable, early, n)])
  {
    hide NextStore, Received, Step, Run;
    var k := st.sockets[s];
    var a := RestOfSetup(s, k.setup, writable, early);
    if n == 0 {
      assert a[..n] == [];
      RunNone(st);
    } else {
      RunSetup(st, s, writable, early, n - 1);
      SetupLeft(k, writable, early, n - 1);
      SetupAction(st, s, Settle(k, writable, early, n - 1), writable, early);
      assert a[n - 1] == if n < k.setup then Reset(s, writable) else HandOver(s, early);
      hide RestOfSetup;
      assert a[..n] == a[..n - 1] + [a[n - 1]];
      RunSnoc(st, a[..n - 1], a[n - 1]);
    }
  }

  lemma SetupAction(st: State, s: nat, k: Sock, writable: bool, early: nat)
    requires s < |st.sockets|
    ensures var st' := st.(sockets := st.sockets[s := k]);
            && (k.setup > 1 ==> Step(st', Reset(s, writable)) == st.(sockets := st.sockets[s := NextStore(k, writable)]))
            && (k.setup == 1 ==> Step(st', HandOver(s, early)) == st.(sockets := st.sockets[s := Received(k, early)]))
  {
    hide NextStore, Received;
  }

  /** After `n` of the steps left in setting up `s` the sleeper `t` sleeps through an event. */
  predicate MissesSetup(st: State, t: Tid, s: nat, writable: bool, early: nat, n: nat)
    requires s < |st.sockets|
  {
    && n <= st.sockets[s].setup
    && SleepsThrough(Run(st, RestOfSetup(s, st.sockets[s].setup, writable, early)[..n]), t, s)
  }

  /** Whoever sleeps on a socket that is being set up can sleep through an event that appears in the
      course of it, if and only if a step is left that can make an event appear that is asked for. */
  lemma MissesSetupIff(st: State, t: Tid, s: nat)
    requires t in st.callers && st.callers[t].phase.Waiting? && st.callers[t].sem == 0
    requires s < st.callers[t].maxfd && IsOpen(st, s) && st.sockets[s].setup <= 5
    requires !Pending(st.callers[t].sets, st.sockets[s], s)
    ensures (exists writable: bool, early: nat, n: nat :: MissesSetup(st, t, s, writable, early, n))
      <==> Unsettled(st.callers[t].sets, st.sockets[s], s)
  {
    var f, k := st.callers[t].sets, st.sockets[s];
    hide Run, RestOfSetup, Settle, Pending, Unsettled;
    if Unsettled(f, k, s) {
      var writable, early, n := NewsAppear(f, k, s);
      RunSetup(st, s, writable, early, n);
      SetupLeft(k, writable, early, n);
      assert MissesSetup(st, t, s, writable, early, n);
    } else {
      forall writable: bool, early: nat, n: nat ensures !MissesSetup(st, t, s, writable, early, n) {
        if n <= k.setup {
          RunSetup(st, s, writable, early, n);
          NoNewsAppear(f, k, s, writable, early, n);
        }
      }
    }
  }

  lemma NewsAppear(f: FdSets, k: Sock, s: nat) returns (writable: bool, early: nat, n: nat)
    requires Unsettled(f, k, s) && k.setup <= 5
    ensures n <= k.setup && Pending(f, Settle(k, writable, early, n), s)
  {
    if s in f.write && k.setup >= 3 {
      writable, early, n := true, 0, k.setup - 2;
      StoresUpTo(k, true, 0);
    } else {
      writable, n := false, k.setup;
      early := EarlyAppears(k);
    }
  }

  /** For every count before the hand-over some number of early events makes it positive. */
  lemma EarlyAppears(k: Sock) returns (early: nat)
    requires 1 <= k.setup <= 5
    ensures Settle(k, false, early, k.setup).rcvevent == 1
  {
    hide NextStore;
    var last := Settle(k, false, 0, k.setup - 1);
    early := (1 - last.rcvevent) % 0x10000;
    EarlyNotYet(k, early, k.setup - 1);
    WrapsToOne(last.rcvevent);
  }

  lemma WrapsToOne(x: int)
    ensures S16(x + (1 - x) % 0x10000) == 1
  {
  }

  lemma StoresUpTo(k: Sock, writable: bool, early: nat)
    requires 3 <= k.setup <= 5
    ensures Settle(k, writable, early, k.setup - 2).sendevent == writable
  {
    SetupLeft(k, writable, early, k.setup - 3);
  }

  lemma {:induction false} SetupLeft(k: Sock, writable: bool, early: nat, n: nat)
    requires n <= k.setup <= 5
    ensures Settle(k, writable, early, n).setup == k.setup - n && Settle(k, writable, early, n).open == k.open
  {
    if n == 0 {
    } else {
      SetupLeft(k, writable, early, n - 1);
    }
  }

  lemma {:induction false} EarlyNotYet(k: Sock, early: nat, n: nat)
    requires n < k.setup <= 5
    ensures Settle(k, false, early, n) == Settle(k, false, 0, n) && Settle(k, false, early, n).setup == k.setup - n
  {
    if n == 0 {
    } else {
      EarlyNotYet(k, early, n - 1);
    }
  }

  lemma {:induction false} NoNewsAppear(f: FdSets, k: Sock, s: nat, writable: bool, early: nat, n: nat)
    requires !Unsettled(f, k, s) && !Pending(f, k, s) && n <= k.setup <= 5
    ensures !Unsettled(f, Settle(k, writable, early, n), s) && !Pending(f, Settle(k, writable, early, n), s)
  {
    if n == 0 {
    } else {
      NoNewsAppear(f, k, s, writable, early, n - 1);
    }
  }

  lemma {:induction false} RunAppend(st: State, a: seq<Action>, b: seq<Action>)
    ensures Run(st, a + b) == Run(Run(st, a), b)
    decreases |b|
  {
    if b == [] {
      assert a + b == a;
    } else {
      var l := b[..|b| - 1];
      RunAppend(st, a, l);
      assert (a + b)[..|a + b| - 1] == a + l;
    }
  }

  lemma RunSnoc(st: State, run: seq<Action>, a: Action)
    ensures Run(st, run + [a]) == Step(Run(st, run), a)
  {
    assert (run + [a])[..|run|] == run;
  }

  // A growing crowd of callers that sleep on socket 0

  function CrowdList(n: nat): seq<Tid> {
    if n == 0 then [] else [n - 1] + CrowdList(n - 1)
  }

  function Sleeper(sets: FdSets): Caller {
    Caller(Waiting, sets, 1, false, 0)
  }

  function CrowdCallers(sets: FdSets, n: nat): map<Tid, Caller> {
    if n == 0 then map[] else CrowdCallers(sets, n - 1)[n - 1 := Sleeper(sets)]
  }

  lemma {:induction false} CrowdMembers(sets: FdSets, n: nat)
    ensures forall t: Tid :: t in CrowdCallers(sets, n) <==> t < n
    ensures forall t: Tid :: t < n ==> CrowdCallers(sets, n)[t] == Sleeper(sets)
  {
    if n == 0 {
    } else {
      CrowdMembers(sets, n - 1);
    }
  }

  function Crowd(k: Sock, sets: FdSets, n: nat): State {
    State([k.(selectWaiting := n % 256)], CrowdList(n), n,
          CrowdCallers(sets, n), map[])
  }

  /** While caller number n arrives: its own state, on the list or not, counted or not. */
  function Arriving(k: Sock, sets: FdSets, n: nat, c: Caller, joined: bool, counted: bool): State {
    var st := Crowd(k, sets, n);
    State([k.(selectWaiting := (if counted then n + 1 else n) % 256)], (if joined then [n] else []) + st.list,
          if joined then n + 1 else n, st.callers[n := c], map[])
  }

  /** The steps of a select call up to its sleep. */
  function Arrival(t: Tid, sets: FdSets): seq<Action> {
    [Call(t, sets, 1), Scan(t, false), Scan(t, false), Join(t), Increase(t), Increase(t), Scan(t, false), Scan(t, false)]
  }

  /** Socket 0 is open and has nothing for these sets. */
  predicate Idling(k: Sock, sets: FdSets) {
    k.open && !k.lastdata && Wants(sets, 0) && !Pending(sets, k, 0)
  }

  /** Up to the list. */
  lemma ArrivalFirst(k: Sock, sets: FdSets, n: nat)
    requires Idling(k, sets)
    ensures Run(Crowd(k, sets, n), Arrival(n, sets)[..4])
      == Arriving(k, sets, n, Sleeper(sets).(phase := Increasing(0)), true, false)
  {
    CrowdMembers(sets, n);
    hide CrowdList, CrowdCallers, Pending;
    var st, c, a := Crowd(k, sets, n), Sleeper(sets), Arrival(n, sets);
    assert [] + CrowdList(n) == CrowdList(n);
    var st1 := Arriving(k, sets, n, c.(phase := Scanning(First, 0, 0)), false, false);
    var st2 := Arriving(k, sets, n, c.(phase := Scanning(First, 1, 0)), false, false);
    var st3 := Arriving(k, sets, n, c.(phase := Joining), false, false);
    assert Step(st, a[0]) == st1;
    NothingReady(k, sets, n % 256, st1);
    assert Step(st1, a[1]) == st2;
    assert Step(st2, a[2]) == st3;
    assert Step(st3, a[3]) == Arriving(k, sets, n, c.(phase := Increasing(0)), true, false);
    hide Step;
    RunFour(st, a[..4]);
  }

  lemma NothingReady(k: Sock, sets: FdSets, m: nat, st: State)
    requires Idling(k, sets) && st.sockets == [k.(selectWaiting := m)]
    ensures ReadyCount(st, sets, 0) == 0
  {
  }

  lemma RunFour(st: State, a: seq<Action>)
    requires |a| == 4
    ensures Run(st, a) == Step(Step(Step(Step(st, a[0]), a[1]), a[2]), a[3])
  {
    hide Step;
    assert a == [a[0], a[1], a[2], a[3]];
    RunSnoc(st, [], a[0]);
    RunSnoc(st, [a[0]], a[1]);
    RunSnoc(st, [a[0], a[1]], a[2]);
    RunSnoc(st, [a[0], a[1], a[2]], a[3]);
    assert [] + [a[0]] == [a[0]];
    assert [a[0]] + [a[1]] == [a[0], a[1]];
    assert [a[0], a[1]] + [a[2]] == [a[0], a[1], a[2]];
    assert [a[0], a[1], a[2]] + [a[3]] == a;
  }

  /** And on to sleep, the waiting count being raised on the way. */
  lemma ArrivalLast(k: Sock, sets: FdSets, n: nat)
    requires Idling(k, sets)
    ensures Run(Arriving(k, sets, n, Sleeper(sets).(phase := Increasing(0)), true, false), Arrival(n, sets)[4..])
      == Crowd(k, sets, n + 1)
  {
    CrowdMembers(sets, n);
    hide CrowdList, CrowdCallers, Pending;
    var c, a := Sleeper(sets), Arrival(n, sets)[4..];
    var st0 := Arriving(k, sets, n, c.(phase := Increasing(0)), true, false);
    var st1 := Arriving(k, sets, n, c.(phase := Increasing(1)), true, true);
    var st2 := Arriving(k, sets, n, c.(phase := Scanning(Second, 0, 0)), true, true);
    var st3 := Arriving(k, sets, n, c.(phase := Scanning(Second, 1, 0)), true, true);
    CountUp(n);
    assert Step(st0, a[0]) == st1;
    assert Step(st1, a[1]) == st2;
    NothingReady(k, sets, (n + 1) % 256, st2);
    assert Step(st2, a[2]) == st3;
    assert Step(st3, a[3]) == Arriving(k, sets, n, c, true, true);
    ArrivedIs(k, sets, n);
    hide Step;
    RunFour(st0, a);
  }

  lemma CountUp(n: nat)
    ensures (n % 256 + 1) % 256 == (n + 1) % 256
  {
  }

  lemma ArrivedIs(k: Sock, sets: FdSets, n: nat)
    ensures Arriving(k, sets, n, Sleeper(sets), true, true) == Crowd(k, sets, n + 1)
  {
  }

  /** A crowd of any size comes about, one caller after the other. */
  function CrowdRun(sets: FdSets, n: nat): seq<Action> {
    if n == 0 then [] else CrowdRun(sets, n - 1) + Arrival(n - 1, sets)
  }

  lemma Arrives(k: Sock, sets: FdSets, n: nat)
    requires Idling(k, sets)
    ensures Run(Crowd(k, sets, n), Arrival(n, sets)) == Crowd(k, sets, n + 1)
  {
    hide Crowd, Arriving, Run, Idling;
    ArrivalFirst(k, sets, n);
    ArrivalLast(k, sets, n);
    var a := Arrival(n, sets);
    assert a == a[..4] + a[4..];
    RunAppend(Crowd(k, sets, n), a[..4], a[4..]);
  }

  lemma {:induction false} CrowdGathers(k: Sock, sets: FdSets, n: nat)
    requires Idling(k, sets)
    ensures Run(Crowd(k, sets, 0), CrowdRun(sets, n)) == Crowd(k, sets, n)
  {
    hide Crowd, Arrival, Idling, Run;
    if n == 0 {
      RunNone(Crowd(k, sets, 0));
    } else {
      CrowdGathers(k, sets, n - 1);
      Arrives(k, sets, n - 1);
      RunAppend(Crowd(k, sets, 0), CrowdRun(sets, n - 1), Arrival(n - 1, sets));
    }
  }

  lemma RunNone(st: State)
    ensures Run(st, []) == st
  {
  }

  const READ_ZERO := FdSets({0}, {}, {})
  const WRITE_ZERO := FdSets({}, {0}, {})

  /** The whole setup of a socket, alloc_socket without the hand-over, and its part before the socket
      becomes writable. */
  const OPENING: seq<Action> := ALLOCATED + [HandOver(0, 0)]
  const ALLOCATED: seq<Action> := [Claim(0), Reset(0, false), Reset(0, false), Reset(0, false), Reset(0, false)]
  const HALF_OPEN: seq<Action> := [Claim(0), Reset(0, true), Reset(0, true)]

  /** Two hundred and fifty-six callers sleep on one socket: its counter shows none, and data that
      arrives wakes nobody. */
  lemma TooManyCallersLoseWakeups(t: Tid)
    requires t < 256
    ensures var st := Run(Initial(1), OPENING + CrowdRun(READ_ZERO, 256) + [Begin(0, 0, RcvPlus), Resolve(0), Apply(0)]);
            SleepsThrough(st, t, 0) && st.callbacks == map[]
  {
    var k := Sock(true, 0, false, 0, false, false, 0);
    OpeningRun();
    CrowdGathers(k, READ_ZERO, 256);
    CrowdMisses(k, t);
    hide CrowdRun, Crowd, SleepsThrough, Step, Run;
    var a, b, c := OPENING, CrowdRun(READ_ZERO, 256), [Begin(0, 0, RcvPlus), Resolve(0), Apply(0)];
    RunAppend(Initial(1), a, b);
    RunAppend(Initial(1), a + b, c);
    RunThree(Crowd(k, READ_ZERO, 256), c);
  }

  lemma CrowdMisses(k: Sock, t: Tid)
    requires k.open && k.rcvevent == 0 && t < 256
    ensures var st := Step(Step(Step(Crowd(k, READ_ZERO, 256), Begin(0, 0, RcvPlus)), Resolve(0)), Apply(0));
            SleepsThrough(st, t, 0) && st.callbacks == map[]
  {
    CrowdMembers(READ_ZERO, 256);
    hide CrowdCallers, CrowdList;
    var st := Crowd(k, READ_ZERO, 256);
    hide Step, SleepsThrough;
    UncountedSleeperMisses(st, t, 0, 0);
  }

  lemma RunThree(st: State, a: seq<Action>)
    requires |a| == 3
    ensures Run(st, a) == Step(Step(Step(st, a[0]), a[1]), a[2])
  {
    hide Step;
    assert a == [a[0], a[1], a[2]];
    RunSnoc(st, [], a[0]);
    RunSnoc(st, [a[0]], a[1]);
    RunSnoc(st, [a[0], a[1]], a[2]);
    assert [] + [a[0]] == [a[0]];
    assert [a[0]] + [a[1]] == [a[0], a[1]];
    assert [a[0], a[1]] + [a[2]] == a;
  }

  lemma OpeningRun()
    ensures Run(Initial(1), OPENING) == Crowd(Sock(true, 0, false, 0, false, false, 0), READ_ZERO, 0)
  {
    AllocatedRun();
    RunSnoc(Initial(1), ALLOCATED, HandOver(0, 0));
    hide Run;
  }

  lemma AllocatedRun()
    ensures Run(Initial(1), ALLOCATED) == Crowd(Sock(true, 1, false, 0, false, false, 0), READ_ZERO, 0)
  {
    var st := Initial(1);
    assert st.sockets == [Sock(false, 0, false, 0, false, false, 0)];
    assert ALLOCATED == ALLOCATED[..4] + [ALLOCATED[4]];
    RunSnoc(st, ALLOCATED[..4], ALLOCATED[4]);
    RunFour(st, ALLOCATED[..4]);
    hide Run;
  }

  /** A caller that names a socket after alloc_socket and before accept has handed it over: the event
      that came early is added and wakes nobody. */
  lemma EarlyEventLosesWakeup()
    ensures var st := Run(Initial(1), ALLOCATED + CrowdRun(READ_ZERO, 1) + [HandOver(0, 1)]);
            SleepsThrough(st, 0, 0) && st.callbacks == map[] && st.sockets[0].setup == 0
  {
    var k := Sock(true, 1, false, 0, false, false, 0);
    AllocatedRun();
    CrowdGathers(k, READ_ZERO, 1);
    CrowdMembers(READ_ZERO, 1);
    hide CrowdRun, CrowdCallers, CrowdList, Run;
    var a, b := ALLOCATED, CrowdRun(READ_ZERO, 1);
    RunAppend(Initial(1), a, b);
    RunSnoc(Initial(1), a + b, HandOver(0, 1));
    HandOverMisses(Crowd(k, READ_ZERO, 1), 0, 0, 1);
  }

  /** A caller that names a socket within alloc_socket: the store that makes the socket writable
      wakes nobody. */
  lemma PrematureCallerLosesWakeup()
    ensures var st := Run(Initial(1), HALF_OPEN + CrowdRun(WRITE_ZERO, 1) + [Reset(0, true)]);
            SleepsThrough(st, 0, 0) && st.callbacks == map[]
  {
    var k := Sock(true, 3, false, 0, false, false, 0);
    HalfOpenRun();
    CrowdGathers(k, WRITE_ZERO, 1);
    CrowdMembers(WRITE_ZERO, 1);
    hide CrowdRun, CrowdCallers, CrowdList, Run;
    var a, b := HALF_OPEN, CrowdRun(WRITE_ZERO, 1);
    RunAppend(Initial(1), a, b);
    RunSnoc(Initial(1), a + b, Reset(0, true));
    PrematureSleeperMisses(Crowd(k, WRITE_ZERO, 1), 0, 0);
  }

  /** A reader takes the only data of socket 0 and keeps what it did not ask for. The caller scans after
      the receive event has been counted down and before the rest is stored. */
  const READING: seq<Action> :=
    [Begin(0, 0, RcvPlus), Resolve(0), Apply(0), Begin(0, 0, RcvMinus), Resolve(0), Apply(0)]

  lemma LeftDataUnseen()
    ensures var st := Run(Initial(1), OPENING + READING + CrowdRun(READ_ZERO, 1) + [SetLastData(0, true)]);
            && st.callers == map[0 := Sleeper(READ_ZERO)] && st.callbacks == map[]
            && ReadyCount(st, READ_ZERO, 0) == 1
  {
    var k := Sock(true, 0, false, 0, false, false, 0);
    OpeningRun();
    ReadingRun();
    CrowdGathers(k, READ_ZERO, 1);
    LeftDataMisses(k);
    hide CrowdRun, Crowd, Run, Step, Sleeper, ReadyCount;
    var a, b, c := OPENING, READING, CrowdRun(READ_ZERO, 1);
    RunAppend(Initial(1), a, b);
    RunAppend(Initial(1), a + b, c);
    RunSnoc(Initial(1), a + b + c, SetLastData(0, true));
  }

  lemma LeftDataMisses(k: Sock)
    requires k.open && k.rcvevent <= 0
    ensures var st := Step(Crowd(k, READ_ZERO, 1), SetLastData(0, true));
            && st.callers == map[0 := Sleeper(READ_ZERO)] && st.callbacks == map[]
            && ReadyCount(st, READ_ZERO, 0) == 1
  {
    assert CrowdCallers(READ_ZERO, 1) == map[0 := Sleeper(READ_ZERO)];
  }

  lemma ReadingRun()
    ensures var st := Crowd(Sock(true, 0, false, 0, false, false, 0), READ_ZERO, 0); Run(st, READING) == st
  {
    var st := Crowd(Sock(true, 0, false, 0, false, false, 0), READ_ZERO, 0);
    RunThree(st, READING[..3]);
    var st1 := st.(sockets := [st.sockets[0].(rcvevent := 1)]);
    assert Run(st, READING[..3]) == st1 by { StoreAlone(st, RcvPlus); }
    RunThree(st1, READING[3..]);
    assert Run(st1, READING[3..]) == st by { StoreAlone(st1, RcvMinus); }
    assert READING == READING[..3] + READING[3..];
    RunAppend(st, READING[..3], READING[3..]);
  }

  /** A whole callback for socket 0 while nobody waits. */
  lemma StoreAlone(st: State, evt: Event)
    requires |st.sockets| == 1 && st.sockets[0].open && st.sockets[0].selectWaiting == 0 && st.callbacks == map[]
    ensures Step(Step(Step(st, Begin(0, 0, evt)), Resolve(0)), Apply(0)) == st.(sockets := [Store(st.sockets[0], evt)])
  {
    var st1 := BeginStep(st, 0, 0, evt);
    assert ResolveStep(st1, 0) == st.(callbacks := map[0 := Found(0, evt)]);
  }

  lemma HalfOpenRun()
    ensures Run(Initial(1), HALF_OPEN) == Crowd(Sock(true, 3, false, 0, false, false, 0), WRITE_ZERO, 0)
  {
    var st := Initial(1);
    assert st.sockets == [Sock(false, 0, false, 0, false, false, 0)];
    RunThree(st, HALF_OPEN);
    hide Run;
  }
}
