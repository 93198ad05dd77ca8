/**
  Hand-over of early receive events when a connection is accepted.

  Data can arrive for a connection before `lwip_accept` has given it a socket.
  The callback then counts down the negative socket number of the connection, and
  accept moves that count into the new socket. Each protected section, and each
  unprotected read that decides a branch, is one atomic step; callbacks for the
  connection may overlap in any way.
 */
module AcceptHandoff {

  type Cid = nat

  datatype Event = RcvPlus | RcvMinus

  /** A callback: not started, seen a negative socket number, or past the lookup. */
  datatype Callback = Started(evt: Event) | SawNegative(evt: Event) | HasSocket(evt: Event)

  /** Progress of lwip_accept: before alloc_socket, after it, and after the hand-over. */
  datatype Progress = Waiting | Allocated | Installed

  /** `plus` and `minus` count the callbacks begun, `received` and `consumed` those
      whose event has been stored. */
  datatype State = State(progress: Progress, connSocket: int, rcvevent: int, callbacks: map<Cid, Callback>,
                         plus: nat, minus: nat, received: nat, consumed: nat)

  datatype Action =
    | Begin(c: Cid, evt: Event)
    | ReadNumber(c: Cid)
    | Recheck(c: Cid)
    | Store(c: Cid)
    | Alloc
    | Install(newsock: nat)

  /** Conversion to the 16-bit signed type of the counter. */
  function ToS16(x: int): (r: int)
    ensures -0x8000 <= r < 0x8000
  {
    (x + 0x8000) % 0x10000 - 0x8000
  }

  function Drop(st: State, c: Cid): map<Cid, Callback> {
    st.callbacks - {c}
  }

  /** The application reads from the connection only after accept has returned it. */
  function BeginStep(st: State, c: Cid, evt: Event): State {
    if c in st.callbacks || (evt == RcvMinus && !st.progress.Installed?) then st
    else if evt == RcvPlus then st.(callbacks := st.callbacks[c := Started(evt)], plus := st.plus + 1)
    else st.(callbacks := st.callbacks[c := Started(evt)], minus := st.minus + 1)
  }

  function ReadNumberStep(st: State, c: Cid): State {
    if c !in st.callbacks || !st.callbacks[c].Started? then st
    else
      var evt := st.callbacks[c].evt;
      st.(callbacks := st.callbacks[c := if st.connSocket < 0 then SawNegative(evt) else HasSocket(evt)])
  }

  function RecheckStep(st: State, c: Cid): State {
    if c !in st.callbacks || !st.callbacks[c].SawNegative? then st
    else if st.connSocket >= 0 then
      st.(callbacks := st.callbacks[c := HasSocket(st.callbacks[c].evt)])
    else if st.callbacks[c].evt == RcvPlus then
      st.(connSocket := st.connSocket - 1, callbacks := Drop(st, c), received := st.received + 1)
    else st.(callbacks := Drop(st, c))
  }

  function StoreStep(st: State, c: Cid): State {
    if c !in st.callbacks || !st.callbacks[c].HasSocket? then st
    else if st.callbacks[c].evt == RcvPlus then
      st.(rcvevent := ToS16(st.rcvevent + 1), callbacks := Drop(st, c), received := st.received + 1)
    else
      st.(rcvevent := ToS16(st.rcvevent - 1), callbacks := Drop(st, c), consumed := st.consumed + 1)
  }

  function AllocStep(st: State): State {
    if st.progress.Waiting? then st.(progress := Allocated, rcvevent := 0) else st
  }

  function InstallStep(st: State, newsock: nat): State {
    if st.progress.Allocated? then
      st.(progress := Installed, rcvevent := ToS16(st.rcvevent + ToS16(-1 - st.connSocket)), connSocket := newsock)
    else st
  }

  function Step(st: State, a: Action): State {
    match a
    case Begin(c, evt) => BeginStep(st, c, evt)
    case ReadNumber(c) => ReadNumberStep(st, c)
    case Recheck(c) => RecheckStep(st, c)
    case Store(c) => StoreStep(st, c)
    case Alloc => AllocStep(st)
    case Install(newsock) => InstallStep(st, newsock)
  }

  function Run(st: State, run: seq<Action>): State {
    if run == [] then st else Step(Run(st, run[..|run| - 1]), run[|run| - 1])
  }

  /** netconn_alloc marks the connection with socket number -1; the field of the
      socket slot still holds what its last user left there. */
  function Initial(garbage: int): State {
    State(Waiting, -1, garbage, map[], 0, 0, 0, 0)
  }

  /** The count kept in the negative socket number. */
  function Early(st: State): int {
    if st.connSocket < 0 then -1 - st.connSocket else 0
  }

  /** What the socket layer knows of the connection's pending receive events. */
  function Counted(st: State): int {
    (if st.progress.Waiting? then 0 else st.rcvevent) + Early(st)
  }

  ghost function InFlight(st: State, evt: Event): set<Cid> {
    set c | c in st.callbacks && st.callbacks[c].evt == evt
  }

  ghost predicate Inv(st: State) {
    && (st.progress.Installed? <==> st.connSocket >= 0)
    && (st.progress.Allocated? ==> st.rcvevent == 0)
    && (if st.progress.Installed? then st.rcvevent == ToS16(st.received - st.consumed)
        else Early(st) == st.received && st.consumed == 0 && st.minus == 0)
    && (forall c :: c in st.callbacks && st.callbacks[c].HasSocket? ==> st.progress.Installed?)
    && st.plus == st.received + |InFlight(st, RcvPlus)|
    && st.minus == st.consumed + |InFlight(st, RcvMinus)|
  }

  /** 16-bit additions may be done in any order. */
  lemma ToS16Add(x: int, y: int)
    ensures ToS16(ToS16(x) + y) == ToS16(x + y)
  {
    var k := (x + 0x8000) / 0x10000;
    assert x + 0x8000 == 0x10000 * k + (x + 0x8000) % 0x10000;
    assert x + y + 0x8000 == (ToS16(x) + y + 0x8000) + 0x10000 * k;
    ModShift(ToS16(x) + y + 0x8000, k);
  }

  lemma ModShift(z: int, k: int)
    ensures (z + 0x10000 * k) % 0x10000 == z % 0x10000
  {
  }

  lemma DropInFlight(st: State, c: Cid)
    requires c in st.callbacks
    ensures var st' := st.(callbacks := Drop(st, c));
            forall e :: InFlight(st', e) == InFlight(st, e) - {c}
    ensures c in InFlight(st, st.callbacks[c].evt)
    ensures forall e :: e != st.callbacks[c].evt ==> c !in InFlight(st, e)
  {
  }

  /** A step that starts or ends no callback. */
  lemma SameInFlight(st: State, st': State)
    requires forall c :: c in st'.callbacks <==> c in st.callbacks
    requires forall c :: c in st.callbacks ==> st'.callbacks[c].evt == st.callbacks[c].evt
    ensures forall e :: InFlight(st', e) == InFlight(st, e)
  {
  }

  lemma AddInFlight(st: State, st': State, c: Cid, evt: Event)
    requires c !in st.callbacks && st'.callbacks == st.callbacks[c := Started(evt)]
    ensures InFlight(st', evt) == InFlight(st, evt) + {c} && c !in InFlight(st, evt)
    ensures forall e :: e != evt ==> InFlight(st', e) == InFlight(st, e)
  {
  }

  lemma BeginKeeps(st: State, c: Cid, evt: Event)
    requires Inv(st)
    ensures Inv(BeginStep(st, c, evt))
  {
    hide ToS16, InFlight;
    var st' := BeginStep(st, c, evt);
    if st' != st {
      AddInFlight(st, st', c, evt);
      assert InFlight(st', if evt == RcvPlus then RcvMinus else RcvPlus)
          == InFlight(st, if evt == RcvPlus then RcvMinus else RcvPlus);
    }
  }

  lemma NoneInFlight(st: State, evt: Event, c: Cid)
    requires |InFlight(st, evt)| == 0 && c in st.callbacks
    ensures st.callbacks[c].evt != evt
  {
    assert InFlight(st, evt) == {};
    assert c !in InFlight(st, evt);
  }

  lemma RecheckKeeps(st: State, c: Cid)
    requires Inv(st)
    ensures Inv(RecheckStep(st, c))
  {
    hide ToS16, InFlight;
    var st' := RecheckStep(st, c);
    if c in st.callbacks && st.callbacks[c].SawNegative? {
      if st.connSocket >= 0 {
        SameInFlight(st, st');
      } else {
        NoneInFlight(st, RcvMinus, c);
        DropInFlight(st, c);
        SameInFlight(st.(callbacks := Drop(st, c)), st');
      }
    }
  }

  lemma StoreKeeps(st: State, c: Cid)
    requires Inv(st)
    ensures Inv(StoreStep(st, c))
  {
    hide ToS16, InFlight;
    if c in st.callbacks && st.callbacks[c].HasSocket? {
      DropInFlight(st, c);
      SameInFlight(st.(callbacks := Drop(st, c)), StoreStep(st, c));
      ToS16Add(st.received - st.consumed, if st.callbacks[c].evt == RcvPlus then 1 else -1);
    }
  }

  lemma StepKeeps(st: State, a: Action)
    requires Inv(st)
    ensures Inv(Step(st, a))
  {
    match a {
      case Begin(c, evt) =>
        BeginKeeps(st, c, evt);
      case ReadNumber(c) =>
        SameInFlight(st, Step(st, a));
      case Recheck(c) =>
        RecheckKeeps(st, c);
      case Store(c) =>
        StoreKeeps(st, c);
      case Alloc =>
        SameInFlight(st, Step(st, a));
      case Install(newsock) =>
        SameInFlight(st, Step(st, a));
        ToS16Add(Early(st), 0);
    }
  }

  lemma {:induction false} RunKeeps(garbage: int, run: seq<Action>)
    ensures Inv(Run(Initial(garbage), run))
    decreases |run|
  {
    if run == [] {
      assert forall e :: InFlight(Initial(garbage), e) == {};
    } else {
      RunKeeps(garbage, run[..|run| - 1]);
      StepKeeps(Run(Initial(garbage), run[..|run| - 1]), run[|run| - 1]);
    }
  }

  /** In every interleaving no receive event is lost or counted twice: the count of
      the socket plus the count in the negative number is events received minus
      events consumed. Once the count lives in the 16-bit field this is so exactly
      while the difference fits that field. */
  lemma CountIsExact(garbage: int, run: seq<Action>)
    ensures var st := Run(Initial(garbage), run);
            Counted(st) == st.received - st.consumed <==>
            (st.progress.Installed? ==> -0x8000 <= st.received - st.consumed < 0x8000)
  {
    RunKeeps(garbage, run);
  }

  /** When no callback is under way every event begun has been counted once. */
  lemma QuietCount(garbage: int, run: seq<Action>)
    requires var st := Run(Initial(garbage), run);
             st.callbacks == map[] && -0x8000 <= st.plus - st.minus < 0x8000
    ensures var st := Run(Initial(garbage), run);
            Counted(st) == st.plus - st.minus
  {
    RunKeeps(garbage, run);
    var st := Run(Initial(garbage), run);
    assert forall e :: InFlight(st, e) == {};
  }
}
