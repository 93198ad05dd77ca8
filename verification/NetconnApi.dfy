/**
  API messages against TCP callbacks on one TCP connection of the netconn layer.

  Handlers and callbacks run one after the other in the TCP/IP thread; each is one
  step. The state of TCP and what its functions answer are parameters of the step;
  `tcp_close` and `tcp_shutdown` are modelled, the others may answer anything. Core
  locking, full duplex, send timeout and linger are off.
 */
module NetconnApi {

  import opened Basics

  type Byte = bv8

  datatype Err = Ok | Mem | Buf | Timeout | Rte | InProgress | Val | WouldBlock | Use | Already
               | IsConn | Conn | If | Abrt | Rst | Clsd | Arg

  predicate Fatal(e: Err) {
    e.Abrt? || e.Rst? || e.Clsd? || e.Arg?
  }

  datatype State = Idle | Writing | Listening | Connecting | Closing

  datatype Body =
    | WriteBody(data: seq<Byte>, dontblock: bool)
    | CloseBody(rx: bool, tx: bool, polls: nat)
    | DeleteBody(polls: nat)
    | ConnectBody
    | ListenBody
    | OtherBody

  datatype Msg = Msg(id: nat, body: Body)

  /** The signal to the waiting caller. For a write: the length reported, the bytes given
      to TCP and whether the last attempt was a blocking one. */
  datatype Ack = Ack(id: nat, err: Err, reported: nat, handed: seq<Byte>, blocking: bool)

  datatype PcbState = Closed | Listen | SynSent | SynRcvd | Established | FinWait1 | FinWait2
                    | CloseWait | BothClosing | LastAck | TimeWait

  /** TCP during one step: the state of the pcb, whether its receiving side is closed, whether
      the segment for a FIN cannot be had, and what the other functions answer. */
  datatype Tcp = Tcp(pcbState: PcbState, rxClosed: bool, noMemory: bool, sndbuf: nat, writeErr: Err, outputErr: Err,
                     connectErr: Err, listenErr: Err, mboxErr: Err, otherErr: Err)

  /** The callback pointers that are set in the pcb. */
  datatype Hooks = Hooks(arg: bool, sent: bool, poll: bool, err: bool)

  const SETUP := Hooks(true, true, true, true)

  /** The connection, the message it works on, and the record of all messages and signals. */
  datatype Netconn = Netconn(state: State, current: Option<Msg>, pcb: bool, hooks: Hooks, connectingNonblocking: bool,
                             nonblocking: bool, lastErr: Err, writeOffset: nat, handed: seq<Byte>, pollsLeft: nat,
                             msgs: seq<Body>, acks: seq<Ack>)

  datatype Action =
    | Send(body: Body, tcp: Tcp)
    | Poll(tcp: Tcp)
    | Sent(tcp: Tcp)
    | ErrTcp(err: Err)
    | Connected(err: Err)
    | SetNonblocking(on: bool)

  // ---------------------------------------------------------------------------
  // Handlers and callbacks
  // ---------------------------------------------------------------------------

  /** NETCONN_SET_SAFE_ERR: fatal errors stay. */
  function SafeErr(c: Netconn, e: Err): Netconn {
    if Fatal(c.lastErr) then c else c.(lastErr := e)
  }

  /** TCPIP_APIMSG_ACK. */
  function AckMsg(c: Netconn, m: Msg, e: Err): Netconn {
    SafeErr(c, e).(acks := c.acks + [Ack(m.id, e, 0, [], false)])
  }

  /** The end of a parked operation: release the connection and signal the caller. */
  function Finish(c: Netconn, m: Msg, a: Ack): Netconn {
    SafeErr(c, a.err).(state := Idle, current := None, acks := c.acks + [a])
  }

  function Min(a: nat, b: nat): nat {
    if a < b then a else b
  }

  /** How one attempt to write goes on: the offset and the bytes handed over after it, and
      the signal if the write is finished. */
  datatype Attempt = Attempt(offset: nat, handed: seq<Byte>, end: Option<Ack>)

  function WriteAttempt(c: Netconn, m: Msg, tcp: Tcp): Attempt
    requires m.body.WriteBody? && c.writeOffset <= |m.body.data|
  {
    var data := m.body.data;
    var blocking := !(c.nonblocking || m.body.dontblock);
    var wanted := Min(|data| - c.writeOffset, 0xffff);
    var len := if tcp.sndbuf < wanted then tcp.sndbuf else wanted;
    if tcp.sndbuf < wanted && !blocking && len == 0 then
      Attempt(c.writeOffset, c.handed, Some(Ack(m.id, WouldBlock, 0, c.handed, blocking)))
    else if tcp.writeErr == Ok then
      var offset := c.writeOffset + len;
      var handed := c.handed + data[c.writeOffset..offset];
      Attempt(offset, handed,
        if Fatal(tcp.outputErr) || tcp.outputErr == Rte then Some(Ack(m.id, tcp.outputErr, 0, handed, blocking))
        else if offset == |data| || !blocking then Some(Ack(m.id, Ok, offset, handed, blocking))
        else None)
    else
      Attempt(c.writeOffset, c.handed,
        if tcp.writeErr != Mem then Some(Ack(m.id, tcp.writeErr, 0, c.handed, blocking))
        else if Fatal(tcp.outputErr) || tcp.outputErr == Rte then Some(Ack(m.id, tcp.outputErr, 0, c.handed, blocking))
        else if !blocking then Some(Ack(m.id, WouldBlock, 0, c.handed, blocking))
        else None)
  }

  /** lwip_netconn_do_writemore: hand the next piece to TCP. */
  function WriteMore(c: Netconn, m: Msg, tcp: Tcp): Netconn
    requires m.body.WriteBody? && c.writeOffset <= |m.body.data|
  {
    var t := WriteAttempt(c, m, tcp);
    match t.end
    case Some(a) => Finish(c.(writeOffset := 0, handed := t.handed), m, a)
    case None => c.(writeOffset := t.offset, handed := t.handed)
  }

  predicate ShutRx(body: Body) {
    body.DeleteBody? || (body.CloseBody? && body.rx)
  }

  predicate ShutTx(body: Body) {
    body.DeleteBody? || (body.CloseBody? && body.tx)
  }

  /** Shutting down both directions closes the connection, and so does one when the other is down. */
  predicate FullClose(body: Body, tcp: Tcp) {
    || (ShutRx(body) && ShutTx(body))
    || (ShutRx(body) && (tcp.pcbState == FinWait1 || tcp.pcbState == FinWait2 || tcp.pcbState == BothClosing))
    || (ShutTx(body) && tcp.rxClosed)
  }

  /** The states in which a FIN has to be queued. */
  predicate SendsFin(s: PcbState) {
    s == SynRcvd || s == Established || s == CloseWait
  }

  /** tcp_close: it fails only for want of memory. */
  function TcpClose(tcp: Tcp): Err {
    if SendsFin(tcp.pcbState) && tcp.noMemory then Mem else Ok
  }

  /** tcp_shutdown: the sending side can be shut down only once connected. */
  function TcpShutdown(tcp: Tcp, rx: bool, tx: bool): Err {
    if tcp.pcbState == Listen then Conn
    else if rx && tx then TcpClose(tcp)
    else if tx then (if SendsFin(tcp.pcbState) then TcpClose(tcp) else Conn)
    else Ok
  }

  function CloseErr(body: Body, tcp: Tcp): Err {
    if FullClose(body, tcp) then TcpClose(tcp) else TcpShutdown(tcp, ShutRx(body), ShutTx(body))
  }

  /** The callback pointers are set back before the attempt ... */
  function Unhook(h: Hooks, body: Body, tcp: Tcp): Hooks {
    var close := FullClose(body, tcp);
    if tcp.pcbState == Listen then h.(arg := h.arg && !close)
    else Hooks(h.arg && !close, h.sent && !ShutTx(body), h.poll && !close, h.err && !close)
  }

  /** ... and restored while waiting for the next one. */
  function Rehook(h: Hooks, body: Body): Hooks {
    Hooks(true, h.sent || ShutTx(body), true, true)
  }

  /** lwip_netconn_do_close_internal: one attempt to close or shut down. */
  function CloseInternal(c: Netconn, m: Msg, tcp: Tcp): Netconn {
    var close, answer := FullClose(m.body, tcp), CloseErr(m.body, tcp);
    var h := Unhook(c.hooks, m.body, tcp);
    if answer == Mem && c.pollsLeft > 0 then c.(hooks := Rehook(h, m.body))
    else
      var err := if answer == Mem && close then Ok else answer;
      Finish(c.(hooks := h), m, Ack(m.id, err, 0, [], false)).(pcb := c.pcb && !(close && err == Ok))
  }

  function WriteStep(c: Netconn, m: Msg, tcp: Tcp): Netconn
    requires m.body.WriteBody?
  {
    if Fatal(c.lastErr) then AckMsg(c, m, c.lastErr)
    else if c.state != Idle then AckMsg(c, m, InProgress)
    else if c.pcb then WriteMore(c.(state := Writing, current := Some(m), writeOffset := 0, handed := []), m, tcp)
    else AckMsg(c, m, Conn)
  }

  function CloseStep(c: Netconn, m: Msg, tcp: Tcp): Netconn
    requires m.body.CloseBody?
  {
    if c.pcb && ((m.body.rx && m.body.tx) || c.state != Listening) then
      if c.state == Connecting then AckMsg(c, m, Conn)
      else if c.state == Writing then AckMsg(c, m, InProgress)
      else CloseInternal(c.(state := Closing, current := Some(m), pollsLeft := m.body.polls), m, tcp)
    else AckMsg(c, m, Conn)
  }

  function DeleteStep(c: Netconn, m: Msg, tcp: Tcp): Netconn
    requires m.body.DeleteBody?
  {
    if c.state == Writing || c.state == Closing || (c.state == Connecting && !c.connectingNonblocking) then
      AckMsg(c, m, InProgress)
    else if c.pcb then
      CloseInternal(c.(state := Closing, current := Some(m), pollsLeft := m.body.polls), m, tcp)
    else AckMsg(c, m, Ok)
  }

  function ConnectStep(c: Netconn, m: Msg, tcp: Tcp): Netconn {
    if !c.pcb then AckMsg(c, m, Clsd)
    else if c.state == Connecting then AckMsg(c, m, Already)
    else if c.state != Idle then AckMsg(c, m, IsConn)
    else
      var c' := c.(hooks := SETUP);
      if tcp.connectErr != Ok then AckMsg(c', m, tcp.connectErr)
      else if c.nonblocking then AckMsg(c'.(state := Connecting, connectingNonblocking := true), m, InProgress)
      else c'.(state := Connecting, connectingNonblocking := false, current := Some(m))
  }

  function ListenStep(c: Netconn, m: Msg, tcp: Tcp): Netconn {
    if Fatal(c.lastErr) then AckMsg(c, m, c.lastErr)
    else if !c.pcb || (c.state != Idle && c.state != Listening) then AckMsg(c, m, Conn)
    else if c.state == Listening then AckMsg(c, m, Ok)
    else if tcp.listenErr != Ok then AckMsg(c, m, tcp.listenErr)
    else if tcp.mboxErr != Ok then AckMsg(c.(pcb := false), m, tcp.mboxErr)
    else AckMsg(c.(state := Listening, hooks := Hooks(true, false, false, false)), m, Ok)
  }

  /** A message reaches the TCP/IP thread. A write carries at least one byte. */
  function Handle(c: Netconn, body: Body, tcp: Tcp): Netconn {
    if body.WriteBody? && body.data == [] then c else
      var m := Msg(|c.msgs|, body);
      var c' := c.(msgs := c.msgs + [body]);
      match body
      case WriteBody(_, _) => WriteStep(c', m, tcp)
      case CloseBody(_, _, _) => CloseStep(c', m, tcp)
      case DeleteBody(_) => DeleteStep(c', m, tcp)
      case ConnectBody => ConnectStep(c', m, tcp)
      case ListenBody => ListenStep(c', m, tcp)
      case OtherBody => AckMsg(c', m, tcp.otherErr)
  }

  /** The common part of poll_tcp and sent_tcp. */
  function Continue(c: Netconn, tcp: Tcp): Netconn {
    if c.pcb && c.current.Some? then
      var m := c.current.value;
      if c.state == Writing && m.body.WriteBody? && c.writeOffset <= |m.body.data| then WriteMore(c, m, tcp)
      else if c.state == Closing then CloseInternal(c, m, tcp)
      else c
    else c
  }

  function PollStep(c: Netconn, tcp: Tcp): Netconn {
    Continue(if c.pcb && c.state == Closing && c.current.Some? && c.pollsLeft > 0
             then c.(pollsLeft := c.pollsLeft - 1) else c, tcp)
  }

  /** The start of err_tcp: the pcb is gone, and the error is kept unless a close was under way. */
  function Lost(c: Netconn, err: Err): Netconn {
    (if c.state == Closing then SafeErr(c, Ok) else c.(lastErr := err)).(pcb := false, state := Idle)
  }

  /** The end of err_tcp: whoever waits is told. */
  function WakeWaiter(c: Netconn, err: Err): Netconn {
    var c' := c.(connectingNonblocking := false);
    if c.connectingNonblocking || c.current.None? then c'
    else SafeErr(c', err).(current := None, acks := c.acks + [Ack(c.current.value.id, err, 0, c.handed, false)])
  }

  /** err_tcp: TCP has given up the connection, for some error. */
  function ErrStep(c: Netconn, err: Err): Netconn {
    if !c.pcb || !c.hooks.err || err == Ok then c
    else if c.state == Writing || c.state == Closing || c.state == Connecting then
      WakeWaiter(Lost(c, err), if c.state == Closing then Ok else err)
    else Lost(c, err)
  }

  /** lwip_netconn_do_connected: called once for a pcb that was connecting. */
  function ConnectedStep(c: Netconn, err: Err): Netconn {
    if !c.pcb || !(c.state == Connecting || c.connectingNonblocking) then c else
      var c1 := SafeErr(c, Ok).(connectingNonblocking := false, current := None, state := Idle);
      if c.connectingNonblocking || c.current.None? then c1
      else c1.(acks := c.acks + [Ack(c.current.value.id, err, 0, [], false)])
  }

  function Step(c: Netconn, a: Action): Netconn {
    match a
    case Send(body, tcp) => Handle(c, body, tcp)
    case Poll(tcp) => if c.hooks.poll then PollStep(c, tcp) else c
    case Sent(tcp) => if c.hooks.sent then Continue(c, tcp) else c
    case ErrTcp(err) => ErrStep(c, err)
    case Connected(err) => ConnectedStep(c, err)
    case SetNonblocking(on) => c.(nonblocking := on)
  }

  function Initial(): Netconn {
    Netconn(Idle, None, true, SETUP, false, false, Ok, 0, [], 0, [], [])
  }

  function Run(c: Netconn, run: seq<Action>): Netconn {
    if run == [] then c else Step(Run(c, run[..|run| - 1]), run[|run| - 1])
  }

  // ---------------------------------------------------------------------------
  // The invariant
  // ---------------------------------------------------------------------------

  function Count(acks: seq<Ack>, id: nat): nat {
    if acks == [] then 0
    else Count(acks[..|acks| - 1], id) + if acks[|acks| - 1].id == id then 1 else 0
  }

  /** An operation is under way that ends in a later callback. */
  predicate Parked(c: Netconn) {
    c.state == Writing || c.state == Closing || (c.state == Connecting && !c.connectingNonblocking)
  }

  predicate Fits(state: State, body: Body) {
    match state
    case Writing => body.WriteBody?
    case Closing => body.CloseBody? || body.DeleteBody?
    case Connecting => body.ConnectBody?
    case _ => false
  }

  ghost predicate ParkedOk(c: Netconn) {
    && (c.current.Some? <==> Parked(c))
    && (c.connectingNonblocking && c.pcb ==> c.state == Connecting)
    && (c.state != Idle ==> c.pcb)
    && (c.current.Some? ==> c.current.value.id < |c.msgs| && c.msgs[c.current.value.id] == c.current.value.body)
    && (c.pcb && c.state != Writing ==> c.writeOffset == 0)
    && (c.state == Closing ==> c.pollsLeft > 0)
    && (c.current.Some? ==> Fits(c.state, c.current.value.body))
    && HooksOk(c)
  }

  /** Whatever has a pcb is called back by it, so nobody waits for a callback that was set back. */
  predicate HooksOk(c: Netconn) {
    c.pcb && c.state != Listening ==> c.hooks.arg && c.hooks.poll && c.hooks.err
  }

  /** Every message is signalled exactly once, unless it is the parked one. */
  ghost predicate AcksOk(c: Netconn) {
    forall id: nat :: Count(c.acks, id) ==
      if id < |c.msgs| && !(c.current.Some? && c.current.value.id == id) then 1 else 0
  }

  /** A write in progress has handed over exactly the bytes before its offset. */
  ghost predicate WriteOk(c: Netconn) {
    c.state == Writing && c.current.Some? ==>
      && c.current.value.body.WriteBody?
      && c.writeOffset < |c.current.value.body.data|
      && c.handed == c.current.value.body.data[..c.writeOffset]
  }

  /** What the signal `a` of a write says: its pieces are a prefix of the data without gap or
      repeat; without error the length reported is theirs, and all of it for a blocking write. */
  ghost predicate ReportOk(a: Ack, body: Body) {
    body.WriteBody? ==>
      && a.handed <= body.data
      && (a.err == Ok ==> a.reported == |a.handed| && (a.blocking ==> a.reported == |body.data|))
  }

  ghost predicate ReportsOk(c: Netconn) {
    forall k :: 0 <= k < |c.acks| ==> c.acks[k].id < |c.msgs| && ReportOk(c.acks[k], c.msgs[c.acks[k].id])
  }

  ghost predicate Inv(c: Netconn) {
    ParkedOk(c) && AcksOk(c) && WriteOk(c) && ReportsOk(c)
  }

  /** A close or shutdown is asked for while another one is parked. One caller per
      connection, which waits for each answer, never does this. */
  predicate SecondClose(c: Netconn, a: Action) {
    a.Send? && a.body.CloseBody? && c.state == Closing
  }

  /** Closing a pcb that is still connecting without blocking fails and is not given up at once. */
  predicate ConnectingCloseFails(c: Netconn, a: Action) {
    && a.Send? && a.body.DeleteBody? && c.pcb && c.state == Connecting && c.connectingNonblocking
    && TcpClose(a.tcp) == Mem && a.body.polls > 0
  }

  predicate Good(c: Netconn, a: Action) {
    !SecondClose(c, a) && !ConnectingCloseFails(c, a)
  }

  // ---------------------------------------------------------------------------
  // Every good step keeps the invariant, and only those
  // ---------------------------------------------------------------------------

  lemma CountSnoc(acks: seq<Ack>, a: Ack, id: nat)
    ensures Count(acks + [a], id) == Count(acks, id) + if a.id == id then 1 else 0
  {
    assert (acks + [a])[..|acks|] == acks;
  }

  /** `c'` is `c` with one more signal, for a message that was waiting for it. */
  lemma SignalKeeps(c: Netconn, c': Netconn, a: Ack)
    requires ReportsOk(c) && c'.msgs == c.msgs && c'.acks == c.acks + [a]
    requires a.id < |c.msgs| && ReportOk(a, c.msgs[a.id]) && c'.current.None? && ParkedOk(c')
    requires OnlyWaiting(c, a.id)
    ensures Inv(c')
  {
    forall id: nat ensures Count(c'.acks, id) == if id < |c'.msgs| then 1 else 0 {
      CountSnoc(c.acks, a, id);
    }
  }

  /** A message answered by its handler, whatever else is parked. */
  lemma AnswerKeeps(c: Netconn, c': Netconn, body: Body, a: Ack)
    requires Inv(c) && c'.msgs == c.msgs + [body] && c'.acks == c.acks + [a]
    requires a.id == |c.msgs| && ReportOk(a, body) && c'.current == c.current && ParkedOk(c') && WriteOk(c')
    ensures Inv(c')
  {
    forall id: nat ensures Count(c'.acks, id) ==
      if id < |c'.msgs| && !(c'.current.Some? && c'.current.value.id == id) then 1 else 0
    {
      CountSnoc(c.acks, a, id);
    }
  }

  /** A message that stays parked. */
  lemma ParkKeeps(c: Netconn, c': Netconn, body: Body)
    requires Inv(c) && c.current.None? && c'.msgs == c.msgs + [body] && c'.acks == c.acks
    requires c'.current == Some(Msg(|c.msgs|, body)) && ParkedOk(c') && WriteOk(c')
    ensures Inv(c')
  {
  }

  /** The counts while the message `id` is the one that is waiting. */
  ghost predicate OnlyWaiting(c: Netconn, id: nat) {
    forall j: nat :: Count(c.acks, j) == if j < |c.msgs| && j != id then 1 else 0
  }

  lemma PrefixStep(data: seq<Byte>, i: nat, j: nat)
    requires i <= j <= |data|
    ensures data[..i] + data[i..j] == data[..j]
  {
  }

  /** No gap and no repeat: after each attempt the bytes handed over are those before the offset. */
  lemma AttemptOk(c: Netconn, m: Msg, tcp: Tcp)
    requires m.body.WriteBody? && c.writeOffset < |m.body.data| && c.handed == m.body.data[..c.writeOffset]
    ensures var t := WriteAttempt(c, m, tcp);
            && t.offset <= |m.body.data| && t.handed == m.body.data[..t.offset]
            && (t.end.None? ==> t.offset < |m.body.data|)
            && (t.end.Some? ==> t.end.value.id == m.id && ReportOk(t.end.value, m.body))
  {
    var data := m.body.data;
    var wanted := Min(|data| - c.writeOffset, 0xffff);
    var len := if tcp.sndbuf < wanted then tcp.sndbuf else wanted;
    PrefixStep(data, c.writeOffset, c.writeOffset + len);
  }

  lemma WriteMoreKeeps(c: Netconn, m: Msg, tcp: Tcp)
    requires ReportsOk(c) && ParkedOk(c) && WriteOk(c) && OnlyWaiting(c, m.id)
    requires c.state == Writing && c.current == Some(m)
    ensures Inv(WriteMore(c, m, tcp))
  {
    AttemptOk(c, m, tcp);
    var c', t := WriteMore(c, m, tcp), WriteAttempt(c, m, tcp);
    hide WriteAttempt;
    if t.end.Some? {
      SignalKeeps(c, c', t.end.value);
    }
  }

  lemma CloseKeeps(c: Netconn, m: Msg, tcp: Tcp)
    requires ReportsOk(c) && OnlyWaiting(c, m.id) && !m.body.WriteBody?
    requires c.state == Closing && c.current == Some(m) && c.pcb && c.writeOffset == 0 && Fits(Closing, m.body)
    requires m.id < |c.msgs| && c.msgs[m.id] == m.body
    requires c.connectingNonblocking ==> m.body.DeleteBody? && (TcpClose(tcp) == Ok || c.pollsLeft == 0)
    requires (c.hooks.arg && c.hooks.poll && c.hooks.err) || FullClose(m.body, tcp)
    ensures Inv(CloseInternal(c, m, tcp))
  {
    var c' := CloseInternal(c, m, tcp);
    if c'.acks != c.acks {
      SignalKeeps(c, c', c'.acks[|c.acks|]);
    }
  }

  lemma WriteMsgKeeps(c: Netconn, body: Body, tcp: Tcp)
    requires Inv(c) && body.WriteBody? && body.data != []
    ensures Inv(Handle(c, body, tcp))
  {
    var c' := Handle(c, body, tcp);
    var m, c1 := Msg(|c.msgs|, body), c.(msgs := c.msgs + [body]);
    if !Fatal(c.lastErr) && c.state == Idle && c.pcb {
      var c2 := c1.(state := Writing, current := Some(m), writeOffset := 0, handed := []);
      assert OnlyWaiting(c2, m.id);
      WriteMoreKeeps(c2, m, tcp);
    } else {
      AnswerKeeps(c, c', body, c'.acks[|c.acks|]);
    }
  }

  /** A close or delete that is answered at once. */
  lemma RefusedCloseKeeps(c: Netconn, body: Body, tcp: Tcp)
    requires Inv(c) && (body.CloseBody? || body.DeleteBody?) && !Closes(c, body)
    ensures Inv(Handle(c, body, tcp))
  {
    hide CloseInternal;
    var c' := Handle(c, body, tcp);
    assert c'.acks == c.acks + [c'.acks[|c.acks|]];
    hide AcksOk, ReportsOk, Handle;
    AnswerKeeps(c, c', body, c'.acks[|c.acks|]);
  }

  /** One that is taken up. */
  lemma StartedCloseKeeps(c: Netconn, body: Body, tcp: Tcp)
    requires Inv(c) && (body.CloseBody? || body.DeleteBody?) && Closes(c, body) && Good(c, Send(body, tcp))
    ensures Inv(Handle(c, body, tcp))
  {
    hide CloseInternal;
    var m, c1 := Msg(|c.msgs|, body), c.(msgs := c.msgs + [body]);
    var c2 := c1.(state := Closing, current := Some(m), pollsLeft := body.polls);
    assert OnlyWaiting(c2, m.id);
    assert Handle(c, body, tcp) == CloseInternal(c2, m, tcp);
    hide Handle, AcksOk;
    CloseKeeps(c2, m, tcp);
  }

  lemma CloseMsgKeeps(c: Netconn, body: Body, tcp: Tcp)
    requires Inv(c) && (body.CloseBody? || body.DeleteBody?) && Good(c, Send(body, tcp))
    ensures Inv(Handle(c, body, tcp))
  {
    hide Inv, Handle, Good;
    if Closes(c, body) {
      StartedCloseKeeps(c, body, tcp);
    } else {
      RefusedCloseKeeps(c, body, tcp);
    }
  }

  lemma ConnectMsgKeeps(c: Netconn, body: Body, tcp: Tcp)
    requires Inv(c) && body.ConnectBody?
    ensures Inv(Handle(c, body, tcp))
  {
    var c' := Handle(c, body, tcp);
    if c.pcb && c.state == Idle && tcp.connectErr == Ok && !c.nonblocking {
      ParkKeeps(c, c', body);
    } else {
      AnswerKeeps(c, c', body, c'.acks[|c.acks|]);
    }
  }

  lemma OtherMsgKeeps(c: Netconn, body: Body, tcp: Tcp)
    requires Inv(c) && (body.ListenBody? || body.OtherBody?)
    ensures Inv(Handle(c, body, tcp))
  {
    var c' := Handle(c, body, tcp);
    OtherAnswer(c, body, tcp);
    hide Handle, ParkedOk, AcksOk, WriteOk, ReportsOk;
    AnswerKeeps(c, c', body, c'.acks[|c.acks|]);
  }

  lemma OtherAnswer(c: Netconn, body: Body, tcp: Tcp)
    requires ParkedOk(c) && WriteOk(c) && (body.ListenBody? || body.OtherBody?)
    ensures var c' := Handle(c, body, tcp);
            && c'.msgs == c.msgs + [body] && |c'.acks| == |c.acks| + 1 && c'.acks == c.acks + [c'.acks[|c.acks|]]
            && c'.acks[|c.acks|].id == |c.msgs| && c'.current == c.current && ParkedOk(c') && WriteOk(c')
  {
    var m, c1 := Msg(|c.msgs|, body), c.(msgs := c.msgs + [body]);
    assert ParkedOk(c1) && WriteOk(c1);
    AnswerShape(c1, m, tcp.otherErr);
    if body.ListenBody? {
      ListenAnswer(c1, m, tcp);
    }
    hide AckMsg, ListenStep, WriteStep, CloseStep, DeleteStep, ConnectStep, ParkedOk, WriteOk;
  }

  /** TCPIP_APIMSG_ACK adds one signal and leaves what is parked alone. */
  lemma AnswerShape(c: Netconn, m: Msg, e: Err)
    ensures var d := AckMsg(c, m, e);
            && d.msgs == c.msgs && |d.acks| == |c.acks| + 1 && d.acks == c.acks + [d.acks[|c.acks|]]
            && d.acks[|c.acks|].id == m.id && d.current == c.current && d.pcb == c.pcb
            && (ParkedOk(c) ==> ParkedOk(d)) && (WriteOk(c) ==> WriteOk(d))
  {
  }

  lemma ListenAnswer(c: Netconn, m: Msg, tcp: Tcp)
    requires ParkedOk(c) && WriteOk(c)
    ensures var d := ListenStep(c, m, tcp);
            && d.msgs == c.msgs && |d.acks| == |c.acks| + 1 && d.acks == c.acks + [d.acks[|c.acks|]]
            && d.acks[|c.acks|].id == m.id && d.current == c.current && ParkedOk(d) && WriteOk(d)
  {
    hide AckMsg;
    var listening := c.(state := Listening, hooks := Hooks(true, false, false, false));
    var err := if Fatal(c.lastErr) then c.lastErr
               else if !c.pcb || (c.state != Idle && c.state != Listening) then Conn
               else if c.state == Listening then Ok else tcp.listenErr;
    AnswerShape(c, m, err);
    if c.pcb && c.state == Idle {
      AnswerShape(c.(pcb := false), m, tcp.mboxErr);
      AnswerShape(listening, m, Ok);
    }
  }

  lemma HandleKeeps(c: Netconn, body: Body, tcp: Tcp)
    requires Inv(c) && Good(c, Send(body, tcp))
    ensures Inv(Handle(c, body, tcp))
  {
    hide Inv;
    match body
    case WriteBody(data, _) =>
      if data != [] {
        WriteMsgKeeps(c, body, tcp);
      }
    case CloseBody(_, _, _) => CloseMsgKeeps(c, body, tcp);
    case DeleteBody(_) => CloseMsgKeeps(c, body, tcp);
    case ConnectBody => ConnectMsgKeeps(c, body, tcp);
    case ListenBody => OtherMsgKeeps(c, body, tcp);
    case OtherBody => OtherMsgKeeps(c, body, tcp);
  }

  /** The handler starts to close the connection. */
  predicate Closes(c: Netconn, body: Body) {
    || (body.CloseBody? && c.pcb && ((body.rx && body.tx) || c.state != Listening)
        && c.state != Connecting && c.state != Writing)
    || (body.DeleteBody? && c.pcb && !Parked(c))
  }

  lemma ContinueKeeps(c: Netconn, tcp: Tcp)
    requires Inv(c)
    ensures Inv(Continue(c, tcp)) && Inv(PollStep(c, tcp))
  {
    if c.current.Some? {
      var m := c.current.value;
      assert OnlyWaiting(c, m.id);
      hide WriteMore, CloseInternal;
      if c.state == Writing {
        WriteMoreKeeps(c, m, tcp);
      } else if c.state == Closing {
        CloseKeeps(c, m, tcp);
        var d := c.(pollsLeft := c.pollsLeft - 1);
        assert OnlyWaiting(d, m.id);
        CloseKeeps(d, m, tcp);
      }
    }
  }

  lemma LostFacts(c: Netconn, err: Err)
    ensures var d := Lost(c, err);
      && !d.pcb && d.state == Idle && d.current == c.current && d.acks == c.acks && d.msgs == c.msgs
      && d.handed == c.handed && d.connectingNonblocking == c.connectingNonblocking
  {
  }

  lemma WakeFacts(c: Netconn, err: Err)
    requires c.current.Some? && !c.connectingNonblocking
    ensures var d := WakeWaiter(c, err);
      && d.pcb == c.pcb && d.state == c.state && d.current == None && d.msgs == c.msgs
      && d.acks == c.acks + [Ack(c.current.value.id, err, 0, c.handed, false)]
  {
  }

  lemma ErrKeeps(c: Netconn, err: Err)
    requires Inv(c)
    ensures Inv(ErrStep(c, err))
  {
    if c.pcb && err != Ok {
      LostFacts(c, err);
      var d, e := Lost(c, err), if c.state == Closing then Ok else err;
      hide Lost;
      if c.current.Some? {
        WakeFacts(d, e);
        var c', a := WakeWaiter(d, e), Ack(c.current.value.id, e, 0, c.handed, false);
        hide WakeWaiter;
        assert OnlyWaiting(c, c.current.value.id);
        SignalKeeps(c, c', a);
      }
    }
  }

  lemma ConnectedKeeps(c: Netconn, err: Err)
    requires Inv(c)
    ensures Inv(ConnectedStep(c, err))
  {
    if c.current.Some? && c.pcb && c.state == Connecting {
      assert OnlyWaiting(c, c.current.value.id);
      SignalKeeps(c, ConnectedStep(c, err), ConnectedStep(c, err).acks[|c.acks|]);
    }
  }

  lemma GoodStepKeeps(c: Netconn, a: Action)
    requires Inv(c) && Good(c, a)
    ensures Inv(Step(c, a))
  {
    match a
    case Send(body, tcp) => HandleKeeps(c, body, tcp);
    case Poll(tcp) => ContinueKeeps(c, tcp);
    case Sent(tcp) => ContinueKeeps(c, tcp);
    case ErrTcp(err) => ErrKeeps(c, err);
    case Connected(err) => ConnectedKeeps(c, err);
    case SetNonblocking(on) =>
  }

  /** The two bad steps do break it: a second close overwrites the parked message, and a
      failed close leaves the mark of a non-blocking connect behind. */
  lemma BadStepBreaks(c: Netconn, a: Action)
    requires Inv(c) && !Good(c, a)
    ensures !Inv(Step(c, a))
  {
    if SecondClose(c, a) {
      SecondCloseLoses(c, a.body, a.tcp);
    }
  }

  lemma SecondCloseLoses(c: Netconn, body: Body, tcp: Tcp)
    requires Inv(c) && body.CloseBody? && c.state == Closing
    ensures var c', id := Handle(c, body, tcp), c.current.value.id;
            id < |c'.msgs| && Count(c'.acks, id) == 0 && !(c'.current.Some? && c'.current.value.id == id)
  {
    var id, c' := c.current.value.id, Handle(c, body, tcp);
    assert Count(c.acks, id) == 0 && id < |c.msgs|;
    hide Inv, Count;
    SecondCloseStep(c, body, tcp);
    hide Handle;
    if c'.acks != c.acks {
      CountSnoc(c.acks, c'.acks[|c.acks|], id);
    }
  }

  lemma SecondCloseStep(c: Netconn, body: Body, tcp: Tcp)
    requires body.CloseBody? && c.state == Closing && c.pcb
    ensures var c' := Handle(c, body, tcp);
            && c'.msgs == c.msgs + [body] && (c'.current.Some? ==> c'.current.value.id == |c.msgs|)
            && (c'.acks == c.acks || (|c'.acks| == |c.acks| + 1 && c'.acks == c.acks + [c'.acks[|c.acks|]]
                                      && c'.acks[|c.acks|].id == |c.msgs|))
  {
  }

  /** Exactly the good steps keep the invariant. */
  lemma StepKeepsIffGood(c: Netconn, a: Action)
    requires Inv(c)
    ensures Inv(Step(c, a)) <==> Good(c, a)
  {
    if Good(c, a) {
      GoodStepKeeps(c, a);
    } else {
      BadStepBreaks(c, a);
    }
  }

  ghost predicate GoodRun(c: Netconn, run: seq<Action>)
    decreases |run|
  {
    run == [] || (GoodRun(c, run[..|run| - 1]) && Good(Run(c, run[..|run| - 1]), run[|run| - 1]))
  }

  lemma {:induction false} GoodRunKeeps(c: Netconn, run: seq<Action>)
    requires Inv(c) && GoodRun(c, run)
    ensures Inv(Run(c, run))
    decreases |run|
  {
    if run == [] {
    } else {
      GoodRunKeeps(c, run[..|run| - 1]);
      GoodStepKeeps(Run(c, run[..|run| - 1]), run[|run| - 1]);
    }
  }

  // ---------------------------------------------------------------------------
  // Main results
  // ---------------------------------------------------------------------------

  /** After every good run each message has been acknowledged exactly once, except the one
      parked; a message is parked exactly while a write, a close or a blocking connect is
      under way. */
  lemma AcknowledgedOnce(run: seq<Action>, id: nat)
    requires GoodRun(Initial(), run) && id < |Run(Initial(), run).msgs|
    ensures var c := Run(Initial(), run);
            && (c.current.Some? <==> Parked(c))
            && Count(c.acks, id) == (if Parked(c) && c.current.value.id == id then 0 else 1)
  {
    InitialInv();
    GoodRunKeeps(Initial(), run);
  }

  lemma InitialInv()
    ensures Inv(Initial())
  {
  }

  /** For every sequence of send-buffer sizes and results, the pieces of each finished write
      are a prefix of its data; without error their length is reported, and a blocking write
      reports all of it. */
  lemma WritesReportTheirBytes(run: seq<Action>, k: nat)
    requires GoodRun(Initial(), run) && k < |Run(Initial(), run).acks|
    ensures var c := Run(Initial(), run);
            c.acks[k].id < |c.msgs| && ReportOk(c.acks[k], c.msgs[c.acks[k].id])
  {
    InitialInv();
    GoodRunKeeps(Initial(), run);
  }

  function Polls(run: seq<Action>): nat {
    if run == [] then 0 else Polls(run[..|run| - 1]) + if run[|run| - 1].Poll? then 1 else 0
  }

  lemma CountGrows(c: Netconn, a: Action, id: nat)
    ensures Count(c.acks, id) <= Count(Step(c, a).acks, id)
  {
    hide Step, Count;
    var acks := Step(c, a).acks;
    StepTouches(c, a);
    if acks != c.acks {
      CountSnoc(c.acks, acks[|c.acks|], id);
    }
  }

  /** One step while the message is parked for closing: it is acknowledged, or it stays
      parked, and then a poll has used up one of the polls left. */
  lemma ClosingStep(c: Netconn, a: Action)
    requires Inv(c) && c.state == Closing && Good(c, a)
    ensures var c', m := Step(c, a), c.current.value;
            || Count(c'.acks, m.id) == 1
            || (c'.state == Closing && c'.current == c.current
                && c'.pollsLeft == c.pollsLeft - (if a.Poll? then 1 else 0))
  {
    hide Inv, Count, Handle, Continue, PollStep, ErrStep, Good;
    InvParts(c);
    var c', id := Step(c, a), c.current.value.id;
    GoodStepKeeps(c, a);
    NotSecondClose(c, a);
    match a {
      case Send(body, tcp) => ClosingHandle(c, body, tcp);
      case Poll(tcp) => ClosingPoll(c, tcp);
      case Sent(tcp) => ClosingPoll(c, tcp);
      case ErrTcp(err) => ClosingError(c, err);
      case Connected(err) =>
      case SetNonblocking(on) =>
    }
    if c'.current.None? {
      Signalled(c', id);
    }
  }

  lemma InvParts(c: Netconn)
    requires Inv(c)
    ensures ParkedOk(c)
  {
  }

  lemma NotSecondClose(c: Netconn, a: Action)
    requires Good(c, a) && c.state == Closing
    ensures !(a.Send? && a.body.CloseBody?)
  {
  }

  /** A message that is no longer parked has been signalled. */
  lemma Signalled(c: Netconn, id: nat)
    requires Inv(c) && id < |c.msgs| && c.current.None?
    ensures Count(c.acks, id) == 1
  {
    hide ParkedOk, ReportsOk, WriteOk;
  }

  lemma ClosingPoll(c: Netconn, tcp: Tcp)
    requires ParkedOk(c) && c.state == Closing
    ensures var d := Continue(c, tcp);
            d.msgs == c.msgs
            && (d.current.None? || (d.state == Closing && d.current == c.current && d.pollsLeft == c.pollsLeft))
    ensures var d := PollStep(c, tcp);
            d.msgs == c.msgs
            && (d.current.None? || (d.state == Closing && d.current == c.current && d.pollsLeft == c.pollsLeft - 1))
  {
    hide WriteMore;
  }

  lemma ClosingError(c: Netconn, err: Err)
    requires ParkedOk(c) && c.state == Closing
    ensures var d := ErrStep(c, err); d == c || (d.current.None? && d.msgs == c.msgs)
  {
    if c.pcb && err != Ok {
      LostFacts(c, err);
      var d := Lost(c, err);
      hide Lost;
      WakeFacts(d, Ok);
    }
  }

  lemma ClosingHandle(c: Netconn, body: Body, tcp: Tcp)
    requires c.state == Closing && !body.CloseBody?
    ensures var c' := Handle(c, body, tcp);
            c'.state == Closing && c'.current == c.current && c'.pollsLeft == c.pollsLeft
  {
    hide WriteMore;
  }

  /** A close that keeps failing for memory is finished after at most `pollsLeft` polls,
      whatever else happens in between. */
  lemma {:induction false} CloseFinishes(c: Netconn, run: seq<Action>)
    requires Inv(c) && c.state == Closing && GoodRun(c, run)
    ensures var c', m := Run(c, run), c.current.value;
            || Count(c'.acks, m.id) == 1
            || (c'.state == Closing && c'.current == c.current && c'.pollsLeft + Polls(run) == c.pollsLeft)
    ensures Polls(run) >= c.pollsLeft ==> Count(Run(c, run).acks, c.current.value.id) == 1
    decreases |run|
  {
    GoodRunKeeps(c, run);
    if run == [] {
    } else {
      var r, a := run[..|run| - 1], run[|run| - 1];
      CloseFinishes(c, r);
      GoodRunKeeps(c, r);
      var id := c.current.value.id;
      if Count(Run(c, r).acks, id) == 1 {
        CountGrows(Run(c, r), a, id);
        assert Count(Run(c, run).acks, id) <= 1;
      } else {
        ClosingStep(Run(c, r), a);
      }
    }
  }

  /** Without a pcb nothing but new messages is acknowledged. */
  lemma NoPcbStep(c: Netconn, a: Action, id: nat)
    requires !c.pcb && id < |c.msgs|
    ensures var c' := Step(c, a); !c'.pcb && id < |c'.msgs| && Count(c'.acks, id) == Count(c.acks, id)
  {
    hide Count;
    if a.Send? {
      NoPcbHandle(c, a.body, a.tcp);
      var acks := Handle(c, a.body, a.tcp).acks;
      if acks != c.acks {
        CountSnoc(c.acks, acks[|c.acks|], id);
      }
    }
  }

  lemma NoPcbHandle(c: Netconn, body: Body, tcp: Tcp)
    requires !c.pcb
    ensures var c' := Handle(c, body, tcp);
            && !c'.pcb && |c.msgs| <= |c'.msgs|
            && (c'.acks == c.acks ||
                (|c'.acks| == |c.acks| + 1 && c'.acks == c.acks + [c'.acks[|c.acks|]] && c'.acks[|c.acks|].id == |c.msgs|))
  {
    hide AckMsg, WriteMore, CloseInternal, Parked;
    AnswerShape(c.(msgs := c.msgs + [body]), Msg(|c.msgs|, body), NoPcbAnswer(c, body, tcp));
    hide ParkedOk, WriteOk;
  }

  /** What a message is told when there is no pcb. */
  function NoPcbAnswer(c: Netconn, body: Body, tcp: Tcp): Err {
    match body
    case WriteBody(_, _) => if Fatal(c.lastErr) then c.lastErr else if c.state != Idle then InProgress else Conn
    case CloseBody(_, _, _) => Conn
    case DeleteBody(_) =>
      if c.state == Writing || c.state == Closing || (c.state == Connecting && !c.connectingNonblocking) then InProgress
      else Ok
    case ConnectBody => Clsd
    case ListenBody => if Fatal(c.lastErr) then c.lastErr else Conn
    case OtherBody => tcp.otherErr
  }

  // ---------------------------------------------------------------------------
  // Exactly the bad steps can lose a message
  // ---------------------------------------------------------------------------

  lemma {:induction false} NoPcbRun(c: Netconn, rest: seq<Action>, id: nat)
    requires !c.pcb && id < |c.msgs|
    ensures !Run(c, rest).pcb && id < |Run(c, rest).msgs| && Count(Run(c, rest).acks, id) == Count(c.acks, id)
    decreases |rest|
  {
    hide Count, Step;
    if rest == [] {
    } else {
      NoPcbRun(c, rest[..|rest| - 1], id);
      NoPcbStep(Run(c, rest[..|rest| - 1]), rest[|rest| - 1], id);
    }
  }

  /** A step signals the message at work or a new one, and works on one of these afterwards. */
  ghost predicate TouchesOnly(c: Netconn, d: Netconn) {
    && |c.msgs| <= |d.msgs|
    && (d.acks == c.acks || (|d.acks| == |c.acks| + 1 && d.acks == c.acks + [d.acks[|c.acks|]]
                             && (d.acks[|c.acks|].id == |c.msgs| < |d.msgs|
                                 || (c.current.Some? && d.acks[|c.acks|].id == c.current.value.id))))
    && (d.current.None? || d.current == c.current || (d.current.value.id == |c.msgs| < |d.msgs|))
  }

  lemma HandleTouches(c: Netconn, body: Body, tcp: Tcp)
    ensures TouchesOnly(c, Handle(c, body, tcp))
  {
    hide WriteStep, CloseStep, DeleteStep, ConnectStep, ListenStep;
    var m, c1 := Msg(|c.msgs|, body), c.(msgs := c.msgs + [body]);
    match body
    case WriteBody(_, _) => WriteTouches(c1, m, tcp);
    case CloseBody(_, _, _) => CloseTouches(c1, m, tcp);
    case DeleteBody(_) => DeleteTouches(c1, m, tcp);
    case ConnectBody => ConnectTouches(c1, m, tcp);
    case ListenBody => ListenTouches(c1, m, tcp);
    case OtherBody =>
  }

  /** The handler of message `m` signals and parks no other. */
  ghost predicate OnlyMsg(c: Netconn, d: Netconn, m: Msg) {
    && d.msgs == c.msgs
    && (d.acks == c.acks || (|d.acks| == |c.acks| + 1 && d.acks == c.acks + [d.acks[|c.acks|]] && d.acks[|c.acks|].id == m.id))
    && (d.current.None? || d.current == c.current || d.current == Some(m))
  }

  lemma WriteTouches(c: Netconn, m: Msg, tcp: Tcp)
    requires m.body.WriteBody?
    ensures OnlyMsg(c, WriteStep(c, m, tcp), m)
  {
    if !Fatal(c.lastErr) && c.state == Idle && c.pcb {
      AttemptSignals(c.(state := Writing, current := Some(m), writeOffset := 0, handed := []), m, tcp);
    }
    hide WriteAttempt;
  }

  lemma AttemptSignals(c: Netconn, m: Msg, tcp: Tcp)
    requires m.body.WriteBody? && c.writeOffset <= |m.body.data|
    ensures var t := WriteAttempt(c, m, tcp); t.end.Some? ==> t.end.value.id == m.id
  {
  }

  lemma CloseTouches(c: Netconn, m: Msg, tcp: Tcp)
    requires m.body.CloseBody?
    ensures OnlyMsg(c, CloseStep(c, m, tcp), m)
  {
    CloseSignals(c.(state := Closing, current := Some(m), pollsLeft := m.body.polls), m, tcp);
    hide CloseInternal;
  }

  lemma DeleteTouches(c: Netconn, m: Msg, tcp: Tcp)
    requires m.body.DeleteBody?
    ensures OnlyMsg(c, DeleteStep(c, m, tcp), m)
  {
    CloseSignals(c.(state := Closing, current := Some(m), pollsLeft := m.body.polls), m, tcp);
    hide CloseInternal;
  }

  lemma ConnectTouches(c: Netconn, m: Msg, tcp: Tcp)
    ensures OnlyMsg(c, ConnectStep(c, m, tcp), m)
  {
  }

  lemma ListenTouches(c: Netconn, m: Msg, tcp: Tcp)
    ensures OnlyMsg(c, ListenStep(c, m, tcp), m)
  {
  }

  lemma ContinueTouches(c: Netconn, tcp: Tcp)
    ensures TouchesOnly(c, Continue(c, tcp)) && TouchesOnly(c, PollStep(c, tcp))
  {
    ResumeTouches(c, tcp);
    hide Continue;
    if c.pollsLeft > 0 {
      ResumeTouches(c.(pollsLeft := c.pollsLeft - 1), tcp);
    }
  }

  lemma ResumeTouches(c: Netconn, tcp: Tcp)
    ensures TouchesOnly(c, Continue(c, tcp))
  {
    if c.current.Some? {
      var m := c.current.value;
      CloseSignals(c, m, tcp);
      hide CloseInternal;
      if m.body.WriteBody? && c.writeOffset <= |m.body.data| {
        AttemptSignals(c, m, tcp);
      }
      hide WriteAttempt;
    }
  }

  lemma CloseSignals(c: Netconn, m: Msg, tcp: Tcp)
    ensures OnlyMsg(c, CloseInternal(c, m, tcp), m)
  {
    hide FullClose, CloseErr, Unhook, Rehook;
  }

  lemma ErrTouches(c: Netconn, err: Err)
    ensures TouchesOnly(c, ErrStep(c, err)) && TouchesOnly(c, ConnectedStep(c, err))
  {
    LostFacts(c, err);
    hide Lost;
  }

  lemma StepTouches(c: Netconn, a: Action)
    ensures TouchesOnly(c, Step(c, a))
  {
    hide Handle, Continue, PollStep, ErrStep, ConnectedStep;
    match a
    case Send(body, tcp) => HandleTouches(c, body, tcp);
    case Poll(tcp) => ContinueTouches(c, tcp);
    case Sent(tcp) => ContinueTouches(c, tcp);
    case ErrTcp(err) => ErrTouches(c, err);
    case Connected(err) => ErrTouches(c, err);
    case SetNonblocking(on) =>
  }

  /** A message that was neither signalled nor is being worked on. */
  predicate Forgotten(c: Netconn, id: nat) {
    id < |c.msgs| && Count(c.acks, id) == 0 && !(c.current.Some? && c.current.value.id == id)
  }

  lemma ForgottenStep(c: Netconn, a: Action, id: nat)
    requires Forgotten(c, id)
    ensures Forgotten(Step(c, a), id)
  {
    hide Count, Step;
    StepTouches(c, a);
    var d := Step(c, a);
    if d.acks != c.acks {
      CountSnoc(c.acks, d.acks[|c.acks|], id);
    }
  }

  lemma {:induction false} ForgottenForever(c: Netconn, rest: seq<Action>, id: nat)
    requires Forgotten(c, id)
    ensures Forgotten(Run(c, rest), id)
    decreases |rest|
  {
    hide Forgotten, Step;
    if rest == [] {
    } else {
      ForgottenForever(c, rest[..|rest| - 1], id);
      ForgottenStep(Run(c, rest[..|rest| - 1]), rest[|rest| - 1], id);
    }
  }

  /** No further run acknowledges message `id`. */
  ghost predicate NeverAcked(c: Netconn, id: nat) {
    id < |c.msgs| && forall rest: seq<Action> :: Count(Run(c, rest).acks, id) == 0
  }

  /** Good steps may lead to a message that is never acknowledged. */
  ghost predicate CanLose(c: Netconn) {
    exists run: seq<Action>, id: nat :: GoodRun(c, run) && NeverAcked(Run(c, run), id)
  }

  /** The message that the bad step loses. */
  function Victim(c: Netconn, a: Action): nat {
    if SecondClose(c, a) && c.current.Some? then c.current.value.id else |c.msgs|
  }

  lemma SecondCloseDooms(c: Netconn, a: Action)
    requires Inv(c) && SecondClose(c, a)
    ensures NeverAcked(Step(c, a), Victim(c, a))
  {
    SecondCloseLoses(c, a.body, a.tcp);
    var id, d := c.current.value.id, Step(c, a);
    assert Forgotten(d, id);
    hide Inv, Count, Step, Run;
    forall rest: seq<Action> ensures Count(Run(d, rest).acks, id) == 0 {
      ForgottenForever(d, rest, id);
    }
  }

  /** A delete that fails while connecting without blocking is dropped by the next error. */
  lemma FailedDeleteStep(c: Netconn, a: Action)
    requires ParkedOk(c) && ConnectingCloseFails(c, a)
    ensures var d := Step(Step(c, a), ErrTcp(Rst)); !d.pcb && d.acks == c.acks && d.msgs == c.msgs + [a.body]
  {
  }

  /** The count of a message that has just arrived. */
  lemma NewMessage(c: Netconn, id: nat)
    requires Inv(c) && |c.msgs| <= id
    ensures ParkedOk(c) && Count(c.acks, id) == 0
  {
    hide ParkedOk, ReportsOk, WriteOk;
  }

  lemma FailedDeleteDooms(c: Netconn, a: Action)
    requires Inv(c) && ConnectingCloseFails(c, a)
    ensures var run := [ErrTcp(Rst)];
            GoodRun(Step(c, a), run) && NeverAcked(Run(Step(c, a), run), Victim(c, a))
  {
    hide Inv, Count;
    var id, d := |c.msgs|, Step(c, a);
    NewMessage(c, id);
    GoodOne(d, ErrTcp(Rst));
    FailedDeleteStep(c, a);
    var e := Run(d, [ErrTcp(Rst)]);
    hide Run, Step;
    assert Victim(c, a) == id by { assert !SecondClose(c, a); }
    hide ConnectingCloseFails;
    assert !e.pcb && id < |e.msgs| && Count(e.acks, id) == 0;
    forall rest: seq<Action> ensures Count(Run(e, rest).acks, id) == 0 {
      NoPcbRun(e, rest, id);
    }
  }

  lemma GoodOne(c: Netconn, a: Action)
    requires Good(c, a)
    ensures GoodRun(c, [a]) && Run(c, [a]) == Step(c, a)
  {
    hide Step, Good;
    assert [a][..0] == [];
    assert GoodRun(c, []) && Run(c, []) == c;
  }

  /** How the message at work can be answered. */
  function Answer(c: Netconn): seq<Action> {
    if !Parked(c) then []
    else if c.state == Connecting then [Connected(Ok)]
    else [Poll(ANSWER)]
  }

  const ANSWER := Tcp(Established, false, false, 0xffff, Val, Ok, Ok, Ok, Ok, Ok)

  lemma AnswerEnds(c: Netconn)
    requires ParkedOk(c) && WriteOk(c)
    ensures Run(c, Answer(c)).current.None? && Run(c, Answer(c)).msgs == c.msgs
    ensures GoodRun(c, Answer(c))
  {
    if !Parked(c) {
      RunNothing(c);
    } else if c.state == Connecting {
      GoodOne(c, Connected(Ok));
    } else {
      GoodOne(c, Poll(ANSWER));
      hide Run, GoodRun;
      AnswerPolled(c);
    }
  }

  lemma AnswerPolled(c: Netconn)
    requires ParkedOk(c) && WriteOk(c) && (c.state == Writing || c.state == Closing)
    ensures var d := Step(c, Poll(ANSWER)); d.current.None? && d.msgs == c.msgs
  {
  }

  /** While all is well every message has been acknowledged or can still be. */
  lemma NothingLost(c: Netconn, id: nat)
    requires Inv(c) && id < |c.msgs|
    ensures !NeverAcked(c, id)
  {
    AnswerEnds(c);
    GoodRunKeeps(c, Answer(c));
    var d := Run(c, Answer(c));
    hide Inv, Answer, GoodRun;
    Signalled(d, id);
    hide Run;
    assert Count(Run(c, Answer(c)).acks, id) == 1;
  }

  /** The exact theorem: from a state in which every message is accounted for, a step makes it
      possible for good steps to lose a message if and only if it is one of the two bad ones. */
  lemma LosesIffBad(c: Netconn, a: Action)
    requires Inv(c)
    ensures CanLose(Step(c, a)) <==> !Good(c, a)
  {
    hide Inv, Step, Run, Count, NeverAcked;
    var d := Step(c, a);
    if Good(c, a) {
      GoodStepKeeps(c, a);
      forall run: seq<Action>, id: nat | GoodRun(d, run)
        ensures !NeverAcked(Run(d, run), id)
      {
        GoodRunKeeps(d, run);
        NotLost(Run(d, run), id);
      }
    } else if SecondClose(c, a) {
      SecondCloseDooms(c, a);
      RunNothing(d);
      assert GoodRun(d, []) && NeverAcked(Run(d, []), Victim(c, a));
    } else {
      FailedDeleteDooms(c, a);
      assert GoodRun(d, [ErrTcp(Rst)]) && NeverAcked(Run(d, [ErrTcp(Rst)]), Victim(c, a));
    }
  }

  /** TCP has a pcb that is connecting in SYN_SENT until it says that the connection is made. */
  predicate SynSentWhileConnecting(c: Netconn, a: Action) {
    a.Send? && c.state == Connecting ==> a.tcp.pcbState == SynSent
  }

  /** With such a TCP the close of a connecting pcb always succeeds, and a second close is the only
      step that can lose a message. */
  lemma LosesIffSecondClose(c: Netconn, a: Action)
    requires Inv(c) && SynSentWhileConnecting(c, a)
    ensures CanLose(Step(c, a)) <==> SecondClose(c, a)
  {
    hide Inv, CanLose, Step;
    LosesIffBad(c, a);
  }

  lemma RunNothing(c: Netconn)
    ensures Run(c, []) == c
  {
  }

  lemma NotLost(c: Netconn, id: nat)
    requires Inv(c)
    ensures !NeverAcked(c, id)
  {
    hide Inv, Run;
    if id < |c.msgs| {
      NothingLost(c, id);
    }
  }

  // ---------------------------------------------------------------------------
  // The code, against the steps above
  // ---------------------------------------------------------------------------

  /** The connection as the handlers and callbacks change it, field by field. */
  class Connection {
    var state: State
    var current: Option<Msg>
    var pcb: bool
    var hooks: Hooks
    var connectingNonblocking: bool
    var nonblocking: bool
    var lastErr: Err
    var writeOffset: nat
    var pollsLeft: nat
    /** The bytes of the current write given to TCP, all messages received and all signals sent. */
    var handed: seq<Byte>
    var msgs: seq<Body>
    var acks: seq<Ack>

    ghost function Value(): Netconn
      reads this
    {
      Netconn(state, current, pcb, hooks, connectingNonblocking, nonblocking, lastErr, writeOffset, handed, pollsLeft,
              msgs, acks)
    }

    constructor ()
      ensures Value() == Initial() && Inv(Value())
    {
      state, current, pcb, hooks, connectingNonblocking, nonblocking := Idle, None, true, SETUP, false, false;
      lastErr, writeOffset, handed, pollsLeft, msgs, acks := Ok, 0, [], 0, [], [];
      new;
      InitialInv();
    }

    method SetSafeErr(e: Err)
      modifies `lastErr
      ensures Value() == SafeErr(old(Value()), e)
    {
      if !Fatal(lastErr) {
        lastErr := e;
      }
    }

    method Acknowledge(m: Msg, e: Err)
      modifies `lastErr, `acks
      ensures Value() == AckMsg(old(Value()), m, e)
    {
      SetSafeErr(e);
      acks := acks + [Ack(m.id, e, 0, [], false)];
    }

    /** The attempt of lwip_netconn_do_writemore: how many bytes to offer, and what follows from
        TCP's answer. */
    method TryWrite(tcp: Tcp) returns (err: Err, finished: bool, reported: nat)
      requires current.Some? && current.value.body.WriteBody? && writeOffset <= |current.value.body.data|
      modifies `handed, `writeOffset
      ensures var t := WriteAttempt(old(Value()), current.value, tcp);
        && writeOffset == t.offset && handed == t.handed && finished == t.end.Some?
        && (finished ==>
            t.end.value == Ack(current.value.id, err, reported, handed, !(nonblocking || current.value.body.dontblock)))
    {
      hide Fatal;
      var data := current.value.body.data;
      var dontblock := nonblocking || current.value.body.dontblock;
      var len: nat := |data| - writeOffset;
      if len > 0xffff {
        len := 0xffff;
      }
      err, finished, reported := tcp.writeErr, false, 0;
      if tcp.sndbuf < len {
        len := tcp.sndbuf;
        if dontblock && len == 0 {
          return WouldBlock, true, 0;
        }
      }
      if err == Ok {
        handed := handed + data[writeOffset..writeOffset + len];
        writeOffset := writeOffset + len;
        if writeOffset == |data| || dontblock {
          reported, finished := writeOffset, true;
        }
        if Fatal(tcp.outputErr) || tcp.outputErr == Rte {
          err, finished, reported := tcp.outputErr, true, 0;
        }
      } else if err == Mem {
        if Fatal(tcp.outputErr) || tcp.outputErr == Rte {
          err, finished := tcp.outputErr, true;
        } else if dontblock {
          err, finished := WouldBlock, true;
        }
      } else {
        finished := true;
      }
    }

    /** lwip_netconn_do_writemore */
    method DoWriteMore(tcp: Tcp)
      requires current.Some? && current.value.body.WriteBody? && writeOffset <= |current.value.body.data|
      modifies this
      ensures Value() == WriteMore(old(Value()), old(current.value), tcp)
    {
      hide WriteAttempt;
      var m := current.value;
      var err, finished, reported := TryWrite(tcp);
      if finished {
        current, writeOffset, state := None, 0, Idle;
        SetSafeErr(err);
        acks := acks + [Ack(m.id, err, reported, handed, !(nonblocking || m.body.dontblock))];
      }
    }

    /** The callback pointers are set back before closing. */
    method SetBack(m: Msg, tcp: Tcp)
      modifies `hooks
      ensures hooks == Unhook(old(hooks), m.body, tcp)
    {
      var close := FullClose(m.body, tcp);
      if close {
        hooks := hooks.(arg := false);
      }
      if tcp.pcbState != Listen {
        if ShutTx(m.body) {
          hooks := hooks.(sent := false);
        }
        if close {
          hooks := hooks.(poll := false, err := false);
        }
      }
    }

    /** They are needed again to wait for the next attempt. */
    method Restore(m: Msg)
      modifies `hooks
      ensures hooks == Rehook(old(hooks), m.body)
    {
      if ShutTx(m.body) {
        hooks := hooks.(sent := true);
      }
      hooks := hooks.(poll := true, err := true, arg := true);
    }

    /** lwip_netconn_do_close_internal */
    method DoCloseInternal(tcp: Tcp)
      requires current.Some?
      modifies this
      ensures Value() == CloseInternal(old(Value()), old(current.value), tcp)
    {
      hide Finish, TcpClose, TcpShutdown, FullClose, Unhook, Rehook;
      var m := current.value;
      var close := FullClose(m.body, tcp);
      SetBack(m, tcp);
      var err, finished := if close then TcpClose(tcp) else TcpShutdown(tcp, ShutRx(m.body), ShutTx(m.body)), true;
      if err == Mem {
        if pollsLeft == 0 {
          if close {
            err := Ok;
          }
        } else {
          finished := false;
        }
      }
      if finished {
        FinishClose(m, err, close);
      } else {
        Restore(m);
      }
    }

    /** A close has ended, one way or the other. */
    method FinishClose(m: Msg, err: Err, close: bool)
      modifies this
      ensures Value() == Finish(old(Value()), m, Ack(m.id, err, 0, [], false)).(pcb := old(pcb) && !(close && err == Ok))
    {
      current, state := None, Idle;
      if err == Ok && close {
        pcb := false;
      }
      SetSafeErr(err);
      acks := acks + [Ack(m.id, err, 0, [], false)];
    }

    /** lwip_netconn_do_write */
    method DoWrite(m: Msg, tcp: Tcp)
      requires m.body.WriteBody?
      modifies this
      ensures Value() == WriteStep(old(Value()), m, tcp)
    {
      hide WriteMore;
      var err;
      if Fatal(lastErr) {
        err := lastErr;
      } else if state != Idle {
        err := InProgress;
      } else if pcb {
        state, current, writeOffset := Writing, Some(m), 0;
        handed := [];
        DoWriteMore(tcp);
        return;
      } else {
        err := Conn;
      }
      Acknowledge(m, err);
    }

    /** lwip_netconn_do_close */
    method DoClose(m: Msg, tcp: Tcp)
      requires m.body.CloseBody?
      modifies this
      ensures Value() == CloseStep(old(Value()), m, tcp)
    {
      hide CloseInternal;
      var err := Conn;
      if pcb && ((m.body.rx && m.body.tx) || state != Listening) {
        if state == Connecting {
          err := Conn;
        } else if state == Writing {
          err := InProgress;
        } else {
          state, current, pollsLeft := Closing, Some(m), m.body.polls;
          DoCloseInternal(tcp);
          return;
        }
      }
      Acknowledge(m, err);
    }

    /** lwip_netconn_do_delconn */
    method DoDelete(m: Msg, tcp: Tcp)
      requires m.body.DeleteBody?
      modifies this
      ensures Value() == DeleteStep(old(Value()), m, tcp)
    {
      hide CloseInternal;
      var err := Ok;
      if (state != Idle && state != Listening && state != Connecting) || (state == Connecting && !connectingNonblocking) {
        err := InProgress;
      } else if pcb {
        state, current, pollsLeft := Closing, Some(m), m.body.polls;
        DoCloseInternal(tcp);
        return;
      }
      Acknowledge(m, err);
    }

    /** lwip_netconn_do_connect */
    method DoConnect(m: Msg, tcp: Tcp)
      modifies this
      ensures Value() == ConnectStep(old(Value()), m, tcp)
    {
      var err;
      if !pcb {
        err := Clsd;
      } else if state == Connecting {
        err := Already;
      } else if state != Idle {
        err := IsConn;
      } else {
        hooks := SETUP;
        err := tcp.connectErr;
        if err == Ok {
          state, connectingNonblocking := Connecting, nonblocking;
          if nonblocking {
            err := InProgress;
          } else {
            current := Some(m);
            return;
          }
        }
      }
      Acknowledge(m, err);
    }

    /** lwip_netconn_do_listen */
    method DoListen(m: Msg, tcp: Tcp)
      modifies this
      ensures Value() == ListenStep(old(Value()), m, tcp)
    {
      var err := Conn;
      if Fatal(lastErr) {
        err := lastErr;
      } else if pcb {
        if state == Idle {
          err := tcp.listenErr;
          if err == Ok {
            err := tcp.mboxErr;
            if err == Ok {
              state, hooks := Listening, Hooks(true, false, false, false);
            } else {
              pcb := false;
            }
          }
        } else if state == Listening {
          err := Ok;
        }
      }
      Acknowledge(m, err);
    }

    /** A message reaches the TCP/IP thread. */
    method Receive(body: Body, tcp: Tcp)
      modifies this
      ensures Value() == Handle(old(Value()), body, tcp)
    {
      hide WriteStep, CloseStep, DeleteStep, ConnectStep, ListenStep, AckMsg;
      if body.WriteBody? && body.data == [] {
        return;
      }
      var m := Msg(|msgs|, body);
      msgs := msgs + [body];
      match body
      case WriteBody(_, _) => DoWrite(m, tcp);
      case CloseBody(_, _, _) => DoClose(m, tcp);
      case DeleteBody(_) => DoDelete(m, tcp);
      case ConnectBody => DoConnect(m, tcp);
      case ListenBody => DoListen(m, tcp);
      case OtherBody => Acknowledge(m, tcp.otherErr);
    }

    /** sent_tcp, and the second half of poll_tcp. */
    method SentTcp(tcp: Tcp)
      requires ParkedOk(Value()) && WriteOk(Value())
      modifies this
      ensures Value() == Continue(old(Value()), tcp)
    {
      hide WriteMore, CloseInternal;
      if state == Writing {
        DoWriteMore(tcp);
      } else if state == Closing {
        DoCloseInternal(tcp);
      }
    }

    /** poll_tcp */
    method PollTcp(tcp: Tcp)
      requires ParkedOk(Value()) && WriteOk(Value())
      modifies this
      ensures Value() == PollStep(old(Value()), tcp)
    {
      hide WriteMore, CloseInternal;
      if state == Writing {
        DoWriteMore(tcp);
      } else if state == Closing {
        if current.Some? && pollsLeft > 0 {
          pollsLeft := pollsLeft - 1;
        }
        DoCloseInternal(tcp);
      }
    }

    method WakeOnError(err: Err)
      requires current.Some? || connectingNonblocking
      modifies this
      ensures Value() == WakeWaiter(old(Value()), err)
    {
      var wasNonblocking := connectingNonblocking;
      connectingNonblocking := false;
      if !wasNonblocking {
        var m := current.value;
        current := None;
        SetSafeErr(err);
        acks := acks + [Ack(m.id, err, 0, handed, false)];
      }
    }

    /** err_tcp */
    method TcpError(error: Err)
      requires ParkedOk(Value()) && pcb && hooks.err && error != Ok
      modifies this
      ensures Value() == ErrStep(old(Value()), error)
    {
      hide WakeWaiter;
      var err := error;
      pcb := false;
      var oldState := state;
      state := Idle;
      if oldState == Closing {
        err := Ok;
        SetSafeErr(Ok);
      } else {
        lastErr := err;
      }
      assert Value() == Lost(old(Value()), error);
      hide Lost;
      if oldState == Writing || oldState == Closing || oldState == Connecting {
        WakeOnError(err);
      }
    }

    /** lwip_netconn_do_connected */
    method DoConnected(err: Err)
      requires ParkedOk(Value()) && state == Connecting
      modifies this
      ensures Value() == ConnectedStep(old(Value()), err)
    {
      var was, waiting := connectingNonblocking, current;
      connectingNonblocking := false;
      current, state := None, Idle;
      SetSafeErr(Ok);
      if !was {
        acks := acks + [Ack(waiting.value.id, err, 0, [], false)];
      }
    }

    /** One step of the TCP/IP thread. TCP reports an error only for a pcb it still has, and a
        connection made only while connecting; it calls what is set in the pcb. */
    method Dispatch(a: Action)
      requires Inv(Value())
      requires a.ErrTcp? ==> pcb && hooks.err && a.err != Ok
      requires a.Connected? ==> state == Connecting
      modifies this
      ensures Value() == Step(old(Value()), a)
      // Every message stays accounted for exactly if the step is a good one.
      ensures Inv(Value()) <==> Good(old(Value()), a)
    {
      StepKeepsIffGood(Value(), a);
      hide Handle, Continue, PollStep, ErrStep, ConnectedStep, Good, AcksOk, ReportsOk;
      match a
      case Send(body, tcp) => Receive(body, tcp);
      case Poll(tcp) =>
        if hooks.poll {
          PollTcp(tcp);
        }
      case Sent(tcp) =>
        if hooks.sent {
          SentTcp(tcp);
        }
      case ErrTcp(err) => TcpError(err);
      case Connected(err) => DoConnected(err);
      case SetNonblocking(on) => nonblocking := on;
    }
  }
}
