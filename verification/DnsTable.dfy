/**
  The DNS resolver: a table of queries that are retried, passed on to further servers,
  answered, cached and dropped, and the requests that wait for them.

  Configuration: IPv4 only, one outstanding query per name, one source port, ids from
  a counter, as many request slots as table entries. Callbacks do not call the resolver.
 */
module DnsTable {

  import opened Basics
  import opened DnsName

  const MAX_RETRIES: nat := 4
  const MAX_TTL: nat := 604800

  datatype QueryState = Unused | New | Asking | Done

  datatype Entry = Entry(state: QueryState, name: seq<Byte>, txid: nat, serverIdx: nat, tmr: nat,
                         retries: nat, seqno: nat, ttl: nat, ip: seq<Byte>)

  /** A request slot: `found` is the number of the request whose callback is stored. */
  datatype Request = Request(found: Option<nat>, entry: nat)

  /** A callback that was made: which request, and the address or nothing. */
  datatype Call = Call(id: nat, answer: Option<seq<Byte>>)

  datatype Reply = InProgress | NoMemory

  // ---------------------------------------------------------------------------
  // Requests and callbacks
  // ---------------------------------------------------------------------------

  ghost function Count(calls: seq<Call>, id: nat): nat {
    if calls == [] then 0
    else Count(calls[..|calls| - 1], id) + if calls[|calls| - 1].id == id then 1 else 0
  }

  lemma CountSnoc(calls: seq<Call>, c: Call, id: nat)
    ensures Count(calls + [c], id) == Count(calls, id) + if c.id == id then 1 else 0
  {
    assert (calls + [c])[..|calls|] == calls;
  }

  ghost predicate Pending(requests: seq<Request>, id: nat) {
    exists r :: 0 <= r < |requests| && requests[r].found == Some(id)
  }

  /** Every accepted request waits in exactly one slot, or has been called back exactly once. */
  ghost predicate Law(requests: seq<Request>, calls: seq<Call>, accepted: nat) {
    && (forall r :: 0 <= r < |requests| && requests[r].found.Some? ==> requests[r].found.value < accepted)
    && (forall q, r :: 0 <= q < r < |requests| && requests[q].found.Some? ==> requests[q].found != requests[r].found)
    && (forall id: nat :: Count(calls, id) == if id < accepted && !Pending(requests, id) then 1 else 0)
  }

  lemma DeliverOne(requests: seq<Request>, calls: seq<Call>, accepted: nat, r: nat, answer: Option<seq<Byte>>)
    requires Law(requests, calls, accepted) && r < |requests| && requests[r].found.Some?
    ensures Law(requests[r := requests[r].(found := None)], calls + [Call(requests[r].found.value, answer)], accepted)
  {
    var id := requests[r].found.value;
    var after := requests[r := requests[r].(found := None)];
    forall k: nat
      ensures Count(calls + [Call(id, answer)], k) == if k < accepted && !Pending(after, k) then 1 else 0
    {
      CountSnoc(calls, Call(id, answer), k);
      if k != id && Pending(requests, k) {
        var q :| 0 <= q < |requests| && requests[q].found == Some(k);
        assert after[q].found == Some(k);
      }
    }
  }

  lemma AcceptOne(requests: seq<Request>, calls: seq<Call>, accepted: nat, r: nat, entry: nat)
    requires Law(requests, calls, accepted) && r < |requests| && requests[r].found.None?
    ensures Law(requests[r := Request(Some(accepted), entry)], calls, accepted + 1)
  {
    var after := requests[r := Request(Some(accepted), entry)];
    forall k: nat ensures Count(calls, k) == if k < accepted + 1 && !Pending(after, k) then 1 else 0 {
      if k == accepted {
        assert after[r].found == Some(k);
      } else if Pending(requests, k) {
        var q :| 0 <= q < |requests| && requests[q].found == Some(k);
        assert after[q].found == Some(k);
      }
    }
  }

  // ---------------------------------------------------------------------------
  // One query over time
  // ---------------------------------------------------------------------------

  /** The countdown of a query that is being asked: the pause grows with the retries. */
  predicate CountdownOk(e: Entry, servers: nat) {
    e.retries < MAX_RETRIES && 1 <= e.tmr && (e.tmr == 1 || e.tmr <= e.retries) && e.serverIdx < servers
  }

  /** Ticks that the retries after number `r` still take. */
  function RetryTicks(r: nat): nat
    decreases MAX_RETRIES - r
  {
    if r + 1 >= MAX_RETRIES then 0 else r + 1 + RetryTicks(r + 1)
  }

  /** Configured servers that follow number `idx` without a gap. */
  function ServersAfter(servers: seq<nat>, idx: nat): (n: nat)
    ensures idx < |servers| ==> n < |servers| - idx
    decreases |servers| - idx
  {
    if idx + 1 < |servers| && servers[idx + 1] != 0 then 1 + ServersAfter(servers, idx + 1) else 0
  }

  /** The timer ticks that all retries of an unanswered query take, at all servers. */
  function TicksLeft(e: Entry, servers: seq<nat>): nat {
    e.tmr + RetryTicks(e.retries) + 7 * ServersAfter(servers, e.serverIdx)
  }

  /** The number of timer ticks after which it ends: a server that is not configured any more ends it
      at the next retry. */
  function Lifetime(e: Entry, servers: seq<nat>): nat {
    if e.serverIdx < |servers| && servers[e.serverIdx] == 0 && e.retries + 1 < MAX_RETRIES then e.tmr
    else TicksLeft(e, servers)
  }

  lemma LifetimeBound(e: Entry, servers: seq<nat>)
    requires CountdownOk(e, |servers|)
    ensures 1 <= Lifetime(e, servers) <= TicksLeft(e, servers) <= 7 * |servers|
  {
    TicksBound(e, servers);
  }

  /** The same, as if all further servers were configured: a bound that no change of the servers
      moves. */
  function MaxLeft(e: Entry, servers: nat): int {
    e.tmr + RetryTicks(e.retries) + 7 * (servers - 1 - e.serverIdx)
  }

  lemma MaxLeftBound(e: Entry, servers: nat)
    requires CountdownOk(e, servers)
    ensures 1 <= MaxLeft(e, servers) <= 7 * servers
  {
    assert RetryTicks(3) == 0 && RetryTicks(2) == 3 && RetryTicks(1) == 5 && RetryTicks(0) == 6;
  }

  /** With four retries a server is asked for seven ticks. */
  lemma TicksBound(e: Entry, servers: seq<nat>)
    requires CountdownOk(e, |servers|)
    ensures 1 <= TicksLeft(e, servers) <= 7 * |servers|
    ensures e.retries == 0 && e.serverIdx == 0 ==> TicksLeft(e, servers) == 7 * (1 + ServersAfter(servers, 0))
  {
    assert RetryTicks(3) == 0 && RetryTicks(2) == 3 && RetryTicks(1) == 5 && RetryTicks(0) == 6;
  }

  /** lwip_strnicmp: equal but for the case of ASCII letters. */
  function Lower(b: Byte): Byte {
    if 65 <= b <= 90 then b + 32 else b
  }

  predicate SameName(a: seq<Byte>, b: seq<Byte>) {
    |a| == |b| && forall k :: 0 <= k < |a| ==> Lower(a[k]) == Lower(b[k])
  }

  ghost predicate DistinctIds(table: seq<Entry>) {
    forall i, j :: 0 <= i < j < |table| && table[i].state == Asking && table[j].state == Asking ==>
      table[i].txid != table[j].txid
  }

  function Age(seqno: nat, e: Entry): nat {
    (seqno - e.seqno) % 256
  }

  // ---------------------------------------------------------------------------
  // Fresh ids
  // ---------------------------------------------------------------------------

  ghost function IdsInUse(table: seq<Entry>): set<nat> {
    set i | 0 <= i < |table| && table[i].state == Asking :: table[i].txid
  }

  lemma {:induction false} FewIds(table: seq<Entry>)
    ensures |IdsInUse(table)| <= |table|
  {
    if table == [] {
      assert IdsInUse(table) == {};
    } else {
      var t := table[..|table| - 1];
      FewIds(t);
      assert IdsInUse(table) <= IdsInUse(t) + {table[|table| - 1].txid} by {
        forall x | x in IdsInUse(table) ensures x in IdsInUse(t) + {table[|table| - 1].txid} {
          var i :| 0 <= i < |table| && table[i].state == Asking && table[i].txid == x;
          assert i < |t| ==> t[i] == table[i];
        }
      }
      Subset(IdsInUse(table), IdsInUse(t) + {table[|table| - 1].txid});
    }
  }

  lemma DifferentIds(a: nat, b: nat)
    requires a < b < a + 0x10000
    ensures a % 0x10000 != b % 0x10000
  {
  }

  // ---------------------------------------------------------------------------
  // The resolver
  // ---------------------------------------------------------------------------

  /** No entry but `n` is new, and every query that is asked keeps to its schedule: its
      countdown is above zero and at most four packets went to the present server. */
  ghost predicate EntriesOk(table: seq<Entry>, packets: seq<nat>, servers: nat, n: int)
    requires |packets| == |table|
  {
    forall i :: 0 <= i < |table| ==>
      && (table[i].state == New ==> i == n)
      && (table[i].state == Asking ==> CountdownOk(table[i], servers) && packets[i] <= table[i].retries + 1)
  }

  /** A request that waits refers to a query that is being asked. */
  ghost predicate SlotsOk(requests: seq<Request>, table: seq<Entry>, n: int) {
    forall r :: 0 <= r < |requests| && requests[r].found.Some? ==>
      && requests[r].entry < |table|
      && (table[requests[r].entry].state == Asking ||
          (table[requests[r].entry].state == New && requests[r].entry == n))
  }

  /** Entry `i` is asked for: it keeps its id, or was new and has got one that is not in use. */
  lemma AskKeeps(table: seq<Entry>, packets: seq<nat>, requests: seq<Request>, servers: nat, n: int, i: nat, e: Entry, p: nat)
    requires |packets| == |table| && EntriesOk(table, packets, servers, n) && SlotsOk(requests, table, n)
    requires DistinctIds(table) && i < |table| && (n == -1 || n == i)
    requires if table[i].state == Asking then e.txid == table[i].txid else e.txid !in IdsInUse(table)
    requires table[i].state == Asking || table[i].state == New
    requires e.state == Asking && CountdownOk(e, servers) && p <= e.retries + 1
    ensures EntriesOk(table[i := e], packets[i := p], servers, -1) && SlotsOk(requests, table[i := e], -1)
    ensures DistinctIds(table[i := e])
  {
    hide CountdownOk, IdsInUse;
    if table[i].state != Asking {
      FreshId(table, e.txid);
    }
  }

  lemma FreshId(table: seq<Entry>, id: nat)
    requires id !in IdsInUse(table)
    ensures forall j :: 0 <= j < |table| && table[j].state == Asking ==> table[j].txid != id
  {
  }

  lemma EntryFacts(table: seq<Entry>, packets: seq<nat>, servers: nat, i: nat)
    requires |packets| == |table| && EntriesOk(table, packets, servers, -1) && i < |table| && table[i].state == Asking
    ensures CountdownOk(table[i], servers) && packets[i] <= table[i].retries + 1
  {
  }

  /** If entry `i` is not new after all, there is no new one. */
  lemma OldEntry(table: seq<Entry>, packets: seq<nat>, requests: seq<Request>, servers: nat, i: nat)
    requires |packets| == |table| && EntriesOk(table, packets, servers, i) && SlotsOk(requests, table, i)
    requires i < |table| && table[i].state != New
    ensures EntriesOk(table, packets, servers, -1) && SlotsOk(requests, table, -1)
  {
    hide CountdownOk;
  }

  lemma MayBeNew(table: seq<Entry>, packets: seq<nat>, requests: seq<Request>, servers: nat, i: nat)
    requires |packets| == |table| && EntriesOk(table, packets, servers, -1) && SlotsOk(requests, table, -1)
    ensures EntriesOk(table, packets, servers, i) && SlotsOk(requests, table, i)
  {
    hide CountdownOk;
  }

  lemma TickedProgress(was: seq<Entry>, now: seq<Entry>, servers: seq<nat>)
    requires |was| == |now| && forall i :: 0 <= i < |now| ==> Ticked(was[i], now[i], servers)
    ensures Progress(was, now, |servers|, 1)
  {
    hide TicksLeft, MaxLeft;
    forall i | 0 <= i < |now| && was[i].state == Asking && now[i].state == Asking
      ensures MaxLeft(now[i], |servers|) + 1 <= MaxLeft(was[i], |servers|)
    {
      assert Ticked(was[i], now[i], servers);
    }
  }

  lemma SentKeeps(table: seq<Entry>, packets: seq<nat>, servers: nat, i: nat)
    requires |packets| == |table| && EntriesOk(table, packets, servers, -1) && i < |table|
    requires table[i].state == Asking && packets[i] <= table[i].retries
    ensures EntriesOk(table, packets[i := packets[i] + 1], servers, -1)
  {
    hide CountdownOk;
  }

  /** Entry `i`, which nobody waits for, is left alone or becomes unused. */
  lemma RestKeeps(table: seq<Entry>, packets: seq<nat>, requests: seq<Request>, servers: nat, i: nat, e: Entry)
    requires |packets| == |table| && EntriesOk(table, packets, servers, -1) && SlotsOk(requests, table, -1)
    requires DistinctIds(table) && i < |table| && table[i].state != Asking && (e.state == Unused || e.state == Done)
    ensures EntriesOk(table[i := e], packets, servers, -1) && SlotsOk(requests, table[i := e], -1)
    ensures DistinctIds(table[i := e])
  {
    hide CountdownOk;
  }

  /** A free entry and a free request slot are taken for a new query. */
  lemma NewQueryKeeps(table: seq<Entry>, packets: seq<nat>, requests: seq<Request>, calls: seq<Call>, accepted: nat,
                      servers: nat, i: nat, r: nat, e: Entry)
    requires |packets| == |table| && EntriesOk(table, packets, servers, -1) && SlotsOk(requests, table, -1)
    requires DistinctIds(table) && Law(requests, calls, accepted)
    requires i < |table| && table[i].state != Asking && e.state == New && r < |requests| && requests[r].found.None?
    ensures EntriesOk(table[i := e], packets, servers, i) && DistinctIds(table[i := e])
    ensures SlotsOk(requests[r := Request(Some(accepted), i)], table[i := e], i)
    ensures Law(requests[r := Request(Some(accepted), i)], calls, accepted + 1)
  {
    hide CountdownOk, Law;
    AcceptOne(requests, calls, accepted, r, i);
  }

  // What every operation does to the requests and queries that were there before

  /** A request accepted before that still waits does so where it did. */
  ghost predicate Survive(was: seq<Request>, now: seq<Request>, accepted: nat) {
    |was| == |now| && forall r :: 0 <= r < |now| && now[r].found.Some? && now[r].found.value < accepted ==> now[r] == was[r]
  }

  /** A query that is still asked has `d` ticks less. */
  ghost predicate Progress(was: seq<Entry>, now: seq<Entry>, servers: nat, d: nat) {
    |was| == |now| && forall i :: 0 <= i < |now| && was[i].state == Asking && now[i].state == Asking ==>
      MaxLeft(now[i], servers) + d <= MaxLeft(was[i], servers)
  }

  /** Every request accepted so long ago waits for a query that ends within the bound. */
  ghost predicate InTime(requests: seq<Request>, table: seq<Entry>, accepted: nat, servers: nat, ticks: nat) {
    forall r :: 0 <= r < |requests| && requests[r].found.Some? && requests[r].found.value < accepted ==>
      && requests[r].entry < |table| && table[requests[r].entry].state == Asking
      && MaxLeft(table[requests[r].entry], servers) + ticks <= 7 * servers
  }

  lemma SameSurvives(a: seq<Request>, n: nat)
    ensures Survive(a, a, n)
  {
  }

  lemma SurviveTwice(a: seq<Request>, b: seq<Request>, c: seq<Request>, n: nat)
    requires Survive(a, b, n) && Survive(b, c, n)
    ensures Survive(a, c, n)
  {
  }

  lemma SurviveNew(a: seq<Request>, b: seq<Request>, r: nat, i: nat, n: nat)
    requires r < |a| && Survive(a[r := Request(Some(n), i)], b, n + 1)
    ensures Survive(a, b, n)
  {
  }

  lemma InTimeStarts(requests: seq<Request>, table: seq<Entry>, packets: seq<nat>, accepted: nat, servers: nat)
    requires |packets| == |table| && EntriesOk(table, packets, servers, -1) && SlotsOk(requests, table, -1)
    ensures InTime(requests, table, accepted, servers, 0)
  {
    hide CountdownOk, MaxLeft;
    forall i | 0 <= i < |table| && table[i].state == Asking
      ensures MaxLeft(table[i], servers) <= 7 * servers
    {
      MaxLeftBound(table[i], servers);
    }
  }

  lemma InTimeGoesOn(requests: seq<Request>, table: seq<Entry>, requests': seq<Request>, table': seq<Entry>,
                     accepted: nat, now: nat, servers: nat, ticks: nat, d: nat)
    requires InTime(requests, table, accepted, servers, ticks) && accepted <= now
    requires Survive(requests, requests', now) && Progress(table, table', servers, d) && SlotsOk(requests', table', -1)
    ensures InTime(requests', table', accepted, servers, ticks + d)
  {
    hide MaxLeft;
  }

  /** Past the bound nobody of them waits any more, so each has been called back. */
  lemma AllCalled(requests: seq<Request>, table: seq<Entry>, packets: seq<nat>, calls: seq<Call>, accepted: nat, now: nat,
                  servers: nat, ticks: nat, id: nat)
    requires InTime(requests, table, accepted, servers, ticks) && 7 * servers <= ticks
    requires |packets| == |table| && EntriesOk(table, packets, servers, -1) && Law(requests, calls, now)
    requires id < accepted <= now
    ensures Count(calls, id) == 1
  {
    hide MaxLeft, CountdownOk;
    if Pending(requests, id) {
      var r :| 0 <= r < |requests| && requests[r].found == Some(id);
      MaxLeftBound(table[requests[r].entry], servers);
      assert false;
    }
  }

  /** What can happen to a resolver. */
  datatype Op =
    | TimerTick(memory: nat -> bool)
    | Ask(name: seq<Byte>, room: bool)
    | Packet(p: seq<Byte>, addr: nat, stale: Memory)
    | Configure(numdns: nat, server: nat)

  predicate GoodOp(op: Op) {
    (op.Ask? ==> |op.name| < 256) && (op.Packet? ==> |op.p| <= 0xffff)
  }

  function Ticks(ops: seq<Op>): nat {
    if ops == [] then 0 else Ticks(ops[..|ops| - 1]) + if ops[|ops| - 1].TimerTick? then 1 else 0
  }

  class Resolver {
    var table: seq<Entry>
    var requests: seq<Request>
    var seqno: nat
    var txid: nat
    /** Server addresses; 0 is the address "any" of a server that is not configured. */
    var servers: seq<nat>
    /** Requests answered "in progress" so far; they are numbered in that order. */
    var accepted: nat
    ghost var calls: seq<Call>
    /** Packets sent for an entry to the server it is asking now. */
    ghost var packets: seq<nat>

    ghost predicate Sizes()
      reads this
    {
      && 0 < |table| <= 255 && |requests| == |packets| == |table|
      && 0 < |servers| <= 255 && seqno < 256 && txid < 0x10000
    }

    /** The invariant, while the entry `n` may be a new one that is not asked for yet. */
    ghost predicate ValidBut(n: int)
      reads this
    {
      && Sizes()
      && EntriesOk(table, packets, |servers|, n)
      && SlotsOk(requests, table, n)
      && DistinctIds(table)
      && Law(requests, calls, accepted)
    }

    ghost predicate Valid()
      reads this
    {
      ValidBut(-1)
    }

    constructor (size: nat, servers: seq<nat>)
      requires 0 < size <= 255 && 0 < |servers| <= 255
      ensures Valid() && accepted == 0 && |table| == size && this.servers == servers
    {
      table := seq(size, _ => Entry(Unused, [], 0, 0, 0, 0, 0, 0, []));
      requests := seq(size, _ => Request(None, 0));
      packets := seq(size, _ => 0);
      this.servers := servers;
      seqno, txid, accepted, calls := 0, 0, 0, [];
    }

    /** dns_setserver may change a server at any time. */
    method SetServer(numdns: nat, addr: nat)
      requires Valid()
      modifies `servers
      ensures Valid() && |servers| == |old(servers)|
      ensures servers == if numdns < |servers| then old(servers)[numdns := addr] else old(servers)
    {
      if numdns < |servers| {
        servers := servers[numdns := addr];
      }
    }

    /** dns_call_found: call back and free every request that waits for entry `idx`. */
    method CallFound(idx: nat, answer: Option<seq<Byte>>)
      requires Law(requests, calls, accepted)
      modifies `requests, `calls
      ensures Law(requests, calls, accepted) && |requests| == |old(requests)|
      ensures forall r :: 0 <= r < |requests| ==>
                requests[r] == if old(requests)[r].entry == idx then old(requests)[r].(found := None) else old(requests)[r]
      ensures old(calls) <= calls
      ensures forall k :: |old(calls)| <= k < |calls| ==> calls[k].answer == answer
    {
      for i := 0 to |requests|
        invariant Law(requests, calls, accepted) && |requests| == |old(requests)|
        invariant forall r :: i <= r < |requests| ==> requests[r] == old(requests)[r]
        invariant forall r :: 0 <= r < i ==>
                    requests[r] == if old(requests)[r].entry == idx then old(requests)[r].(found := None) else old(requests)[r]
        invariant old(calls) <= calls
        invariant forall k :: |old(calls)| <= k < |calls| ==> calls[k].answer == answer
      {
        if requests[i].found.Some? && requests[i].entry == idx {
          DeliverOne(requests, calls, accepted, i, answer);
          calls := calls + [Call(requests[i].found.value, answer)];
          requests := requests[i := requests[i].(found := None)];
        }
      }
    }

    /** A query leaves the asking state: everybody who shares it is called, then it is
        flushed or kept as a cached answer. */
    method End(idx: nat, after: Entry, answer: Option<seq<Byte>>)
      requires Valid() && idx < |table| && (after.state == Unused || after.state == Done)
      modifies `table, `requests, `calls
      ensures Valid() && table == old(table)[idx := after] && old(calls) <= calls
      ensures |requests| == |old(requests)|
      ensures forall r :: 0 <= r < |requests| ==>
                requests[r] == if old(requests)[r].entry == idx then old(requests)[r].(found := None) else old(requests)[r]
      ensures forall k :: |old(calls)| <= k < |calls| ==> calls[k].answer == answer
      ensures Survive(old(requests), requests, accepted)
    {
      CallFound(idx, answer);
      table := table[idx := after];
    }

    /** dns_send: an unconfigured server ends the query; else a packet goes out, if
        there is memory for it. */
    method Send(i: nat, memory: bool)
      requires Valid() && i < |table| && table[i].state == Asking && packets[i] <= table[i].retries
      modifies `table, `requests, `calls, `packets
      ensures Valid() && old(calls) <= calls
      ensures if servers[old(table)[i].serverIdx] == 0 then table == old(table)[i := old(table)[i].(state := Unused)]
              else table == old(table) && requests == old(requests) && calls == old(calls)
      ensures Survive(old(requests), requests, accepted)
    {
      hide EntriesOk, SlotsOk, DistinctIds, Law, Survive;
      EntryFacts(table, packets, |servers|, i);
      SameSurvives(requests, accepted);
      if servers[table[i].serverIdx] == 0 {
        End(i, table[i].(state := Unused), None);
      } else if memory {
        SentKeeps(table, packets, |servers|, i);
        packets := packets[i := packets[i] + 1];
      }
    }

    /** The inner loop of dns_create_txid. */
    method InUse(id: nat) returns (used: bool)
      ensures used <==> id in IdsInUse(table)
    {
      for i := 0 to |table|
        invariant forall j :: 0 <= j < i && table[j].state == Asking ==> table[j].txid != id
      {
        if table[i].state == Asking && table[i].txid == id {
          return true;
        }
      }
      return false;
    }

    /** dns_create_txid: the search always ends, because the table has fewer entries than
        there are ids, and the id found is used by no other query. */
    method CreateTxid() returns (id: nat)
      requires Sizes()
      modifies `txid
      ensures txid < 0x10000 && id == txid && id !in IdsInUse(table)
    {
      hide IdsInUse;
      ghost var start, tries, tried: set<nat> := txid, 0, {};
      FewIds(table);
      while true
        invariant txid == Id(start, tries) && 0 <= tries == |tried| <= |table|
        invariant tried <= IdsInUse(table) && Tried(tried, start, tries)
        decreases |table| - tries
      {
        txid := (txid + 1) % 0x10000;
        NextTry(tried, start, tries);
        var used := InUse(txid);
        if !used {
          return txid;
        }
        tried := tried + {txid};
        tries := tries + 1;
        Subset(tried, IdsInUse(table));
      }
    }

    /** dns_check_entry: ask for a new entry, count down and retry, or let a cached answer age. */
    method CheckEntry(i: nat, memory: bool)
      requires 0 <= i && ValidBut(i) && i < |table|
      modifies `table, `requests, `calls, `packets, `txid
      ensures Valid() && |table| == |old(table)| && old(calls) <= calls
      ensures forall j :: 0 <= j < |table| && j != i ==> table[j] == old(table)[j]
      ensures var e := old(table)[i];
              match e.state
              case Unused => table == old(table)
              case Done => table[i] == if e.ttl <= 1 then e.(state := Unused, ttl := 0) else e.(ttl := e.ttl - 1)
              case New =>
                if servers[0] == 0 then table[i].state == Unused
                else table[i] == e.(state := Asking, txid := table[i].txid, serverIdx := 0, tmr := 1, retries := 0)
              case Asking => AskTicked(e, table[i], servers)
      ensures Survive(old(requests), requests, accepted)
    {
      hide EntriesOk, SlotsOk, DistinctIds, Law, Survive, AskTicked, Lifetime, IdsInUse;
      SameSurvives(requests, accepted);
      var entry := table[i];
      match entry.state {
        case New =>
          var id := CreateTxid();
          var e := entry.(state := Asking, txid := id, serverIdx := 0, tmr := 1, retries := 0);
          AskKeeps(table, packets, requests, |servers|, i, i, e, 0);
          table := table[i := e];
          packets := packets[i := 0];
          Send(i, memory);
        case Asking =>
          OldEntry(table, packets, requests, |servers|, i);
          Countdown(i, memory);
        case Done =>
          OldEntry(table, packets, requests, |servers|, i);
          var e := if entry.ttl == 0 || entry.ttl - 1 == 0 then entry.(state := Unused, ttl := 0)
                   else entry.(ttl := entry.ttl - 1);
          RestKeeps(table, packets, requests, |servers|, i, e);
          table := table[i := e];
        case Unused =>
          OldEntry(table, packets, requests, |servers|, i);
      }
    }

    /** The asking case of dns_check_entry. The countdown never passes zero. */
    method Countdown(i: nat, memory: bool)
      requires Valid() && i < |table| && table[i].state == Asking
      modifies `table, `requests, `calls, `packets
      ensures Valid() && |table| == |old(table)| && old(calls) <= calls
      ensures forall j :: 0 <= j < |table| && j != i ==> table[j] == old(table)[j]
      ensures AskTicked(old(table)[i], table[i], servers)
      ensures Survive(old(requests), requests, accepted)
    {
      hide EntriesOk, SlotsOk, DistinctIds, Law, Survive, AskTicked, Lifetime, IdsInUse;
      SameSurvives(requests, accepted);
      EntryFacts(table, packets, |servers|, i);
      var entry := table[i];
      var e := entry.(tmr := entry.tmr - 1);
      if e.tmr == 0 {
        ghost var sent := packets[i];
        e := e.(retries := e.retries + 1);
        if e.retries == MAX_RETRIES {
          if e.serverIdx + 1 < |servers| && servers[e.serverIdx + 1] != 0 {
            e := e.(serverIdx := e.serverIdx + 1, tmr := 1, retries := 0);
            sent := 0;
          } else {
            LastTick(entry, e.(state := Unused), servers);
            End(i, e.(state := Unused), None);
            return;
          }
        } else {
          e := e.(tmr := e.retries);
        }
        TickLess(entry, e, servers);
        AskedAgain(entry, e, servers);
        AskKeeps(table, packets, requests, |servers|, -1, i, e, sent);
        packets := packets[i := sent];
        table := table[i := e];
        Send(i, memory);
      } else {
        TickLess(entry, e, servers);
        StillAsked(entry, e, servers);
        AskKeeps(table, packets, requests, |servers|, -1, i, e, packets[i]);
        assert packets[i := packets[i]] == packets;
        table := table[i := e];
      }
    }

    /** dns_tmr: one tick for every entry. `memory` says for which entries a packet can
        be allocated. */
    method Tick(memory: nat -> bool)
      requires Valid()
      modifies `table, `requests, `calls, `packets, `txid
      ensures Valid() && |table| == |old(table)| && old(calls) <= calls
      ensures forall i :: 0 <= i < |table| ==> Ticked(old(table)[i], table[i], servers)
      ensures Survive(old(requests), requests, accepted) && Progress(old(table), table, |servers|, 1)
    {
      hide EntriesOk, SlotsOk, DistinctIds, Law, Survive, AskTicked;
      SameSurvives(requests, accepted);
      for i := 0 to |table|
        invariant Valid() && |table| == |old(table)| && old(calls) <= calls
        invariant forall j :: i <= j < |table| ==> table[j] == old(table)[j]
        invariant forall j :: 0 <= j < i ==> Ticked(old(table)[j], table[j], servers)
        invariant Survive(old(requests), requests, accepted)
      {
        ghost var before := requests;
        MayBeNew(table, packets, requests, |servers|, i);
        CheckEntry(i, memory(i));
        SurviveTwice(old(requests), before, requests, accepted);
      }
      TickedProgress(old(table), table, servers);
    }

    /** Every unanswered query lasts for its lifetime and no longer: after seven ticks for each server
        none is left that was being asked, and every request has been called back exactly once. */
    method TickAll(n: nat, memory: (nat, nat) -> bool)
      requires Valid()
      modifies `table, `requests, `calls, `packets, `txid
      ensures Valid() && |table| == |old(table)|
      ensures forall i :: 0 <= i < |table| ==>
                (table[i].state == Asking <==> old(table)[i].state == Asking && n < Lifetime(old(table)[i], servers))
      ensures forall i :: 0 <= i < |table| && old(table)[i].state == Asking ==>
                Lifetime(old(table)[i], servers) <= TicksLeft(old(table)[i], servers) <= 7 * |servers|
      ensures n >= 7 * |servers| ==> forall id: nat :: id < accepted ==> Count(calls, id) == 1
    {
      hide Law, DistinctIds, Survive, TicksLeft, Lifetime, MaxLeft;
      LivesStart(table, packets, servers);
      for t := 0 to n
        invariant Valid() && |table| == |old(table)|
        invariant Lives(old(table), table, servers, t)
      {
        ghost var before := table;
        Tick((i: nat) => memory(t, i));
        LivesOn(old(table), before, table, servers, t);
      }
      if n >= 7 * |servers| {
        NobodyWaits(requests, table);
        AllDelivered(requests, calls, accepted);
      }
    }

    /** The search of dns_enqueue: the first unused entry, else the oldest answer; an entry
        that is being asked is never taken. */
    method FindEntry() returns (i: nat)
      requires Valid()
      ensures i <= |table|
      ensures i < |table| && table[i].state == Unused ==> forall j :: 0 <= j < i ==> table[j].state != Unused
      ensures i < |table| && table[i].state != Unused ==>
                && table[i].state == Done && Age(seqno, table[i]) > 0
                && forall j :: 0 <= j < |table| ==>
                     table[j].state != Unused && (table[j].state == Done ==> Age(seqno, table[j]) <= Age(seqno, table[i]))
      ensures i == |table| ==> forall j :: 0 <= j < |table| ==>
                table[j].state != Unused && (table[j].state == Done ==> Age(seqno, table[j]) == 0)
    {
      var lseq: nat, lseqi: nat := 0, |table|;
      i := 0;
      while i < |table|
        invariant 0 <= i <= |table|
        invariant forall j :: 0 <= j < i ==>
                    table[j].state != Unused && (table[j].state == Done ==> Age(seqno, table[j]) <= lseq)
        invariant if lseqi < |table| then table[lseqi].state == Done && Age(seqno, table[lseqi]) == lseq > 0
                  else lseqi == |table| && lseq == 0
      {
        if table[i].state == Unused {
          return;
        }
        if table[i].state == Done {
          var age := Age(seqno, table[i]);
          if age > lseq {
            lseq, lseqi := age, i;
          }
        }
        i := i + 1;
      }
      i := lseqi;
    }

    method FreeRequest() returns (r: nat)
      ensures r <= |requests| && (r < |requests| ==> requests[r].found.None?)
      ensures r == |requests| ==> forall q :: 0 <= q < |requests| ==> requests[q].found.Some?
    {
      r := 0;
      while r < |requests| && requests[r].found.Some?
        invariant 0 <= r <= |requests|
        invariant forall q :: 0 <= q < r ==> requests[q].found.Some?
      {
        r := r + 1;
      }
    }

    /** The first half of dns_enqueue: share a query that already asks for the name. */
    method Share(name: seq<Byte>) returns (shared: bool)
      requires Valid()
      modifies `requests, `accepted
      ensures Valid()
      ensures !shared ==> requests == old(requests) && accepted == old(accepted)
      ensures shared ==> accepted == old(accepted) + 1 && Pending(requests, old(accepted))
      ensures shared <==> Asked(table, name) && exists r :: 0 <= r < |old(requests)| && old(requests)[r].found.None?
      ensures Survive(old(requests), requests, old(accepted))
    {
      hide EntriesOk, DistinctIds, Law;
      var i := 0;
      while i < |table|
        invariant 0 <= i <= |table| && Valid() && requests == old(requests) && accepted == old(accepted)
        invariant forall j :: 0 <= j < i && table[j].state == Asking && SameName(name, table[j].name) ==>
                    forall r :: 0 <= r < |requests| ==> requests[r].found.Some?
      {
        if table[i].state == Asking && SameName(name, table[i].name) {
          var r := FreeRequest();
          if r < |requests| {
            AcceptOne(requests, calls, accepted, r, i);
            requests := requests[r := Request(Some(accepted), i)];
            accepted := accepted + 1;
            assert requests[r].found == Some(old(accepted));
            return true;
          }
        }
        i := i + 1;
      }
      return false;
    }

    /** The second half: a query of its own in entry `i`, with request slot `r`. */
    method AskAnew(name: seq<Byte>, memory: bool, i: nat, r: nat)
      requires Valid() && |name| < 256
      requires i < |table| && table[i].state != Asking && r < |requests| && requests[r].found.None?
      modifies this
      ensures Valid() && servers == old(servers) && |table| == |old(table)| && accepted == old(accepted) + 1
      ensures forall j :: 0 <= j < |table| && j != i ==> table[j] == old(table)[j]
      ensures if servers[0] == 0 then table[i].state == Unused else table[i].state == Asking && table[i].name == name
      ensures Survive(old(requests), requests, old(accepted)) && old(calls) <= calls
    {
      hide EntriesOk, SlotsOk, DistinctIds, Law, Survive, OneTickLess;
      ghost var was := requests;
      var e := table[i].(state := New, seqno := seqno, name := name);
      NewQueryKeeps(table, packets, requests, calls, accepted, |servers|, i, r, e);
      requests := requests[r := Request(Some(accepted), i)];
      accepted := accepted + 1;
      table := table[i := e];
      seqno := (seqno + 1) % 256;
      CheckEntry(i, memory);
      SurviveNew(was, requests, r, i, old(accepted));
    }

    /** dns_enqueue: one more request, shared with a query for the same name or with a query
        of its own. It is accepted as a whole or not at all. */
    method Enqueue(name: seq<Byte>, memory: bool) returns (reply: Reply)
      requires Valid() && |name| < 256
      modifies this
      ensures Valid() && servers == old(servers) && |table| == |old(table)| && old(calls) <= calls
      ensures reply == NoMemory ==>
                table == old(table) && requests == old(requests) && calls == old(calls) && accepted == old(accepted)
      ensures reply == InProgress ==> accepted == old(accepted) + 1
      ensures reply == InProgress && Asked(old(table), name) ==> table == old(table)
      ensures reply == InProgress && !Asked(old(table), name) && servers[0] != 0 ==> Asked(table, name)
      ensures forall i :: 0 <= i < |table| && old(table)[i].state == Asking ==> table[i] == old(table)[i]
      ensures Survive(old(requests), requests, old(accepted))
    {
      hide EntriesOk, SlotsOk, DistinctIds, Law, Survive;
      SameSurvives(requests, accepted);
      var shared := Share(name);
      if shared {
        return InProgress;
      }
      var i := FindEntry();
      if i == |table| {
        return NoMemory;
      }
      var r := FreeRequest();
      if r == |requests| {
        return NoMemory;
      }
      AskAnew(name, memory, i, r);
      SameNameReflexive(name);
      return InProgress;
    }

    /** dns_recv: a packet changes at most the one query with its id, and ends it as the
        packet says: everybody who waits for it is called with the address or with nothing.
        `stale` is what memory holds behind the name of the entry. */
    method Recv(p: seq<Byte>, addr: nat, stale: Memory)
      requires Valid() && |p| <= 0xffff
      modifies `table, `requests, `calls
      ensures Valid() && |table| == |old(table)| && old(calls) <= calls
      ensures forall i :: 0 <= i < |table| ==>
                if Concerns(p, old(table)[i])
                then Received(old(table)[i], table[i], VerdictOn(p, old(table)[i], addr, servers, stale))
                else table[i] == old(table)[i]
      // The calls made are those of the query concerned, with its answer.
      ensures forall i :: 0 <= i < |table| && Concerns(p, old(table)[i]) ==>
                var v := VerdictOn(p, old(table)[i], addr, servers, stale);
                && (forall k :: |old(calls)| <= k < |calls| ==> calls[k].answer == AnswerOf(v))
                && (v.Ignored? ==> calls == old(calls) && requests == old(requests))
                && (!v.Ignored? ==> forall r :: 0 <= r < |requests| && requests[r].found.Some? ==> requests[r].entry != i)
      ensures (forall i :: 0 <= i < |table| ==> !Concerns(p, old(table)[i])) ==> calls == old(calls) && requests == old(requests)
      ensures Survive(old(requests), requests, accepted)
    {
      hide Law;
      if |p| < HDR + 4 {
        return;
      }
      var i := 0;
      while i < |table|
        invariant 0 <= i <= |table| && table == old(table) && requests == old(requests) && calls == old(calls)
        invariant forall j :: 0 <= j < i ==> !Concerns(p, table[j])
      {
        if table[i].state == Asking && table[i].txid == Be16(p, 0) {
          var e := table[i];
          assert forall j :: 0 <= j < |table| && j != i ==> !Concerns(p, table[j]);
          var verdict := ReadResponse(p, NameMemory(e.name, stale), addr == servers[e.serverIdx]);
          match verdict {
            case Ignored =>
            case NoAddress =>
              End(i, e.(state := Unused), None);
            case Address(ip, ttl0) =>
              var ttl := if ttl0 > MAX_TTL then MAX_TTL else ttl0;
              End(i, e.(state := if ttl == 0 then Unused else Done, ip := ip, ttl := ttl), Some(ip));
          }
          return;
        }
        i := i + 1;
      }
    }

    /** Any operation. */
    method Do(op: Op)
      requires Valid() && GoodOp(op)
      modifies this
      ensures Valid() && |servers| == |old(servers)| && old(accepted) <= accepted
      ensures Survive(old(requests), requests, old(accepted))
      ensures Progress(old(table), table, |servers|, if op.TimerTick? then 1 else 0)
    {
      hide EntriesOk, SlotsOk, DistinctIds, Law, Survive, OneTickLess, MaxLeft;
      SameSurvives(requests, accepted);
      match op
      case TimerTick(memory) => Tick(memory);
      case Ask(name, room) => var _ := Enqueue(name, room);
      case Packet(p, addr, stale) => Recv(p, addr, stale);
      case Configure(numdns, server) => SetServer(numdns, server);
    }

    /** However requests, packets and changes of the servers come between them: seven ticks for each
        server after a request was accepted, it has been called back, exactly once. */
    method RunOps(ops: seq<Op>)
      requires Valid() && forall k :: 0 <= k < |ops| ==> GoodOp(ops[k])
      modifies this
      ensures Valid() && |servers| == |old(servers)|
      ensures Ticks(ops) >= 7 * |servers| ==> forall id: nat :: id < old(accepted) ==> Count(calls, id) == 1
    {
      hide EntriesOk, SlotsOk, DistinctIds, Law, Survive, Progress, InTime;
      ghost var asked, n := accepted, |servers|;
      InTimeStarts(requests, table, packets, asked, n);
      var k := 0;
      assert ops[..0] == [];
      while k < |ops|
        invariant 0 <= k <= |ops| && Valid() && |servers| == n && asked <= accepted
        invariant InTime(requests, table, asked, n, Ticks(ops[..k]))
      {
        ghost var was, before, sofar := requests, table, accepted;
        Do(ops[k]);
        InTimeGoesOn(was, before, requests, table, asked, sofar, n, Ticks(ops[..k]), if ops[k].TimerTick? then 1 else 0);
        TicksSnoc(ops, k);
        k := k + 1;
      }
      assert ops[..k] == ops;
      if Ticks(ops) >= 7 * n {
        forall id: nat | id < asked ensures Count(calls, id) == 1 {
          AllCalled(requests, table, packets, calls, asked, accepted, n, Ticks(ops), id);
        }
      }
    }
  }

  lemma TicksSnoc(ops: seq<Op>, k: nat)
    requires k < |ops|
    ensures Ticks(ops[..k + 1]) == Ticks(ops[..k]) + if ops[k].TimerTick? then 1 else 0
  {
    assert ops[..k + 1][..k] == ops[..k];
  }

  /** The packet is a response to this query. */
  predicate Concerns(p: seq<Byte>, e: Entry) {
    |p| >= HDR + 4 && e.state == Asking && e.txid == Be16(p, 0)
  }

  ghost function VerdictOn(p: seq<Byte>, e: Entry, addr: nat, servers: seq<nat>, stale: Memory): Verdict
    requires |p| <= 0xffff && Concerns(p, e)
  {
    Classify(p, NameMemory(e.name, stale), e.serverIdx < |servers| && addr == servers[e.serverIdx])
  }

  /** What the callbacks are given. */
  function AnswerOf(v: Verdict): Option<seq<Byte>> {
    if v.Address? then Some(v.ip) else None
  }

  /** The name of an entry as the matcher reads it. */
  function NameMemory(name: seq<Byte>, stale: Memory): Memory {
    (k: nat) => if k < |name| then name[k] else stale(k)
  }

  /** What a response does to the query it is for. */
  predicate Received(e: Entry, e': Entry, v: Verdict) {
    match v
    case Ignored => e' == e
    case NoAddress => e' == e.(state := Unused)
    case Address(ip, ttl) =>
      e' == e.(state := if ttl == 0 then Unused else Done, ip := ip, ttl := if ttl > MAX_TTL then MAX_TTL else ttl)
  }

  ghost predicate Asked(table: seq<Entry>, name: seq<Byte>) {
    exists i :: 0 <= i < |table| && table[i].state == Asking && SameName(name, table[i].name)
  }

  lemma SameNameReflexive(name: seq<Byte>)
    ensures SameName(name, name)
  {
  }

  predicate OneTickLess(e: Entry, e': Entry, servers: seq<nat>) {
    && TicksLeft(e', servers) == TicksLeft(e, servers) - 1
    && MaxLeft(e', |servers|) == MaxLeft(e, |servers|) - 1
  }

  /** What one tick does to a query: it ends when its lifetime is over, and else has one tick less. */
  predicate AskTicked(e: Entry, e': Entry, servers: seq<nat>) {
    if Lifetime(e, servers) == 1 then e'.state == Unused
    else
      && e'.state == Asking && e'.name == e.name && e'.txid == e.txid
      && OneTickLess(e, e', servers) && Lifetime(e', servers) == Lifetime(e, servers) - 1
  }

  /** What one tick does to an entry. */
  predicate Ticked(e: Entry, e': Entry, servers: seq<nat>) {
    match e.state
    case Unused => e' == e
    case New => true
    case Asking => AskTicked(e, e', servers)
    case Done => e' == if e.ttl <= 1 then e.(state := Unused, ttl := 0) else e.(ttl := e.ttl - 1)
  }

  function Id(start: nat, k: nat): nat {
    (start + k) % 0x10000
  }

  /** `tried` holds ids that the counter took in its first `tries` steps from `start`. */
  ghost predicate Tried(tried: set<nat>, start: nat, tries: nat) {
    forall x :: x in tried ==> exists k :: 0 < k <= tries && x == Id(start, k)
  }

  lemma IdsDiffer(start: nat, k: nat, tries: nat)
    requires 0 < k <= tries < 0xffff
    ensures Id(start, k) != Id(start, tries + 1)
  {
    DifferentIds(start + k, start + tries + 1);
  }

  lemma NextId(start: nat, tries: nat)
    ensures (Id(start, tries) + 1) % 0x10000 == Id(start, tries + 1)
  {
  }

  /** The counter does not come back to an id within 65535 steps. */
  lemma NextTry(tried: set<nat>, start: nat, tries: nat)
    requires Tried(tried, start, tries) && tries < 0xffff
    ensures (Id(start, tries) + 1) % 0x10000 == Id(start, tries + 1)
    ensures Id(start, tries + 1) !in tried && Tried(tried + {Id(start, tries + 1)}, start, tries + 1)
  {
    hide Id;
    NextId(start, tries);
    forall x | x in tried ensures x != Id(start, tries + 1) {
      var k :| 0 < k <= tries && x == Id(start, k);
      IdsDiffer(start, k, tries);
    }
  }

  /** One tick of a query that goes on: the countdown goes down, or it is asked again. */
  lemma TickLess(e: Entry, e': Entry, servers: seq<nat>)
    requires CountdownOk(e, |servers|)
    requires if e.tmr > 1 then e' == e.(tmr := e.tmr - 1)
             else if e.retries + 1 == MAX_RETRIES
             then e.serverIdx + 1 < |servers| && servers[e.serverIdx + 1] != 0
                  && e'.serverIdx == e.serverIdx + 1 && e'.tmr == 1 && e'.retries == 0
             else e'.serverIdx == e.serverIdx && e'.retries == e.retries + 1 == e'.tmr
    ensures OneTickLess(e, e', servers) && CountdownOk(e', |servers|)
  {
    if e.tmr == 1 {
      TickStep(e, e', servers);
    }
  }

  lemma StillAsked(e: Entry, e': Entry, servers: seq<nat>)
    requires CountdownOk(e, |servers|) && e.tmr > 1 && e.state == Asking && e' == e.(tmr := e.tmr - 1)
    requires OneTickLess(e, e', servers)
    ensures AskTicked(e, e', servers)
  {
    LifetimeBound(e', servers);
  }

  /** A packet is due: to a server that is not configured any more it is not sent. */
  lemma AskedAgain(e: Entry, e': Entry, servers: seq<nat>)
    requires CountdownOk(e, |servers|) && CountdownOk(e', |servers|) && e.tmr == 1 && OneTickLess(e, e', servers)
    requires e.state == e'.state == Asking && e'.name == e.name && e'.txid == e.txid
    requires if e.retries + 1 == MAX_RETRIES then e'.retries == 0 && servers[e'.serverIdx] != 0
             else e'.serverIdx == e.serverIdx
    ensures servers[e'.serverIdx] != 0 ==> AskTicked(e, e', servers)
    ensures servers[e'.serverIdx] == 0 ==> AskTicked(e, e'.(state := Unused), servers)
  {
    LifetimeBound(e', servers);
  }

  lemma LastTick(e: Entry, e': Entry, servers: seq<nat>)
    requires CountdownOk(e, |servers|) && e.tmr == 1 && e.retries + 1 == MAX_RETRIES && e'.state == Unused
    requires e.serverIdx + 1 >= |servers| || servers[e.serverIdx + 1] == 0
    ensures AskTicked(e, e', servers)
  {
    assert RetryTicks(3) == 0;
  }

  /** After `t` ticks exactly the queries with a longer lifetime are still asked. */
  ghost predicate Lives(was: seq<Entry>, now: seq<Entry>, servers: seq<nat>, t: nat) {
    |was| == |now| && forall i :: 0 <= i < |now| ==>
      && (now[i].state == Asking <==> was[i].state == Asking && t < Lifetime(was[i], servers))
      && (now[i].state == Asking ==> Lifetime(now[i], servers) + t == Lifetime(was[i], servers))
      && (was[i].state == Asking ==> Lifetime(was[i], servers) <= TicksLeft(was[i], servers) <= 7 * |servers|)
  }

  lemma LivesStart(table: seq<Entry>, packets: seq<nat>, servers: seq<nat>)
    requires |packets| == |table| && EntriesOk(table, packets, |servers|, -1)
    ensures Lives(table, table, servers, 0)
  {
    hide Lifetime, TicksLeft;
    forall i | 0 <= i < |table| && table[i].state == Asking
      ensures 0 < Lifetime(table[i], servers) <= TicksLeft(table[i], servers) <= 7 * |servers|
    {
      LifetimeBound(table[i], servers);
    }
  }

  lemma LivesOn(was: seq<Entry>, before: seq<Entry>, now: seq<Entry>, servers: seq<nat>, t: nat)
    requires Lives(was, before, servers, t) && |now| == |before|
    requires forall i :: 0 <= i < |now| ==> Ticked(before[i], now[i], servers) && before[i].state != New
    ensures Lives(was, now, servers, t + 1)
  {
    hide Lifetime, TicksLeft, MaxLeft;
  }

  lemma NobodyWaits(requests: seq<Request>, table: seq<Entry>)
    requires SlotsOk(requests, table, -1) && forall i :: 0 <= i < |table| ==> table[i].state != Asking
    ensures forall r :: 0 <= r < |requests| ==> requests[r].found.None?
  {
  }

  lemma AllDelivered(requests: seq<Request>, calls: seq<Call>, accepted: nat)
    requires Law(requests, calls, accepted) && forall r :: 0 <= r < |requests| ==> requests[r].found.None?
    ensures forall id: nat :: id < accepted ==> Count(calls, id) == 1
  {
  }

  /** A retry or a change of server takes exactly one tick off the time that is left. */
  lemma TickStep(e: Entry, e': Entry, servers: seq<nat>)
    requires CountdownOk(e, |servers|) && e.tmr == 1
    requires if e.retries + 1 == MAX_RETRIES
             then e.serverIdx + 1 < |servers| && servers[e.serverIdx + 1] != 0
                  && e'.serverIdx == e.serverIdx + 1 && e'.tmr == 1 && e'.retries == 0
             else e'.serverIdx == e.serverIdx && e'.retries == e.retries + 1 == e'.tmr
    ensures TicksLeft(e', servers) == TicksLeft(e, servers) - 1
    ensures MaxLeft(e', |servers|) == MaxLeft(e, |servers|) - 1
  {
    assert RetryTicks(3) == 0 && RetryTicks(2) == 3 && RetryTicks(1) == 5 && RetryTicks(0) == 6;
  }
}
