/**
  The receive side of a TCP socket: `lwip_recvfrom`.

  What the network layer hands over is described by an oracle: the result of the
  n-th fetch, and the receive-event counter as the n-th test of it finds it.
 */
module RecvStream {

  import opened Basics

  type Byte = bv8

  /** A received buffer; `push` is its PBUF_FLAG_PUSH. TCP passes on no empty buffers. */
  datatype Buffer = Buffer(data: seq<Byte>, push: bool)

  datatype Fetch = Data(buf: Buffer) | Closed | Failed

  datatype Network = Network(fetch: nat -> Fetch, rcvevent: nat -> int)

  ghost predicate ValidBuffer(b: Buffer) {
    0 < |b.data| <= 0xffff
  }

  ghost predicate ValidNetwork(net: Network) {
    forall n: nat :: net.fetch(n).Data? ==> ValidBuffer(net.fetch(n).buf)
  }

  /** How a call ends: with bytes, with EWOULDBLOCK, at the end of the stream, or with an error. */
  datatype Outcome = Bytes | WouldBlock | EndOfStream | Error

  function Min(a: nat, b: nat): nat {
    if a < b then a else b
  }

  /** The buffers among the fetches number `lo` to `hi - 1`, one after the other. */
  function Fetched(net: Network, lo: nat, hi: nat): seq<Byte>
    requires lo <= hi
    decreases hi
  {
    if lo == hi then []
    else Fetched(net, lo, hi - 1) + (if net.fetch(hi - 1).Data? then net.fetch(hi - 1).buf.data else [])
  }

  lemma {:induction false} FetchedSplit(net: Network, a: nat, b: nat, c: nat)
    requires a <= b <= c
    ensures Fetched(net, a, c) == Fetched(net, a, b) + Fetched(net, b, c)
    decreases c
  {
    if b == c {
    } else {
      FetchedSplit(net, a, b, c - 1);
    }
  }

  /** What was delivered before can be taken off both sides. */
  lemma StreamLaw(d: seq<Byte>, mem: seq<Byte>, rest: seq<Byte>, rest0: seq<Byte>, more: seq<Byte>)
    requires (d + mem) + rest == (d + rest0) + more
    ensures mem + rest == rest0 + more
  {
    assert mem + rest == ((d + mem) + rest)[|d|..];
    assert rest0 + more == ((d + rest0) + more)[|d|..];
  }

  lemma DropDrop(data: seq<Byte>, off: nat, n: nat)
    requires off + n <= |data|
    ensures data[off..][..n] == data[off..off + n] && data[off..][n..] == data[off + n..]
  {
  }

  lemma TakeLaw(d: seq<Byte>, rest: seq<Byte>, n: nat)
    requires n <= |rest|
    ensures (d + rest[..n]) + rest[n..] == d + rest && (n == |rest| ==> rest[n..] == [])
  {
  }

  class TcpSocket {
    const net: Network
    var nonblocking: bool
    var lastdata: Option<Buffer>
    var lastoffset: nat
    var fetches: nat
    var tests: nat
    /** Receive events raised again so that select sees the end of the stream. */
    var replayed: nat
    /** All bytes that reads without MSG_PEEK have returned. */
    ghost var delivered: seq<Byte>

    ghost predicate Valid()
      reads this
    {
      && ValidNetwork(net)
      && (lastdata.None? ==> lastoffset == 0)
      && (lastdata.Some? ==> ValidBuffer(lastdata.value) && lastoffset < |lastdata.value.data|)
      && delivered + Rest() == Fetched(net, 0, fetches)
    }

    /** The part of the last buffer that no read has returned yet. */
    ghost function Rest(): seq<Byte>
      reads this
      requires lastdata.Some? ==> lastoffset <= |lastdata.value.data|
    {
      if lastdata.Some? then lastdata.value.data[lastoffset..] else []
    }

    /** The last of the fetches from number `first` on found the stream closed. */
    ghost predicate EndsClosed(first: nat)
      reads this
    {
      first < fetches && net.fetch(fetches - 1).Closed?
    }

    constructor (net: Network)
      requires ValidNetwork(net)
      ensures Valid() && this.net == net && delivered == [] && fetches == 0 && Rest() == []
    {
      this.net := net;
      nonblocking := false;
      lastdata := None;
      lastoffset := 0;
      fetches := 0;
      tests := 0;
      replayed := 0;
      delivered := [];
    }

    /** The first half of a turn: make sure there is a buffer, or say why there is none. */
    method Refill(dontwait: bool) returns (st: Outcome)
      requires Valid()
      modifies `lastdata, `fetches, `tests
      ensures Valid() && old(fetches) <= fetches
      ensures st == Bytes <==> lastdata.Some?
      ensures Rest() == old(Rest()) + Fetched(net, old(fetches), fetches)
      ensures old(lastdata).Some? ==> lastdata == old(lastdata) && fetches == old(fetches)
      ensures st == WouldBlock ==> (dontwait || nonblocking) && fetches == old(fetches)
      ensures st == EndOfStream <==> EndsClosed(old(fetches))
    {
      if lastdata.Some? {
        return Bytes;
      }
      if dontwait || nonblocking {
        var rcvevent := net.rcvevent(tests);
        tests := tests + 1;
        if rcvevent <= 0 {
          return WouldBlock;
        }
      }
      var got := net.fetch(fetches);
      fetches := fetches + 1;
      match got {
        case Data(buf) =>
          lastdata := Some(buf);
          return Bytes;
        case Closed =>
          return EndOfStream;
        case Failed =>
          return Error;
      }
    }

    /** The loop of lwip_recvfrom. */
    method RecvLoop(len0: nat, peek: bool, dontwait: bool) returns (out: Outcome, mem: seq<Byte>)
      requires Valid()
      modifies `lastdata, `lastoffset, `fetches, `tests, `delivered, `replayed
      ensures Valid() && old(fetches) <= fetches && |mem| <= len0 && (out != Bytes ==> mem == [])
      ensures delivered == if peek then old(delivered) else old(delivered) + mem
      ensures peek ==> mem <= Rest()
      ensures out == Bytes ==> Min(len0, |old(Rest())|) <= |mem| && (len0 > 0 ==> |mem| > 0)
      ensures old(lastdata).Some? ==> out == Bytes
      ensures out == WouldBlock ==> dontwait || nonblocking
      ensures out == EndOfStream ==> EndsClosed(old(fetches))
      ensures replayed == old(replayed) + if out == Bytes && EndsClosed(old(fetches)) then 1 else 0
    {
      hide Fetched, ValidNetwork, ValidBuffer;
      var len: nat, done := len0, false;
      out, mem := Bytes, [];
      while !done
        invariant Valid() && out == Bytes && old(fetches) <= fetches && |mem| + len == len0
        invariant replayed == old(replayed) && !EndsClosed(old(fetches))
        invariant delivered == if peek then old(delivered) else old(delivered) + mem
        invariant done && peek ==> mem <= Rest()
        invariant done || |mem| > 0 ==> Min(len0, |old(Rest())|) <= |mem| && (len0 > 0 ==> |mem| > 0)
        invariant !done && |mem| > 0 ==> !peek && lastdata.None? && len > 0
        invariant !done && |mem| == 0 ==> fetches == old(fetches) && lastdata == old(lastdata) && lastoffset == old(lastoffset)
        decreases !done, len
      {
        var st, piece;
        st, piece, done := Turn(len, peek, dontwait);
        if st != Bytes {
          if |mem| > 0 {
            if st == EndOfStream {
              replayed := replayed + 1;
            }
            return;
          }
          out := st;
          return;
        }
        Assoc(old(delivered), mem, piece);
        mem := mem + piece;
        len := len - |piece|;
      }
    }

    /** One turn of the loop: a buffer, and a piece of it. */
    method Turn(len: nat, peek: bool, dontwait: bool) returns (st: Outcome, piece: seq<Byte>, done: bool)
      requires Valid()
      modifies `lastdata, `lastoffset, `fetches, `tests, `delivered
      ensures Valid() && old(fetches) <= fetches
      ensures st != Bytes ==> piece == [] && delivered == old(delivered) && old(lastdata).None? && lastdata.None?
      ensures st == WouldBlock ==> (dontwait || nonblocking) && fetches == old(fetches)
      ensures st == EndOfStream <==> EndsClosed(old(fetches))
      ensures st == Bytes ==>
        && Min(len, |old(Rest())|) <= |piece| <= len && (len > 0 ==> |piece| > 0)
        && delivered == (if peek then old(delivered) else old(delivered) + piece)
        && (peek ==> done && piece <= Rest()) && (!done ==> |piece| < len && lastdata.None?)
    {
      hide Fetched, ValidNetwork;
      st := Refill(dontwait);
      piece, done := [], false;
      if st == Bytes {
        piece, done := TakePiece(len, peek);
      }
    }

    /** lwip_recvfrom on a TCP socket: a read returns the next bytes of the stream and
        leaves the others, a peek returns them and leaves them all. */
    method Recv(len: nat, peek: bool, dontwait: bool) returns (out: Outcome, mem: seq<Byte>)
      requires Valid()
      modifies `lastdata, `lastoffset, `fetches, `tests, `delivered, `replayed
      ensures Valid() && old(fetches) <= fetches && |mem| <= len && (out != Bytes ==> mem == [])
      ensures delivered == if peek then old(delivered) else old(delivered) + mem
      ensures var stream := old(Rest()) + Fetched(net, old(fetches), fetches);
              if peek then mem <= Rest() == stream else mem + Rest() == stream
      ensures out == Bytes ==> Min(len, |old(Rest())|) <= |mem| && (len > 0 ==> |mem| > 0)
      ensures old(lastdata).Some? ==> out == Bytes
      ensures out == WouldBlock ==> dontwait || nonblocking
      ensures out == EndOfStream ==> EndsClosed(old(fetches))
      ensures replayed == old(replayed) + if out == Bytes && EndsClosed(old(fetches)) then 1 else 0
    {
      hide Fetched, ValidNetwork, ValidBuffer;
      out, mem := RecvLoop(len, peek, dontwait);
      FetchedSplit(net, 0, old(fetches), fetches);
      assert delivered == old(delivered) + if peek then [] else mem;
      StreamLaw(old(delivered), if peek then [] else mem, Rest(), old(Rest()), Fetched(net, old(fetches), fetches));
    }

    /** One turn of the loop once there is a buffer: copy, decide whether to go on, and
        give up what was copied unless the call only peeks. */
    method TakePiece(len: nat, peek: bool) returns (piece: seq<Byte>, done: bool)
      requires Valid() && lastdata.Some?
      modifies `lastdata, `lastoffset, `tests, `delivered
      ensures Valid()
      ensures piece == old(Rest())[..Min(len, |old(Rest())|)]
      ensures if peek then done && lastdata == old(lastdata) && lastoffset == old(lastoffset)
              else Rest() == old(Rest())[|piece|..]
      ensures delivered == if peek then old(delivered) else old(delivered) + piece
      ensures !done ==> |piece| < len && lastdata.None?
    {
      hide Fetched, ValidNetwork, ValidBuffer;
      var buf := lastdata.value;
      var buflen := |buf.data| - lastoffset;
      var copylen := if len > buflen then buflen else len;
      piece := buf.data[lastoffset..lastoffset + copylen];
      DropDrop(buf.data, lastoffset, copylen);
      var rcvevent := net.rcvevent(tests);
      tests := tests + 1;
      done := len - copylen <= 0 || buf.push || rcvevent <= 0 || peek;
      if !peek {
        Consume(copylen);
      }
    }

    /** The first `n` bytes of the buffer have been handed out: the others are saved, if there are any. */
    method Consume(n: nat)
      requires Valid() && lastdata.Some? && n <= |Rest()|
      modifies `lastdata, `lastoffset, `delivered
      ensures Valid() && Rest() == old(Rest())[n..] && delivered == old(delivered) + old(Rest())[..n]
      ensures lastdata.None? <==> n == |old(Rest())|
    {
      hide Fetched, ValidNetwork, ValidBuffer;
      ghost var rest := Rest();
      TakeLaw(delivered, rest, n);
      delivered := delivered + rest[..n];
      if |lastdata.value.data| - lastoffset - n > 0 {
        DropDrop(lastdata.value.data, lastoffset, n);
        lastoffset := lastoffset + n;
      } else {
        lastdata := None;
        lastoffset := 0;
      }
    }

    /** A peek consumes nothing: it returns what the read after it starts with. */
    method PeekThenRead(n: nat, m: nat, dontwaitPeek: bool, dontwaitRead: bool) returns (seen: seq<Byte>, mem: seq<Byte>)
      requires Valid()
      modifies this
      ensures Valid() && delivered == old(delivered) + mem
      ensures var k := Min(|seen|, |mem|); seen[..k] == mem[..k]
      ensures seen != [] ==> Min(m, |seen|) <= |mem|
    {
      var peekOut, readOut;
      peekOut, seen := Recv(n, true, dontwaitPeek);
      ghost var rest, before := Rest(), fetches;
      readOut, mem := Recv(m, false, dontwaitRead);
      assert mem <= rest + Fetched(net, before, fetches);
      assert seen <= rest + Fetched(net, before, fetches);
    }
  }
}
