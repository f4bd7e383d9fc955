/** `socket.c` as it runs: a connection assembles messages in a buffer it keeps between
    calls, over a network that delivers when and as it likes. */
module Socket {
  import opened Bytes
  import opened F = Framing

  /** One end of a TCP stream: bytes written, and bytes on their way in. */
  class Net {
    var sent: seq<byte>
    var inbox: seq<byte>
    var closed: bool

    /** `recv`: whatever has arrived, at most `max` bytes; all of `max` or nothing when
        the caller waits for all. */
    method Recv(max: nat, waitAll: bool) returns (r: Recv)
      requires max > 0
      modifies this`inbox
      ensures r.Got? ==> 0 < |r.bytes| <= max && (waitAll ==> |r.bytes| == max)
      ensures old(inbox) == (if r.Got? then r.bytes else []) + inbox
      ensures r.Closed? <==> closed && old(inbox) == []
    {
      if closed && inbox == [] {
        return Closed;
      }
      var k := if |inbox| < max then |inbox| else max;
      if * {
        k :| 0 <= k <= |inbox| && k <= max;
      }
      if k == 0 || (waitAll && k < max) {
        return Again;
      }
      r := Got(inbox[..k]);
      inbox := inbox[k..];
    }

    /** `send`, taken whole. */
    method Send(package: array<byte>)
      modifies this`sent
      ensures sent == old(sent) + package[..]
    {
      sent := sent + package[..];
    }
  }

  /** `n >> (k * 8)`. */
  function Shift(n: nat, k: nat): nat {
    if k == 0 then n else Shift(n / 0x100, k - 1)
  }

  lemma {:induction false} ShiftHeader(n: nat)
    ensures Header(n) == [Shift(n, 3) % 0x100, Shift(n, 2) % 0x100, Shift(n, 1) % 0x100, Shift(n, 0) % 0x100]
  {
    assert n / 0x100 / 0x100 == n / 0x1_0000 && n / 0x1_0000 / 0x100 == n / 0x100_0000;
    assert Shift(n, 3) == Shift(n / 0x100, 2) == Shift(n / 0x100 / 0x100, 1) == Shift(n / 0x100 / 0x100 / 0x100, 0);
    assert Shift(n, 2) == Shift(n / 0x100, 1) == Shift(n / 0x100 / 0x100, 0);
    assert Shift(n, 1) == Shift(n / 0x100, 0);
  }

  /** `socket_send`: nothing for an empty message, otherwise its frame. */
  method SocketSend(net: Net, data: array<byte>) returns (ret: int)
    requires data.Length < 0x8000_0000
    modifies net`sent
    ensures data.Length == 0 ==> ret == -1 && net.sent == old(net.sent)
    ensures data.Length > 0 ==> ret == 4 + data.Length && net.sent == old(net.sent) + Frame(data[..])
  {
    var dataLen := data.Length;
    if dataLen <= 0 {
      return -1;
    }
    var package := new byte[4 + dataLen](_ => 0);
    ShiftHeader(dataLen);
    for i := 0 to 4
      invariant net.sent == old(net.sent)
      invariant forall k :: 0 <= k < i ==> package[k] == Header(dataLen)[k]
    {
      package[i] := Shift(dataLen, 3 - i) % 0x100;
    }
    forall i | 0 <= i < dataLen {
      package[4 + i] := data[i];
    }
    assert package[..] == Frame(data[..]);
    net.Send(package);
    return 4 + dataLen;
  }

  /** `conn_t`'s receive buffer. */
  class Connection {
    var rbuf: array?<byte>
    var rbytes: nat
    var rsize: nat

    ghost predicate Valid()
      reads this
    {
      if rbuf == null then rbytes == rsize == 0 else rbuf.Length == rsize + 1 && rbytes < rsize
    }

    /** What the buffer stands for. */
    ghost function State(): Rx
      requires Valid()
      reads this, rbuf
    {
      if rbuf == null then Idle else Filling(rsize, rbuf[..rbytes])
    }

    constructor ()
      ensures Valid() && State() == Idle
    {
      rbuf, rbytes, rsize := null, 0, 0;
    }

    /** `recv_data_len`: the header, accumulated byte by byte. */
    method RecvLength(net: Net) returns (len: int, ghost head: Recv)
      modifies net`inbox
      ensures head.Got? ==> |head.bytes| == 4
      ensures len == RecvDataLen(head)
      ensures old(net.inbox) == (if head.Got? then head.bytes else []) + net.inbox
      ensures (head.Closed? <==> net.closed && old(net.inbox) == []) && (head.Closed? ==> len == 0)
    {
      var r := net.Recv(4, true);
      head := r;
      if r.Again? {
        return -1, head;
      }
      if r.Closed? {
        return 0, head;
      }
      var buf := r.bytes;
      if buf[0] != 0 {
        return 0, head;
      }
      len := 0;
      for i := 0 to 4
        invariant len == Accumulated(buf, i)
      {
        len := len + buf[i] * Weight(3 - i);
      }
      AccumulatedAll(buf);
    }

    /** The receive into a held buffer. */
    method RecvBody(net: Net) returns (ret: int, data: seq<byte>, ghost body: Recv)
      requires Valid() && rbuf != null
      modifies this, rbuf, net`inbox
      ensures Valid() && (rbuf == old(rbuf) || rbuf == null)
      ensures body.Got? ==> 0 < |body.bytes| <= old(rsize - rbytes)
      ensures Fill(old(rsize), old(rbuf[..rbytes]), body) == (State(), ToReply(ret, data))
      ensures old(net.inbox) == (if body.Got? then body.bytes else []) + net.inbox
      ensures (body.Closed? <==> net.closed && old(net.inbox) == []) && (body.Closed? ==> ret == 0)
    {
      data := [];
      ghost var before := rbuf[..rbytes];
      var r := net.Recv(rsize - rbytes, false);
      body := r;
      if r.Again? {
        return -1, [], body;
      }
      if r.Closed? {
        return 0, [], body;
      }
      forall i | 0 <= i < |r.bytes| {
        rbuf[rbytes + i] := r.bytes[i];
      }
      rbytes := rbytes + |r.bytes|;
      assert rbuf[..rbytes] == before + r.bytes;
      if rbytes == rsize {
        data := rbuf[..rsize];
        rbuf, rsize, rbytes := null, 0, 0;
        return 1, data, body;
      }
      return -1, [], body;
    }

    /** `socket_recv`: -1 to wait, 0 to hang up, 1 with the message. One call is one step
        of the reassembly machine, and takes from the network exactly what it accounts for. */
    method SocketRecv(net: Net, limit: int) returns (ret: int, data: seq<byte>, ghost c: Call)
      requires Valid()
      modifies this, rbuf, net`inbox
      ensures Valid() && (rbuf == old(rbuf) || rbuf == null || fresh(rbuf))
      ensures Legal(old(State()), limit, c)
      ensures F.SocketRecv(old(State()), limit, c.head, c.body) == (State(), ToReply(ret, data))
      ensures old(net.inbox) == Taken(old(State()), limit, c) + net.inbox
      ensures c.head.Closed? || c.body.Closed? ==> net.closed && net.inbox == []
      ensures net.closed && old(net.inbox) == [] ==> ret == 0
    {
      hide F.RecvDataLen, F.Header, F.Fill;
      c := Call(Again, Again);
      if rbuf == null {
        var len;
        ghost var head;
        len, head := RecvLength(net);
        c := Call(head, Again);
        if len <= 0 {
          return len, [], c;
        }
        if len > limit {
          return 0, [], c;
        }
        rbuf := new byte[len + 1](_ => 0);
        rsize := len;
        rbytes := 0;
        assert rbuf[..rbytes] == [];
      }
      ghost var body;
      ret, data, body := RecvBody(net);
      c := c.(body := body);
    }
  }

  lemma {:induction false} CallsSnoc(limit: int, cs: seq<Call>, c: Call)
    requires AllLegal(limit, cs) && Legal(Calls(Idle, limit, cs).rx, limit, c)
    ensures AllLegal(limit, cs + [c])
    ensures (cs + [c])[..|cs|] == cs
  {
    hide Calls, Legal;
    forall k | 0 <= k < |cs + [c]| ensures Legal(Calls(Idle, limit, (cs + [c])[..k]).rx, limit, (cs + [c])[k]) {
      assert (cs + [c])[..k] == cs[..k];
      assert cs[..|cs|] == cs;
    }
  }

  /** The event loop's repeated `socket_recv` on one connection: whatever the network
      does, it hands out a prefix of the messages sent, and all of them once the stream is
      drained. It hangs up only on a stream that is closed and drained, and then has handed
      out every message; the first call that finds it so hangs up. */
  method ReadLoop(net: Net, conn: Connection, limit: int, rounds: nat, ghost sent: seq<seq<byte>>)
      returns (delivered: seq<seq<byte>>, hungup: bool)
    requires conn.Valid() && conn.State() == Idle
    requires net.inbox == Frames(sent) && forall m <- sent :: Fits(limit, m)
    modifies net`inbox, conn
    ensures delivered <= sent
    ensures net.inbox == [] ==> delivered == sent
    ensures hungup ==> net.closed && net.inbox == []
    ensures net.closed && sent == [] && rounds > 0 ==> hungup
  {
    hide Calls, F.SocketRecv, Frames, Taken, Legal, Header, Fits;
    delivered, hungup := [], false;
    ghost var cs: seq<Call> := [];
    StartRun(limit);
    NoFrames();
    var round := 0;
    while round < rounds && !hungup
      invariant conn.Valid() && (conn.rbuf == null || fresh(conn.rbuf))
      invariant AllLegal(limit, cs) && NoClose(cs)
      invariant var r := Calls(Idle, limit, cs);
                r.rx == conn.State() && r.messages == delivered && r.taken + net.inbox == Frames(sent)
      invariant hungup ==> net.closed && net.inbox == []
      invariant net.closed && sent == [] && round > 0 ==> hungup
    {
      ghost var rx := conn.State();
      var ret, data;
      ghost var c;
      ret, data, c := conn.SocketRecv(net, limit);
      if ret == 0 {
        HangupByClose(limit, cs, c, sent);
      }
      StillOpen(rx, limit, c);
      CallsSnoc(limit, cs, Unclosed(c));
      CallsStep(limit, cs, Unclosed(c));
      cs := cs + [Unclosed(c)];
      if ret > 0 {
        delivered := delivered + [data];
      } else if ret == 0 {
        hungup := true;
      }
      round := round + 1;
    }
    assert Calls(Idle, limit, cs).taken + [] == Calls(Idle, limit, cs).taken;
    Delivery(limit, cs, sent);
  }

  /** The call as it would have gone had the stream stayed open. */
  function Unclosed(c: Call): Call {
    Call(if c.head.Closed? then Again else c.head, if c.body.Closed? then Again else c.body)
  }

  lemma {:induction false} StillOpen(rx: Rx, limit: int, c: Call)
    requires Legal(rx, limit, c)
    ensures Legal(rx, limit, Unclosed(c)) && Taken(rx, limit, Unclosed(c)) == Taken(rx, limit, c)
    ensures F.SocketRecv(rx, limit, Unclosed(c).head, Unclosed(c).body).0 == F.SocketRecv(rx, limit, c.head, c.body).0
    ensures var reply, reply' := F.SocketRecv(rx, limit, c.head, c.body).1, F.SocketRecv(rx, limit, Unclosed(c).head, Unclosed(c).body).1;
            if reply.Hangup? then !reply'.Message? else reply' == reply
  {
  }

  /** On a stream of acceptable frames a hang-up has found the stream closed. */
  lemma {:induction false} HangupByClose(limit: int, cs: seq<Call>, c: Call, sent: seq<seq<byte>>)
    requires AllLegal(limit, cs) && NoClose(cs) && (forall m <- sent :: Fits(limit, m))
    requires var r := Calls(Idle, limit, cs);
             && Legal(r.rx, limit, c) && r.taken + Taken(r.rx, limit, c) <= Frames(sent)
             && F.SocketRecv(r.rx, limit, c.head, c.body).1.Hangup?
    ensures c.head.Closed? || c.body.Closed?
  {
    hide Calls, F.SocketRecv, Frames, Taken, Legal, Header, Fits;
    if !c.head.Closed? && !c.body.Closed? {
      CallsSnoc(limit, cs, c);
      CallsStep(limit, cs, c);
      NeverHangsUp(limit, cs + [c], sent);
    }
  }

  lemma {:induction false} StartRun(limit: int)
    ensures Calls(Idle, limit, []) == Run(Idle, [], [], false) && AllLegal(limit, []) && NoClose([])
  {
  }

  lemma {:induction false} CallsStep(limit: int, cs: seq<Call>, c: Call)
    requires (cs + [c])[..|cs|] == cs
    ensures var r, r' := Calls(Idle, limit, cs), Calls(Idle, limit, cs + [c]);
            var (rx', reply) := F.SocketRecv(r.rx, limit, c.head, c.body);
            && r'.rx == rx'
            && r'.messages == (if reply.Message? then r.messages + [reply.data] else r.messages)
            && r'.taken == r.taken + Taken(r.rx, limit, c)
            && (reply.Hangup? ==> r'.hungup)
  {
    hide F.SocketRecv, Taken;
  }

  function ToReply(ret: int, data: seq<byte>): Reply {
    if ret < 0 then Wait else if ret == 0 then Hangup else Message(data)
  }

  function Weight(k: nat): nat {
    if k == 0 then 1 else 0x100 * Weight(k - 1)
  }

  function Accumulated(buf: seq<byte>, n: nat): int
    requires n <= 4 == |buf|
  {
    if n == 0 then 0 else Accumulated(buf, n - 1) + buf[n - 1] * Weight(4 - n)
  }

  lemma {:induction false} AccumulatedAll(buf: seq<byte>)
    requires |buf| == 4 && buf[0] == 0
    ensures Accumulated(buf, 4) == BigEndian(buf[1], buf[2], buf[3])
  {
    assert Weight(1) == 0x100 && Weight(2) == 0x1_0000 && Weight(3) == 0x100_0000;
    assert Accumulated(buf, 1) == 0;
    assert Accumulated(buf, 2) == BigEndian(buf[1], 0, 0);
    assert Accumulated(buf, 3) == BigEndian(buf[1], buf[2], 0);
  }
}
