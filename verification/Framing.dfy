/** Length-prefixed frames over a byte stream: `socket_send`, `recv_data_len` and the
    incremental reassembly of `socket_recv`. */
module Framing {
  import opened Bytes

  /** The four length bytes `socket_send` puts in front, high byte first. */
  function Header(n: nat): (h: seq<byte>)
    ensures |h| == 4
  {
    [n / 0x100_0000 % 256, n / 0x1_0000 % 256, n / 0x100 % 256, n % 256]
  }

  function Frame(m: seq<byte>): seq<byte> {
    Header(|m|) + m
  }

  function Frames(ms: seq<seq<byte>>): seq<byte> {
    if ms == [] then [] else Frame(ms[0]) + Frames(ms[1..])
  }

  /** What one `recv` brings: nothing yet, the end of the stream, or some bytes. */
  datatype Recv = Again | Closed | Got(bytes: seq<byte>)

  /** The reassembly state: no buffer, or `rsize` bytes expected and `rbuf[..rbytes]` received. */
  datatype Rx = Idle | Filling(size: nat, got: seq<byte>)

  /** `socket_recv`'s answer: -1, 0, or 1 with the message. */
  datatype Reply = Wait | Hangup | Message(data: seq<byte>)

  /** `recv_data_len`: -1 without data, 0 to hang up, otherwise the length. */
  function RecvDataLen(head: Recv): int {
    match head
    case Again => -1
    case Closed => 0
    case Got(b) =>
      if |b| != 4 || b[0] != 0 then 0 else BigEndian(b[1], b[2], b[3])
  }

  function BigEndian(x: int, y: int, z: int): int {
    x * 0x1_0000 + y * 0x100 + z
  }

  /** `socket_recv`, given what its receive calls bring. */
  function SocketRecv(rx: Rx, limit: int, head: Recv, body: Recv): (Rx, Reply) {
    match rx
    case Filling(size, got) => Fill(size, got, body)
    case Idle =>
      var n := RecvDataLen(head);
      if n < 0 then (Idle, Wait)
      else if n == 0 || n > limit then (Idle, Hangup)
      else Fill(n, [], body)
  }

  function Fill(size: nat, got: seq<byte>, body: Recv): (Rx, Reply) {
    match body
    case Again => (Filling(size, got), Wait)
    case Closed => (Filling(size, got), Hangup)
    case Got(b) =>
      if |got + b| == size then (Idle, Message(got + b)) else (Filling(size, got + b), Wait)
  }

  /** How many body bytes `socket_recv` asks for; none when it stops at the header. */
  function Room(rx: Rx, limit: int, head: Recv): nat {
    match rx
    case Filling(size, got) => if size > |got| then size - |got| else 0
    case Idle =>
      var n := RecvDataLen(head);
      if 0 < n <= limit then n else 0
  }

  /** The receives of one call, with a header that arrives whole or not at all. */
  datatype Call = Call(head: Recv, body: Recv)

  ghost predicate Legal(rx: Rx, limit: int, c: Call) {
    && (rx.Idle? && c.head.Got? ==> |c.head.bytes| == 4)
    && (c.body.Got? ==> 0 < |c.body.bytes| <= Room(rx, limit, c.head) || Room(rx, limit, c.head) == 0)
  }

  /** The bytes a call takes off the stream. */
  function Taken(rx: Rx, limit: int, c: Call): seq<byte> {
    (if rx.Idle? && c.head.Got? then c.head.bytes else [])
    + (if Room(rx, limit, c.head) > 0 && c.body.Got? then c.body.bytes else [])
  }

  /** A run of calls: the final state, the messages handed out, the bytes taken, and
      whether some call hung up. */
  datatype Run = Run(rx: Rx, messages: seq<seq<byte>>, taken: seq<byte>, hungup: bool)

  function Calls(rx: Rx, limit: int, cs: seq<Call>): Run {
    if cs == [] then Run(rx, [], [], false)
    else
      var r := Calls(rx, limit, cs[..|cs| - 1]);
      var c := cs[|cs| - 1];
      var (rx', reply) := SocketRecv(r.rx, limit, c.head, c.body);
      Run(rx',
          if reply.Message? then r.messages + [reply.data] else r.messages,
          r.taken + Taken(r.rx, limit, c),
          r.hungup || reply.Hangup?)
  }

  ghost predicate AllLegal(limit: int, cs: seq<Call>) {
    forall k :: 0 <= k < |cs| ==> Legal(Calls(Idle, limit, cs[..k]).rx, limit, cs[k])
  }

  /** A message the receiver takes. */
  predicate Fits(limit: int, m: seq<byte>) {
    0 < |m| < 0x100_0000 && |m| <= limit
  }

  /** The bytes already taken for the message being assembled. */
  function InFlight(rx: Rx): seq<byte> {
    match rx
    case Idle => []
    case Filling(size, got) => Header(size) + got
  }

  function Emitted(reply: Reply): seq<byte> {
    if reply.Message? then Frame(reply.data) else []
  }

  lemma {:induction false} HeaderBytes(n: nat)
    requires n < 0x8000_0000
    ensures 0 <= n / 0x100_0000 < 128 && (n / 0x100_0000 == 0 <==> n < 0x100_0000)
    ensures n < 0x100_0000 ==> n / 0x1_0000 < 256 && BigEndian(n / 0x1_0000 % 256, n / 0x100 % 256, n % 256) == n
  {
    var high := n / 0x1_0000;
    assert n / 0x100 == high * 256 + n / 0x100 % 256;
    assert n == n / 0x100 * 256 + n % 256;
  }

  /** The header is read back exactly when its high byte is zero. */
  lemma {:induction false} HeaderRead(n: nat)
    requires n < 0x8000_0000
    ensures RecvDataLen(Got(Header(n))) == if n < 0x100_0000 then n else 0
  {
    HeaderBytes(n);
  }

  /** The receiver takes a frame exactly when the message is non-empty, shorter than
      2^24 and within the limit. */
  lemma {:induction false} AcceptedFrames(limit: int, m: seq<byte>)
    requires |m| < 0x8000_0000
    ensures SocketRecv(Idle, limit, Got(Header(|m|)), Got(m)) == (Idle, Message(m)) <==> Fits(limit, m)
    ensures !Fits(limit, m) ==> SocketRecv(Idle, limit, Got(Header(|m|)), Got(m)) == (Idle, Hangup)
  {
    HeaderRead(|m|);
    assert [] + m == m;
  }

  lemma {:induction false} FramesSnoc(ms: seq<seq<byte>>, m: seq<byte>)
    ensures Frames(ms + [m]) == Frames(ms) + Frame(m)
    decreases |ms|
  {
    if ms == [] {
      assert [m][1..] == [];
    } else {
      assert (ms + [m])[1..] == ms[1..] + [m];
      FramesSnoc(ms[1..], m);
    }
  }

  /** One call moves bytes from the stream into the state or out as a message: nothing
      is lost, added or reordered. */
  lemma {:induction false} CallConserves(rx: Rx, limit: int, c: Call)
    requires Legal(rx, limit, c) && (rx.Filling? ==> |rx.got| < rx.size < 0x100_0000)
    ensures var (rx', reply) := SocketRecv(rx, limit, c.head, c.body);
            && (rx'.Filling? ==> |rx'.got| < rx'.size < 0x100_0000)
            && (!reply.Hangup? ==> InFlight(rx) + Taken(rx, limit, c) == Emitted(reply) + InFlight(rx'))
  {
    hide Header, Fill, Emitted, InFlight, BigEndian;
    match rx
    case Filling(size, got) =>
      FillConserves(size, got, c.body);
      assert Taken(rx, limit, c) == if c.body.Got? then c.body.bytes else [];
    case Idle =>
      IdleInFlight();
      if c.head.Got? && 0 < RecvDataLen(c.head) <= limit {
        HeaderWritten(c.head.bytes);
        FillConserves(RecvDataLen(c.head), [], c.body);
        assert [] + Taken(rx, limit, c) == (c.head.bytes + []) + if c.body.Got? then c.body.bytes else [];
      } else if c.head.Got? {
        if c.head.bytes[0] == 0 { HeaderWritten(c.head.bytes); }
      } else {
        assert Taken(rx, limit, c) == [];
      }
  }

  lemma {:induction false} IdleInFlight()
    ensures InFlight(Idle) == [] && Emitted(Wait) == []
  {
  }

  /** The body bytes of one call join those received before. */
  lemma {:induction false} FillConserves(size: nat, got: seq<byte>, body: Recv)
    requires |got| < size < 0x100_0000 && (body.Got? ==> 0 < |body.bytes| <= size - |got|)
    ensures var (rx', reply) := Fill(size, got, body);
            && (rx'.Filling? ==> |rx'.got| < rx'.size < 0x100_0000)
            && (!reply.Hangup? ==> (Header(size) + got) + (if body.Got? then body.bytes else []) == Emitted(reply) + InFlight(rx'))
    ensures InFlight(Filling(size, got)) == Header(size) + got
  {
    hide Header;
    if body.Got? {
      assert (Header(size) + got) + body.bytes == Header(size) + (got + body.bytes);
    }
  }

  /* ---------- the reply, byte by byte ---------- */

  /** What four header bytes announce, the first one highest. */
  function Announced(h: seq<byte>): nat
    requires |h| == 4
  {
    var a: int, b: int, c: int, d: int := h[0], h[1], h[2], h[3];
    a * 16777216 + b * 65536 + c * 256 + d
  }

  /** A frame is its length in four bytes, the highest first, and the message. */
  lemma {:induction false} FrameBytes(m: seq<byte>)
    requires |m| < 0x1_0000_0000
    ensures |Frame(m)| == 4 + |m| && Announced(Frame(m)[..4]) == |m| && Frame(m)[4..] == m
  {
    var n := |m|;
    assert n == n / 0x100 * 0x100 + n % 0x100;
    assert n / 0x100 == n / 0x1_0000 * 0x100 + n / 0x100 % 0x100;
    assert n / 0x1_0000 == n / 0x100_0000 * 0x100 + n / 0x1_0000 % 0x100;
  }

  /** The receiver hangs up exactly when a receive it makes finds the stream closed, or a
      header is zero, is above 2^24 or announces more than the limit. A message is handed
      out exactly when the body received completes it; otherwise what came is kept. */
  lemma {:induction false} ReplyExact(rx: Rx, limit: int, c: Call)
    requires Legal(rx, limit, c)
    ensures var (rx', reply) := SocketRecv(rx, limit, c.head, c.body);
            match rx
            case Filling(size, got) =>
              && (reply == Hangup <==> c.body == Closed)
              && (reply == Wait <==> c.body == Again || (c.body.Got? && |got| + |c.body.bytes| != size))
              && (reply.Message? ==> reply.data == got + c.body.bytes && |reply.data| == size && rx' == Idle)
              && (!reply.Message? ==> rx' == Filling(size, if c.body.Got? then got + c.body.bytes else got))
            case Idle =>
              var taken := c.head.Got? && 0 < Announced(c.head.bytes) < 16777216 && Announced(c.head.bytes) <= limit;
              && (reply == Hangup <==> c.head == Closed || (c.head.Got? && !taken) || (taken && c.body == Closed))
              && (reply == Wait <==> c.head == Again
                                     || (taken && (c.body == Again || (c.body.Got? && |c.body.bytes| != Announced(c.head.bytes)))))
              && (reply.Message? ==> taken && c.body == Got(reply.data) && |reply.data| == Announced(c.head.bytes))
              && (rx' == if taken && !reply.Message? then
                           Filling(Announced(c.head.bytes), if c.body.Got? then c.body.bytes else [])
                         else Idle)
  {
    if rx.Idle? && c.head.Got? {
      var h := c.head.bytes;
      assert h[0] == 0 ==> Announced(h) == BigEndian(h[1], h[2], h[3]);
      assert h[0] != 0 ==> Announced(h) >= 16777216;
      assert h[0] == 0 ==> Announced(h) < 16777216;
      assert c.body.Got? ==> [] + c.body.bytes == c.body.bytes;
    }
  }

  lemma {:induction false} HeaderWritten(b: seq<byte>)
    requires |b| == 4 && b[0] == 0
    ensures Header(RecvDataLen(Got(b))) == b && 0 <= RecvDataLen(Got(b)) < 0x100_0000
  {
    hide Header, BigEndian;
    BigEndianSplit(b[1], b[2], b[3]);
  }

  lemma {:induction false} BigEndianSplit(x: int, y: int, z: int)
    requires 0 <= x < 256 && 0 <= y < 256 && 0 <= z < 256
    ensures 0 <= BigEndian(x, y, z) < 0x100_0000
    ensures Header(BigEndian(x, y, z)) == [0, x, y, z]
  {
    var n := BigEndian(x, y, z);
    Digit(n, x * 0x100 + y, z);
    Digit(x * 0x100 + y, x, y);
    assert n / 0x1_0000 == n / 0x100 / 0x100 && n / 0x100_0000 == n / 0x1_0000 / 0x100;
  }

  lemma {:induction false} Digit(n: int, high: int, low: int)
    requires n == high * 0x100 + low && 0 <= low < 0x100
    ensures n / 0x100 == high && n % 0x100 == low
  {
  }

  /** Over any run without a hang-up, the bytes taken are exactly the frames of the
      messages handed out, followed by what is in flight; a held buffer is never full. */
  lemma {:induction false} RunConserves(limit: int, cs: seq<Call>)
    requires AllLegal(limit, cs)
    ensures var r := Calls(Idle, limit, cs);
            && (r.rx.Filling? ==> |r.rx.got| < r.rx.size < 0x100_0000)
            && (!r.hungup ==> r.taken == Frames(r.messages) + InFlight(r.rx))
    decreases |cs|
  {
    hide SocketRecv, Taken, Room, Legal, Frames, InFlight;
    if cs != [] {
      var front, c := cs[..|cs| - 1], cs[|cs| - 1];
      FrontLegal(limit, cs);
      RunConserves(limit, front);
      var r := Calls(Idle, limit, front);
      CallConserves(r.rx, limit, c);
      var (rx', reply) := SocketRecv(r.rx, limit, c.head, c.body);
      if reply.Message? {
        FramesSnoc(r.messages, reply.data);
      }
      if !reply.Hangup? && !r.hungup {
        calc {
          r.taken + Taken(r.rx, limit, c);
          Frames(r.messages) + (InFlight(r.rx) + Taken(r.rx, limit, c));
          Frames(r.messages) + (Emitted(reply) + InFlight(rx'));
          (Frames(r.messages) + Emitted(reply)) + InFlight(rx');
        }
      }
    } else {
      NothingTaken();
    }
  }

  lemma {:induction false} NothingTaken()
    ensures [] == Frames([]) + InFlight(Idle)
  {
  }

  lemma {:induction false} FrontLegal(limit: int, cs: seq<Call>)
    requires cs != [] && AllLegal(limit, cs)
    ensures AllLegal(limit, cs[..|cs| - 1]) && Legal(Calls(Idle, limit, cs[..|cs| - 1]).rx, limit, cs[|cs| - 1])
  {
    hide Calls, Legal;
    var front := cs[..|cs| - 1];
    forall k | 0 <= k < |front| ensures Legal(Calls(Idle, limit, front[..k]).rx, limit, front[k]) {
      assert front[..k] == cs[..k];
    }
  }

  /* ---------- exactly the messages sent ---------- */

  /** Frames can be cut off a stream in only one way. */
  lemma {:induction false} FirstFrame(size: nat, tail: seq<byte>, m: seq<byte>, rest: seq<byte>)
    requires size < 0x100_0000 && |m| < 0x100_0000
    requires Header(size) + tail <= Frame(m) + rest
    ensures size == |m| && tail <= m + rest
  {
    var x, y := Header(size) + tail, Frame(m) + rest;
    assert x[..4] == y[..4] && x[..4] == Header(size) && y[..4] == Header(|m|);
    HeaderRead(size);
    HeaderRead(|m|);
    assert x[4..] == tail && y[4..] == m + rest;
    assert x[4..] <= y[4..];
  }

  /** Messages whose frames begin a stream of frames are the first messages of it. */
  lemma {:induction false} FramesPrefix(ms: seq<seq<byte>>, tail: seq<byte>, sent: seq<seq<byte>>)
    requires forall m <- ms + sent :: |m| < 0x100_0000
    requires Frames(ms) + tail <= Frames(sent)
    ensures ms <= sent && tail <= Frames(sent[|ms|..])
    decreases |ms|
  {
    hide Header, Frames, Frame;
    if ms == [] {
      assert Frames([]) == [] by { NoFrames(); }
      assert sent[0..] == sent && [] + tail == tail;
    } else {
      assert ms[0] in ms + sent && (sent != [] ==> sent[0] in ms + sent);
      OneFrame(ms, tail, sent);
      forall x | x in ms[1..] + sent[1..] ensures |x| < 0x100_0000 { assert x in ms + sent; }
      FramesPrefix(ms[1..], tail, sent[1..]);
      assert ms == [ms[0]] + ms[1..] && sent == [sent[0]] + sent[1..];
      assert sent[1..][|ms| - 1..] == sent[|ms|..];
    }
  }

  lemma {:induction false} NoFrames()
    ensures Frames([]) == []
  {
  }

  /** The first frames agree, and so do the streams behind them. */
  lemma {:induction false} OneFrame(ms: seq<seq<byte>>, tail: seq<byte>, sent: seq<seq<byte>>)
    requires ms != [] && |ms[0]| < 0x100_0000 && (sent != [] ==> |sent[0]| < 0x100_0000)
    requires Frames(ms) + tail <= Frames(sent)
    ensures sent != [] && ms[0] == sent[0] && Frames(ms[1..]) + tail <= Frames(sent[1..])
  {
    hide Header;
    assert |Frames(ms) + tail| >= 4;
    var m, n, more := ms[0], sent[0], Frames(ms[1..]) + tail;
    assert Frames(ms) + tail == Header(|m|) + (m + more);
    FirstFrame(|m|, m + more, n, Frames(sent[1..]));
    assert m == (m + more)[..|m|] == (n + Frames(sent[1..]))[..|n|] == n;
    assert more == (m + more)[|m|..] && Frames(sent[1..]) == (n + Frames(sent[1..]))[|n|..];
  }

  ghost predicate NoClose(cs: seq<Call>) {
    forall c <- cs :: !c.head.Closed? && !c.body.Closed?
  }

  /** Every message a run hands out is shorter than 2^24 bytes. */
  lemma {:induction false} RunMessages(limit: int, cs: seq<Call>)
    requires AllLegal(limit, cs)
    ensures forall m <- Calls(Idle, limit, cs).messages :: |m| < 0x100_0000
    decreases |cs|
  {
    hide Taken, Legal, Room, RecvDataLen;
    if cs != [] {
      var front, c := cs[..|cs| - 1], cs[|cs| - 1];
      FrontLegal(limit, cs);
      RunMessages(limit, front);
      RunConserves(limit, front);
      MessageSize(Calls(Idle, limit, front).rx, limit, c);
    }
  }

  lemma {:induction false} MessageSize(rx: Rx, limit: int, c: Call)
    requires rx.Filling? ==> rx.size < 0x100_0000
    ensures var reply := SocketRecv(rx, limit, c.head, c.body).1; reply.Message? ==> |reply.data| < 0x100_0000
  {
    if rx.Idle? && c.head.Got? && RecvDataLen(c.head) > 0 {
      HeaderWritten(c.head.bytes);
    }
  }

  /** On a stream of acceptable frames that is not closed, no call hangs up. */
  lemma {:induction false} NeverHangsUp(limit: int, cs: seq<Call>, sent: seq<seq<byte>>)
    requires AllLegal(limit, cs) && NoClose(cs) && (forall m <- sent :: Fits(limit, m))
    requires Calls(Idle, limit, cs).taken <= Frames(sent)
    ensures !Calls(Idle, limit, cs).hungup
    decreases |cs|
  {
    hide Legal, Frames, InFlight, RecvDataLen, SocketRecv, Taken;
    if cs != [] {
      var front, c := cs[..|cs| - 1], cs[|cs| - 1];
      var r := Calls(Idle, limit, front);
      var taken := Taken(r.rx, limit, c);
      FrontLegal(limit, cs);
      assert r.taken <= r.taken + taken;
      NeverHangsUp(limit, front, sent);
      assert c in cs;
      if r.rx.Idle? && c.head.Got? {
        RunConserves(limit, front);
        RunMessages(limit, front);
        HeadTaken(r.rx, limit, c);
        HeaderInStream(limit, r.messages, c.head.bytes, taken, r.taken, sent);
      }
      HangupCauses(r.rx, limit, c);
    }
  }

  lemma {:induction false} HeadTaken(rx: Rx, limit: int, c: Call)
    requires Legal(rx, limit, c) && rx.Idle? && c.head.Got?
    ensures |c.head.bytes| == 4 && c.head.bytes <= Taken(rx, limit, c)
  {
  }

  lemma {:induction false} HangupCauses(rx: Rx, limit: int, c: Call)
    requires !c.head.Closed? && !c.body.Closed?
    requires rx.Idle? && c.head.Got? ==> 0 < RecvDataLen(c.head) <= limit
    ensures !SocketRecv(rx, limit, c.head, c.body).1.Hangup?
  {
  }

  lemma {:induction false} HeaderInStream(limit: int, ms: seq<seq<byte>>, h: seq<byte>, more: seq<byte>, taken: seq<byte>,
                                          sent: seq<seq<byte>>)
    requires (forall m <- ms :: |m| < 0x100_0000) && (forall m <- sent :: Fits(limit, m))
    requires taken == Frames(ms) + InFlight(Idle) && taken + more <= Frames(sent)
    requires |h| == 4 && h <= more
    ensures 0 < RecvDataLen(Got(h)) <= limit
  {
    assert taken == Frames(ms);
    forall m | m in ms + sent ensures |m| < 0x100_0000 {
      if m in sent { assert Fits(limit, m); }
    }
    FramesPrefix(ms, more, sent);
    var rest := sent[|ms|..];
    assert rest != [];
    assert rest[0] in sent && Fits(limit, rest[0]);
    assert h == more[..4] == Frames(rest)[..4] == Header(|rest[0]|);
    HeaderRead(|rest[0]|);
  }

  /** Framing is independent of delivery: however the stream of acceptable messages is
      cut up and delayed, the calls hand out a prefix of the messages sent, in order, and
      once all bytes are taken, exactly the messages sent. */
  lemma {:induction false} Delivery(limit: int, cs: seq<Call>, sent: seq<seq<byte>>)
    requires AllLegal(limit, cs) && NoClose(cs) && (forall m <- sent :: Fits(limit, m))
    requires Calls(Idle, limit, cs).taken <= Frames(sent)
    ensures var r := Calls(Idle, limit, cs);
            && !r.hungup
            && r.messages <= sent
            && (r.taken == Frames(sent) ==> r.messages == sent && r.rx == Idle)
  {
    hide Calls, AllLegal, NoClose, Frames, Header;
    var r := Calls(Idle, limit, cs);
    NeverHangsUp(limit, cs, sent);
    RunConserves(limit, cs);
    RunMessages(limit, cs);
    forall m | m in r.messages + sent ensures |m| < 0x100_0000 {
      if m in sent { assert Fits(limit, m); }
    }
    FramesPrefix(r.messages, InFlight(r.rx), sent);
    if r.taken == Frames(sent) {
      NothingInFlight(r.messages, r.rx, sent);
    }
  }

  lemma {:induction false} NothingInFlight(ms: seq<seq<byte>>, rx: Rx, sent: seq<seq<byte>>)
    requires ms <= sent && (forall m <- sent :: |m| < 0x100_0000)
    requires rx.Filling? ==> |rx.got| < rx.size < 0x100_0000
    requires Frames(ms) + InFlight(rx) == Frames(sent)
    ensures ms == sent && rx == Idle
  {
    hide Header;
    var rest := sent[|ms|..];
    assert sent == ms + rest;
    FramesConcat(ms, rest);
    assert InFlight(rx) == (Frames(ms) + InFlight(rx))[|Frames(ms)|..] == Frames(rest);
    if rest != [] {
      assert rest[0] in sent;
      if rx.Filling? {
        FirstFrame(rx.size, rx.got, rest[0], Frames(rest[1..]));
      }
    }
  }

  lemma {:induction false} FramesConcat(ms: seq<seq<byte>>, ns: seq<seq<byte>>)
    ensures Frames(ms + ns) == Frames(ms) + Frames(ns)
    decreases |ms|
  {
    hide Frame;
    if ms == [] {
      assert ms + ns == ns;
    } else {
      assert (ms + ns)[1..] == ms[1..] + ns;
      FramesConcat(ms[1..], ns);
    }
  }
}
