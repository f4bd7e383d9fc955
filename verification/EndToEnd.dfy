/** A request from the benchmark to a server hook and back: key printed in front of a
    body, framed, reassembled, parsed, dispatched, and the key echoed in the reply. */
module EndToEnd {
  import opened Wrappers
  import opened Bytes
  import opened Schema
  import opened Parser
  import opened Bounds
  import opened Printer
  import R = RoundTrip
  import opened Tolerance
  import opened Framing

  /** `send_request`: the key under the hook format, then whatever the send hook appends. */
  function Request(key: seq<byte>, body: seq<byte>): seq<byte> {
    Print(FStr, VStr(key)) + body
  }

  /** What the server's `read_handler` does with a message: give up, miss the hook, or
      call it with the body and the reply prefix. An empty key leaves a null pointer that
      the hook table cannot look up; it counts as unparsed. */
  datatype Outcome = Unparsed | NoHook(key: seq<byte>) | Hook(key: seq<byte>, body: seq<byte>, echo: seq<byte>)

  function Dispatch(hooks: set<seq<byte>>, data: seq<byte>): Outcome {
    match ParseVal(true, data, FStr, VStr([]), 0, |data|)
    case Fail => Unparsed
    case Done(n, v, _) =>
      var key := if v.VStr? then CStr(v.bytes) else [];
      ParseBound(true, data, FStr, VStr([]), 0, |data|);
      if v == VStr([]) then Unparsed
      else if key !in hooks then NoHook(key)
      else Hook(key, data[n..], data[..n])
  }

  /** What the client's `read_handler` does with a reply: the payload if the key is the
      one it asked for. */
  function Accept(key: seq<byte>, data: seq<byte>): Option<seq<byte>> {
    match ParseVal(true, data, FStr, VStr([]), 0, |data|)
    case Fail => None
    case Done(n, v, _) =>
      ParseBound(true, data, FStr, VStr([]), 0, |data|);
      if v != VStr([]) && v.VStr? && CStr(v.bytes) == key then Some(data[n..]) else None
  }

  /** A printed key in front of anything is parsed back. */
  lemma {:induction false} KeyParsed(key: seq<byte>, rest: seq<byte>)
    requires |Request(key, rest)| < TWO32
    ensures ParseVal(true, Request(key, rest), FStr, VStr([]), 0, |Request(key, rest)|)
         == Done(|Print(FStr, VStr(key))|, VStr(key), 0)
  {
    hide Print, ParseVal;
    assert |key| < TWO32 by { KeyShorter(key); }
    assert Normal(FStr, VStr(key)) == VStr(key);
    R.RoundTrip(true, FStr, VStr(key), rest);
  }

  lemma {:induction false} KeyShorter(key: seq<byte>)
    ensures |key| < |Print(FStr, VStr(key))|
  {
  }

  /** The hook gets exactly the key and the body of the request, and the prefix it must
      echo is the printed key. */
  lemma {:induction false} RequestReachesHook(hooks: set<seq<byte>>, key: seq<byte>, body: seq<byte>)
    requires key != [] && NUL !in key && |Request(key, body)| < TWO32
    ensures Dispatch(hooks, Request(key, body))
         == if key in hooks then Hook(key, body, Print(FStr, VStr(key))) else NoHook(key)
  {
    hide ParseVal, Print;
    KeyParsed(key, body);
    var n := |Print(FStr, VStr(key))|;
    assert Request(key, body)[n..] == body && Request(key, body)[..n] == Print(FStr, VStr(key));
  }

  /** The reply, the echoed prefix and a payload, is accepted under the same key. */
  lemma {:induction false} ReplyReachesClient(hooks: set<seq<byte>>, key: seq<byte>, body: seq<byte>, payload: seq<byte>)
    requires key != [] && NUL !in key && key in hooks && |Request(key, body)| < TWO32 && |Request(key, payload)| < TWO32
    ensures Dispatch(hooks, Request(key, body)).Hook?
    ensures Accept(key, Dispatch(hooks, Request(key, body)).echo + payload) == Some(payload)
  {
    hide ParseVal, Print, Dispatch;
    RequestReachesHook(hooks, key, body);
    KeyParsed(key, payload);
    assert Request(key, payload)[|Print(FStr, VStr(key))|..] == payload;
  }

  /** A reply under another key is not accepted, and a message under no key is neither
      dispatched nor accepted. */
  lemma {:induction false} OtherKeyRefused(hooks: set<seq<byte>>, key: seq<byte>, other: seq<byte>, payload: seq<byte>)
    requires NUL !in other && |Request(other, payload)| < TWO32 && (other == [] || other != key)
    ensures Accept(key, Request(other, payload)) == None
    ensures other == [] ==> Dispatch(hooks, Request(other, payload)) == Unparsed
  {
    hide ParseVal, Print;
    KeyParsed(other, payload);
  }

  /** A message that does not begin with a value reaches no hook. */
  lemma {:induction false} NoValueNoHook(hooks: set<seq<byte>>, key: seq<byte>, data: seq<byte>)
    requires data == [] || !Letter(data[0])
    ensures Dispatch(hooks, data) == Unparsed && Accept(key, data) == None
  {
    hide ParseVal, Letter;
    NoValue(true, data, FStr, VStr([]), 0, |data|);
  }

  datatype Req = Req(key: seq<byte>, body: seq<byte>)

  function Requests(rs: seq<Req>): (ms: seq<seq<byte>>)
    ensures |ms| == |rs|
    ensures forall i :: 0 <= i < |rs| ==> ms[i] == Request(rs[i].key, rs[i].body)
  {
    seq(|rs|, i requires 0 <= i < |rs| => Request(rs[i].key, rs[i].body))
  }

  /** End to end: requests framed into one stream and delivered in any pieces reach the
      hooks one by one, in order, each with exactly its key and its body. */
  lemma {:induction false} Conversation(limit: int, hooks: set<seq<byte>>, rs: seq<Req>, cs: seq<Call>)
    requires forall r <- rs :: r.key != [] && NUL !in r.key && r.key in hooks && Fits(limit, Request(r.key, r.body))
    requires AllLegal(limit, cs) && NoClose(cs)
    requires Calls(Idle, limit, cs).taken <= Frames(Requests(rs))
    ensures var messages := Calls(Idle, limit, cs).messages;
            && |messages| <= |rs|
            && (forall i :: 0 <= i < |messages| ==>
                  Dispatch(hooks, messages[i]) == Hook(rs[i].key, rs[i].body, Print(FStr, VStr(rs[i].key))))
            && (Calls(Idle, limit, cs).taken == Frames(Requests(rs)) ==> |messages| == |rs|)
  {
    hide Calls, AllLegal, NoClose, Frames, Dispatch, Print, Fits;
    var sent, messages := Requests(rs), Calls(Idle, limit, cs).messages;
    forall m | m in sent ensures Fits(limit, m) {
      var i :| 0 <= i < |sent| && sent[i] == m;
      assert rs[i] in rs;
    }
    Delivery(limit, cs, sent);
    forall i | 0 <= i < |messages|
      ensures Dispatch(hooks, messages[i]) == Hook(rs[i].key, rs[i].body, Print(FStr, VStr(rs[i].key)))
    {
      assert messages[i] == sent[i] && rs[i] in rs;
      FitsShort(limit, sent[i]);
      RequestReachesHook(hooks, rs[i].key, rs[i].body);
    }
  }

  lemma {:induction false} FitsShort(limit: int, m: seq<byte>)
    requires Fits(limit, m)
    ensures |m| < TWO32
  {
  }
}
