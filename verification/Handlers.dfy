/** The loops of `loop_event.c` over the bytes read from a notification pipe: a worker's,
    over its queues, and the listen thread's, over its switch. */
module Handlers {
  import opened Bytes
  import opened Queues

  const ACCEPTED: byte := 108 // 'l'
  const CLOSING: byte := 120  // 'x'
  const BREAK: byte := 45     // '-'
  const ENABLE: byte := 101   // 'e'
  const DISABLE: byte := 100  // 'd'

  function Tally(bytes: seq<byte>, c: byte): (n: nat)
    ensures n <= |bytes|
  {
    if bytes == [] then 0
    else Tally(bytes[..|bytes| - 1], c) + if bytes[|bytes| - 1] == c then 1 else 0
  }

  lemma {:induction false} TallyPrefix(bytes: seq<byte>, k: nat, c: byte)
    requires k <= |bytes|
    ensures Tally(bytes[..k], c) <= Tally(bytes, c)
    decreases |bytes|
  {
    if k == |bytes| {
      assert bytes[..k] == bytes;
    } else {
      var front := bytes[..|bytes| - 1];
      assert front[..k] == bytes[..k];
      TallyPrefix(front, k, c);
    }
  }

  lemma {:induction false} TallyNext(bytes: seq<byte>, k: nat, c: byte)
    requires k < |bytes|
    ensures Tally(bytes[..k + 1], c) == Tally(bytes[..k], c) + if bytes[k] == c then 1 else 0
    ensures Tally(bytes[..k + 1], c) <= Tally(bytes, c)
  {
    assert bytes[..k + 1][..k] == bytes[..k];
    TallyPrefix(bytes, k + 1, c);
  }

  class WorkerThread {
    const acceptQueue: Queue<nat>
    const closeQueue: Queue<nat>
    var served: seq<nat>  // connections given to the event loop
    var removed: seq<nat> // connections cleaned, reported to the hooks and removed
    var enables: nat      // `e` bytes written to the listen thread
    var looping: bool

    ghost predicate Valid()
      reads this, acceptQueue, closeQueue, acceptQueue.spine, closeQueue.spine
    {
      acceptQueue != closeQueue && acceptQueue.Valid() && closeQueue.Valid()
    }

    constructor ()
      ensures Valid() && looping && served == [] && removed == [] && enables == 0
      ensures acceptQueue.Contents() == [] && closeQueue.Contents() == []
    {
      acceptQueue := new Queue();
      closeQueue := new Queue();
      served, removed, enables, looping := [], [], 0, true;
    }

    /** The switch over one byte: an announced entry leaves its queue, oldest first. */
    method Treat(chr: byte)
      requires Valid()
      requires chr == ACCEPTED ==> acceptQueue.Contents() != []
      requires chr == CLOSING ==> closeQueue.Contents() != []
      modifies this, acceptQueue, closeQueue
      ensures Valid()
      ensures served + acceptQueue.Contents() == old(served + acceptQueue.Contents())
      ensures removed + closeQueue.Contents() == old(removed + closeQueue.Contents())
      ensures |acceptQueue.Contents()| == old(|acceptQueue.Contents()|) - if chr == ACCEPTED then 1 else 0
      ensures |closeQueue.Contents()| == old(|closeQueue.Contents()|) - if chr == CLOSING then 1 else 0
      ensures enables == old(enables) + if chr == CLOSING then 1 else 0
      ensures looping == (old(looping) && chr != BREAK)
    {
      hide Queue.Valid, Queue.Contents;
      if chr == CLOSING {
        Moved(removed, closeQueue.Contents());
        var ptr := closeQueue.Pop();
        removed := removed + [ptr.value];
        enables := enables + 1;
      } else if chr == BREAK {
        looping := false;
      } else if chr == ACCEPTED {
        Moved(served, acceptQueue.Contents());
        var ptr := acceptQueue.Pop();
        served := served + [ptr.value];
      }
    }

    /** As many entries leave each queue as the buffer announces, oldest first, so neither
        pop comes back empty; every removal tells the listen thread; other bytes change
        nothing. */
    method Notify(buffer: seq<byte>)
      requires Valid()
      requires Tally(buffer, 'l' as int) <= |acceptQueue.Contents()|
      requires Tally(buffer, 'x' as int) <= |closeQueue.Contents()|
      modifies this, acceptQueue, closeQueue
      ensures Valid()
      ensures served + acceptQueue.Contents() == old(served + acceptQueue.Contents())
      ensures removed + closeQueue.Contents() == old(removed + closeQueue.Contents())
      ensures |acceptQueue.Contents()| == old(|acceptQueue.Contents()|) - Tally(buffer, 'l' as int)
      ensures |closeQueue.Contents()| == old(|closeQueue.Contents()|) - Tally(buffer, 'x' as int)
      ensures enables == old(enables) + Tally(buffer, 'x' as int)
      ensures looping == (old(looping) && '-' as int !in buffer)
    {
      hide Tally, Valid, Queue.Contents;
      TallyNone(buffer);
      var i := 0;
      while i < |buffer|
        invariant 0 <= i <= |buffer| && Valid()
        invariant served + acceptQueue.Contents() == old(served + acceptQueue.Contents())
        invariant removed + closeQueue.Contents() == old(removed + closeQueue.Contents())
        invariant |acceptQueue.Contents()| == old(|acceptQueue.Contents()|) - Tally(buffer[..i], ACCEPTED)
        invariant |closeQueue.Contents()| == old(|closeQueue.Contents()|) - Tally(buffer[..i], CLOSING)
        invariant enables == old(enables) + Tally(buffer[..i], CLOSING)
        invariant looping == (old(looping) && BREAK !in buffer[..i])
      {
        TallyNext(buffer, i, ACCEPTED);
        TallyNext(buffer, i, CLOSING);
        assert buffer[..i + 1] == buffer[..i] + [buffer[i]];
        Treat(buffer[i]);
        i := i + 1;
      }
      assert buffer[..i] == buffer;
    }
  }

  lemma {:induction false} Moved(done: seq<nat>, queue: seq<nat>)
    ensures queue != [] ==> (done + [queue[0]]) + queue[1..] == done + queue
  {
  }

  lemma {:induction false} TallyNone(buffer: seq<byte>)
    ensures forall c :: Tally(buffer[..0], c) == 0
  {
  }

  /** The last switch byte decides; without one nothing changes. */
  function Switched(on: bool, bytes: seq<byte>): bool {
    if bytes == [] then on
    else if bytes[|bytes| - 1] == ENABLE then true
    else if bytes[|bytes| - 1] == DISABLE then false
    else Switched(on, bytes[..|bytes| - 1])
  }

  /** The switch is on after the bytes exactly if an `e` came that no `d` follows, or it was
      on and no `d` came. */
  lemma {:induction false} SwitchedExact(on: bool, bytes: seq<byte>)
    ensures Switched(on, bytes) <==>
            || (on && 'd' as int !in bytes)
            || exists i :: 0 <= i < |bytes| && bytes[i] == 'e' as int && forall j :: i < j < |bytes| ==> bytes[j] != 'd' as int
    decreases |bytes|
  {
    if bytes != [] {
      var front, last := bytes[..|bytes| - 1], bytes[|bytes| - 1];
      SwitchedExact(on, front);
      assert bytes == front + [last];
      if last == 'e' as int {
        assert bytes[|bytes| - 1] == 'e' as int;
      } else if last != 'd' as int && Switched(on, front) && !(on && 'd' as int !in front) {
        var i :| 0 <= i < |front| && front[i] == 'e' as int && forall j :: i < j < |front| ==> front[j] != 'd' as int;
        assert bytes[i] == 'e' as int && forall j :: i < j < |bytes| ==> bytes[j] != 'd' as int;
      } else if i :| 0 <= i < |bytes| && bytes[i] == 'e' as int && forall j :: i < j < |bytes| ==> bytes[j] != 'd' as int {
        assert i < |front| && front[i] == 'e' as int;
      }
    }
  }

  class ListenThread {
    var accepting: bool
    var rebinds: nat // times the listen event was taken down and set up again

    constructor ()
      ensures accepting && rebinds == 0
    {
      accepting, rebinds := true, 0;
    }

    /** Nothing happens unless the flags change. */
    method UpdateAcceptEvent(on: bool)
      modifies this
      ensures accepting == on
      ensures rebinds == old(rebinds) + if on == old(accepting) then 0 else 1
    {
      if accepting == on {
        return;
      }
      accepting, rebinds := on, rebinds + 1;
    }

    method Notify(buffer: seq<byte>)
      modifies this
      ensures accepting == Switched(old(accepting), buffer)
      ensures rebinds - old(rebinds) <= |buffer|
      ensures 'd' as int !in buffer ==> rebinds - old(rebinds) <= 1
    {
      var i := 0;
      while i < |buffer|
        invariant 0 <= i <= |buffer|
        invariant accepting == Switched(old(accepting), buffer[..i])
        invariant rebinds - old(rebinds) <= i
        invariant DISABLE !in buffer ==>
                    rebinds - old(rebinds) <= (if accepting && !old(accepting) then 1 else 0)
        invariant DISABLE !in buffer && old(accepting) ==> accepting
      {
        assert buffer[..i + 1][..i] == buffer[..i];
        if buffer[i] == ENABLE {
          UpdateAcceptEvent(true);
        } else if buffer[i] == DISABLE {
          UpdateAcceptEvent(false);
        }
        i := i + 1;
      }
      assert buffer[..i] == buffer;
    }
  }
}
