/** What the server's state says about its past: the switch, the wake-up bytes and the
    notification pipes after any run, told from the actions alone. */
module ServerHistory {
  import opened Server

  /** A run of `n` workers with its actions, early closes included. */
  ghost predicate Traced(run: seq<State>, actions: seq<Action>, n: nat, maxclients: nat) {
    && n > 0 && |run| == |actions| + 1 && run[0] == Init(n)
    && forall k :: 0 <= k < |actions| ==> Enabled(run[k], actions[k]) && run[k + 1] == Step(run[k], actions[k], maxclients)
  }

  /** Every run has its actions. */
  lemma {:induction false} TraceOf(run: seq<State>, n: nat, maxclients: nat) returns (actions: seq<Action>)
    requires IsRun(run, n, maxclients)
    ensures Traced(run, actions, n, maxclients)
    decreases |run|
  {
    hide Step, Enabled, Init, Announced;
    if |run| == 1 {
      actions := [];
    } else {
      var front := run[..|run| - 1];
      forall k | 0 <= k < |front| - 1 ensures StepsTo(front[k], front[k + 1], maxclients) {
        assert StepsTo(run[k], run[k + 1], maxclients);
      }
      var before := TraceOf(front, n, maxclients);
      var k := |run| - 2;
      assert StepsTo(run[k], run[k + 1], maxclients);
      var a: Action :| Enabled(run[k], a) && Announced(run[k], a) && run[k + 1] == Step(run[k], a, maxclients);
      actions := before + [a];
      forall i | 0 <= i < |actions|
        ensures Enabled(run[i], actions[i]) && run[i + 1] == Step(run[i], actions[i], maxclients)
      {
        if i < |before| { assert front[i] == run[i] && front[i + 1] == run[i + 1]; }
      }
    }
  }

  /* ---------- the switch ---------- */

  /** Some denial came before step `k`, and no enabling after it. */
  ghost predicate SwitchedOff(actions: seq<Action>, k: nat)
    requires k <= |actions|
  {
    exists d :: 0 <= d < k && actions[d].Deny? && forall e :: d < e < k ==> !actions[e].Enable?
  }

  lemma {:induction false} SwitchStep(s: State, a: Action, maxclients: nat)
    requires Enabled(s, a)
    ensures Step(s, a, maxclients).accepting == if a.Deny? then false else if a.Enable? then true else s.accepting
  {
    hide A.Insert, A.Remove, A.NextIndex;
  }

  /** In every run accepting is off exactly if some denial was not followed by an enabling. */
  lemma {:induction false} SwitchExact(run: seq<State>, actions: seq<Action>, n: nat, maxclients: nat, k: nat)
    requires Traced(run, actions, n, maxclients) && k <= |actions|
    ensures !run[k].accepting <==> SwitchedOff(actions, k)
    decreases k
  {
    hide Step, Enabled;
    if k > 0 {
      SwitchExact(run, actions, n, maxclients, k - 1);
      assert run[k - 1 + 1] == Step(run[k - 1], actions[k - 1], maxclients);
      SwitchStep(run[k - 1], actions[k - 1], maxclients);
      OffStep(actions, k);
    }
  }

  lemma {:induction false} OffStep(actions: seq<Action>, k: nat)
    requires 0 < k <= |actions|
    ensures SwitchedOff(actions, k) <==> actions[k - 1].Deny? || (!actions[k - 1].Enable? && SwitchedOff(actions, k - 1))
  {
    if SwitchedOff(actions, k) {
      var d :| 0 <= d < k && actions[d].Deny? && forall e :: d < e < k ==> !actions[e].Enable?;
      if d < k - 1 {
        assert !actions[k - 1].Enable?;
        assert SwitchedOff(actions, k - 1);
      }
    }
  }

  /* ---------- wake-up bytes ---------- */

  /** The `e` bytes written and not yet treated. */
  function Words(s: State): nat {
    s.enables + if s.listener.Draining? then s.listener.left else 0
  }

  function WordsWritten(actions: seq<Action>): nat {
    if actions == [] then 0
    else WordsWritten(actions[..|actions| - 1]) + if actions[|actions| - 1].WriteEnable? then 1 else 0
  }

  function WordsTreated(actions: seq<Action>): nat {
    if actions == [] then 0
    else WordsTreated(actions[..|actions| - 1]) + if actions[|actions| - 1].Enable? then 1 else 0
  }

  lemma {:induction false} WordsStep(s: State, a: Action, maxclients: nat)
    requires Enabled(s, a)
    ensures Words(Step(s, a, maxclients)) + (if a.Enable? then 1 else 0) == Words(s) + if a.WriteEnable? then 1 else 0
  {
    hide A.Insert, A.Remove, A.NextIndex;
  }

  /** No `e` byte is lost or doubled: those written are treated or on their way. */
  lemma {:induction false} WordsKept(run: seq<State>, actions: seq<Action>, n: nat, maxclients: nat, k: nat)
    requires Traced(run, actions, n, maxclients) && k <= |actions|
    ensures Words(run[k]) + WordsTreated(actions[..k]) == WordsWritten(actions[..k])
    decreases k
  {
    hide Step, Enabled, Words;
    if k > 0 {
      WordsKept(run, actions, n, maxclients, k - 1);
      assert actions[..k][..k - 1] == actions[..k - 1];
      assert run[k - 1 + 1] == Step(run[k - 1], actions[k - 1], maxclients);
      WordsStep(run[k - 1], actions[k - 1], maxclients);
    } else {
      NoWords(n);
    }
  }

  lemma {:induction false} NoWords(n: nat)
    ensures Words(Init(n)) == 0
  {
  }

  /* ---------- notification pipes ---------- */

  /** A worker at rest reads what is pending in its pipe, up to 1024 bytes at a time, in order. */
  lemma {:induction false} ReadExact(s: State, w: nat, count: nat, maxclients: nat)
    requires !s.failed && w < |s.workers|
    ensures Enabled(s, ReadPipe(w, count)) <==>
            s.workers[w].buffer == [] && !s.workers[w].owesEnable && 1 <= count <= 1024 && count <= |s.workers[w].pipe|
    ensures Enabled(s, ReadPipe(w, count)) ==>
            var k := Step(s, ReadPipe(w, count), maxclients).workers[w];
            k.buffer + k.pipe == s.workers[w].pipe && |k.buffer| == count
    ensures Enabled(s, ReadEnables(count)) <==> s.listener.Idle? && 1 <= count <= 1024 && count <= s.enables
  {
  }

  /** The byte an action writes to the pipe of worker `w`. */
  function Puts(s: State, a: Action, w: nat): seq<Byte> {
    if a.Notify? && s.listener == Notifying(w) then [L] else if a == WriteX(w) then [X] else []
  }

  /** The byte it treats. */
  function Takes(s: State, a: Action, w: nat): seq<Byte>
    requires w < |s.workers|
  {
    if a == Treat(w) && s.workers[w].buffer != [] then [s.workers[w].buffer[0]] else []
  }

  lemma {:induction false} PipeStep(s: State, a: Action, w: nat, maxclients: nat)
    requires Enabled(s, a) && w < |s.workers| && !Step(s, a, maxclients).failed
    ensures var s' := Step(s, a, maxclients);
            && |s'.workers| == |s.workers|
            && Pending(s.workers[w]) + Puts(s, a, w) == Takes(s, a, w) + Pending(s'.workers[w])
  {
    hide A.Insert, A.Remove, A.NextIndex, RemoveConn, TreatByte, Pending;
    var s', k, k' := Step(s, a, maxclients), s.workers[w], Step(s, a, maxclients).workers;
    match a
    case Treat(v) => TreatPipe(s, v, w);
    case PeerClose(c) =>
      var v := s.conns[c].worker;
      RemovePipes(SetWorker(s, v, s.workers[v].(owesEnable := true)), c);
      SamePending(k, k'[w]);
    case Reject =>
      RemovePipes(s, s.listener.conn);
      SamePending(k, k'[w]);
    case ReadPipe(v, n) =>
      if v == w { assert k.buffer == [] && Pending(k'[w]) == k.pipe == Pending(k) by { ReadPending(k, n); } }
      SamePending(k, k);
    case _ => OtherPipe(s, a, w, maxclients);
  }

  lemma {:induction false} ReadPending(k: Worker, n: nat)
    requires n <= |k.pipe| && k.buffer == []
    ensures Pending(k) == k.pipe == Pending(k.(buffer := k.pipe[..n], pipe := k.pipe[n..]))
  {
  }

  lemma {:induction false} SamePending(k: Worker, k': Worker)
    requires k'.buffer == k.buffer && k'.pipe == k.pipe
    ensures Pending(k') == Pending(k) && Pending(k) + [] == [] + Pending(k')
  {
  }

  lemma {:induction false} RemovePipes(s: State, c: nat)
    ensures RemoveConn(s, c).workers == s.workers
  {
    hide A.Remove;
  }

  lemma {:induction false} TreatPipe(s: State, v: nat, w: nat)
    requires v < |s.workers| && s.workers[v].buffer != [] && w < |s.workers| && !TreatByte(s, v).failed
    ensures |TreatByte(s, v).workers| == |s.workers|
    ensures Pending(s.workers[w]) == Takes(s, Treat(v), w) + Pending(TreatByte(s, v).workers[w])
  {
    hide A.Remove, RemoveConn;
    var k := s.workers[v];
    if !k.buffer[0].L? && k.closeQueue != [] {
      RemovePipes(SetWorker(s, v, k.(buffer := k.buffer[1..], closeQueue := k.closeQueue[1..], owesEnable := true)), k.closeQueue[0]);
    }
    assert k.buffer == [k.buffer[0]] + k.buffer[1..];
  }

  lemma {:induction false} OtherPipe(s: State, a: Action, w: nat, maxclients: nat)
    requires Enabled(s, a) && w < |s.workers| && !Step(s, a, maxclients).failed
    requires !a.Treat? && !a.PeerClose? && !a.Reject? && !a.ReadPipe?
    ensures var s' := Step(s, a, maxclients);
            && |s'.workers| == |s.workers|
            && Pending(s.workers[w]) + Puts(s, a, w) == Takes(s, a, w) + Pending(s'.workers[w])
  {
    hide A.Insert, A.Remove, A.NextIndex;
  }

  function AllPut(run: seq<State>, actions: seq<Action>, w: nat, k: nat): seq<Byte>
    requires k <= |actions| && k < |run|
  {
    if k == 0 then [] else AllPut(run, actions, w, k - 1) + Puts(run[k - 1], actions[k - 1], w)
  }

  function AllTaken(run: seq<State>, actions: seq<Action>, w: nat, k: nat): seq<Byte>
    requires k <= |actions| && k < |run| && forall i :: 0 <= i < |run| ==> w < |run[i].workers|
  {
    if k == 0 then [] else AllTaken(run, actions, w, k - 1) + Takes(run[k - 1], actions[k - 1], w)
  }

  lemma {:induction false} WorkersStep(s: State, a: Action, maxclients: nat)
    requires Enabled(s, a)
    ensures |Step(s, a, maxclients).workers| == |s.workers|
  {
    hide A.Insert, A.Remove, A.NextIndex, RemoveConn;
    match a
    case Treat(v) =>
      var k := s.workers[v];
      if !k.buffer[0].L? && k.closeQueue != [] {
        RemovePipes(SetWorker(s, v, k.(buffer := k.buffer[1..], closeQueue := k.closeQueue[1..], owesEnable := true)), k.closeQueue[0]);
      }
    case PeerClose(c) =>
      var v := s.conns[c].worker;
      RemovePipes(SetWorker(s, v, s.workers[v].(owesEnable := true)), c);
    case Reject => RemovePipes(s, s.listener.conn);
    case _ =>
  }

  lemma {:induction false} WorkersKept(run: seq<State>, actions: seq<Action>, n: nat, maxclients: nat, k: nat)
    requires Traced(run, actions, n, maxclients) && k < |run|
    ensures |run[k].workers| == n
    decreases k
  {
    hide Step, Enabled;
    if k > 0 {
      WorkersKept(run, actions, n, maxclients, k - 1);
      assert run[k - 1 + 1] == Step(run[k - 1], actions[k - 1], maxclients);
      WorkersStep(run[k - 1], actions[k - 1], maxclients);
    }
  }

  /** A worker treats the notifications it was sent, each once and in the order they were
      written; the rest is pending. */
  lemma {:induction false} PipesInOrder(run: seq<State>, actions: seq<Action>, n: nat, maxclients: nat, w: nat, k: nat)
    requires Traced(run, actions, n, maxclients) && w < n && k <= |actions| && !run[k].failed
    ensures forall i :: 0 <= i < |run| ==> w < |run[i].workers|
    ensures AllPut(run, actions, w, k) == AllTaken(run, actions, w, k) + Pending(run[k].workers[w])
    decreases k
  {
    forall i | 0 <= i < |run| ensures w < |run[i].workers| { WorkersKept(run, actions, n, maxclients, i); }
    hide Step, Enabled, Puts, Takes, Pending;
    if k > 0 {
      var s, a := run[k - 1], actions[k - 1];
      assert run[k - 1 + 1] == Step(s, a, maxclients) && Enabled(s, a);
      NotFailed(s, a);
      PipesInOrder(run, actions, n, maxclients, w, k - 1);
      PipeStep(s, a, w, maxclients);
      Shift(AllTaken(run, actions, w, k - 1), Pending(s.workers[w]), Puts(s, a, w), Takes(s, a, w), Pending(run[k].workers[w]));
    } else {
      NothingPending(n, w);
    }
  }

  lemma {:induction false} NotFailed(s: State, a: Action)
    requires Enabled(s, a)
    ensures !s.failed
  {
  }

  lemma {:induction false} NothingPending(n: nat, w: nat)
    requires w < n
    ensures Pending(Init(n).workers[w]) == []
  {
  }

  lemma {:induction false} Shift(taken: seq<Byte>, before: seq<Byte>, put: seq<Byte>, take: seq<Byte>, after: seq<Byte>)
    requires before + put == take + after
    ensures (taken + before) + put == (taken + take) + after
  {
    assert (taken + before) + put == taken + (before + put);
  }

  /* ---------- off and on again ---------- */

  function One(alloc: A.Alloc<nat>, conns: map<nat, Conn>, accepting: bool, enables: nat, listener: Listener, k: Worker): State {
    State(alloc, conns, accepting, enables, listener, [k], false)
  }

  const quiet := Worker([], [], [], [], false, 0)

  /** One client comes, is served and goes; a second one comes meanwhile. */
  function Scene(): seq<State> {
    var none, one, gone := A.Alloc(0, [], map[]), A.Alloc(1, [], map[1 := 0]), A.Alloc(0, [1], map[]);
    var served := map[0 := Conn(1, 0, Open, false)];
    [ One(none, map[], true, 0, Idle, quiet),
      One(none, map[], true, 0, Admitting, quiet),
      One(one, map[0 := Conn(1, 0, Fresh, false)], true, 0, Admitted(0), quiet),
      One(one, map[0 := Conn(1, 0, Queued, false)], true, 0, Notifying(0), quiet.(acceptQueue := [0])),
      One(one, map[0 := Conn(1, 0, Queued, false)], true, 0, Idle, quiet.(acceptQueue := [0], pipe := [L])),
      One(one, map[0 := Conn(1, 0, Queued, false)], true, 0, Idle, quiet.(acceptQueue := [0], buffer := [L])),
      One(one, served, true, 0, Idle, quiet),
      One(one, served, true, 0, Denying, quiet),
      One(one, served, false, 0, Idle, quiet),
      One(gone, map[], false, 0, Idle, quiet.(owesEnable := true)),
      One(gone, map[], false, 1, Idle, quiet),
      One(gone, map[], false, 0, Draining(1), quiet),
      One(gone, map[], true, 0, Idle, quiet) ]
  }

  function Script(): seq<Action> {
    [ Accept, Admit(0), Hook(true), Notify, ReadPipe(0, 1), Treat(0), Accept, Deny,
      PeerClose(0), WriteEnable(0), ReadEnables(1), Enable ]
  }

  predicate Plays(k: nat)
    requires k < 12
  {
    Enabled(Scene()[k], Script()[k]) && Step(Scene()[k], Script()[k], 1) == Scene()[k + 1]
  }

  lemma {:induction false} Comes()
    ensures Plays(0)
  {
  }

  lemma {:induction false} IsInserted()
    ensures Plays(1)
  {
    assert map[][1 := 0] == map[1 := 0];
    assert map[][0 := Conn(1, 0, Fresh, false)] == map[0 := Conn(1, 0, Fresh, false)];
  }

  lemma {:induction false} IsQueued()
    ensures Plays(2)
  {
    var s := HandOver(Scene()[2], 0);
    assert quiet.acceptQueue + [0] == [0];
    assert s.workers == [quiet.(acceptQueue := [0])];
    assert s.conns == map[0 := Conn(1, 0, Queued, false)];
  }

  lemma {:induction false} IsNotified()
    ensures Plays(3)
  {
    var s := NotifyWorker(Scene()[3], 0);
    assert quiet.pipe + [L] == [L];
    assert s.workers == [quiet.(acceptQueue := [0], pipe := [L])];
  }

  lemma {:induction false} IsRead()
    ensures Plays(4)
  {
    assert [L][..1] == [L] && [L][1..] == [];
    assert Step(Scene()[4], ReadPipe(0, 1), 1).workers == [quiet.(acceptQueue := [0], buffer := [L])];
  }

  lemma {:induction false} IsOpened()
    ensures Plays(5)
  {
    var s, k := TreatByte(Scene()[5], 0), Scene()[5].workers[0];
    assert k.buffer[1..] == [] && k.acceptQueue[1..] == [];
    assert k.(buffer := [], acceptQueue := []) == quiet;
    assert s.workers == [quiet];
    assert s.conns == map[0 := Conn(1, 0, Open, false)];
  }

  lemma {:induction false} OtherDenied()
    ensures Plays(6) && Plays(7)
  {
  }

  lemma {:induction false} Goes()
    ensures Plays(8)
  {
    assert map[1 := 0] - {1} == map[] && map[0 := Conn(1, 0, Open, false)] - {0} == map[];
    assert Step(Scene()[8], PeerClose(0), 1).workers == [quiet.(owesEnable := true)];
  }

  lemma {:induction false} WakesListener()
    ensures Plays(9) && Plays(10) && Plays(11)
  {
    assert Step(Scene()[9], WriteEnable(0), 1).workers == [quiet];
  }

  /** A server for one client opens it, denies a second one and stops accepting, and
      accepts again when the first has gone. */
  lemma {:induction false} OffAndOn() returns (run: seq<State>, actions: seq<Action>)
    ensures Traced(run, actions, 1, 1) && |run| == 13
    ensures run[6].accepting && 0 in run[6].conns && run[6].conns[0].phase.Open?
    ensures actions[7].Deny? && !run[8].accepting && !run[11].accepting
    ensures run[12].accepting && run[12].conns == map[] && run[12].listener.Idle?
  {
    run, actions := Scene(), Script();
    Comes();
    IsInserted();
    IsQueued();
    IsNotified();
    IsRead();
    IsOpened();
    OtherDenied();
    Goes();
    WakesListener();
    hide Step, Enabled;
    forall k | 0 <= k < 12
      ensures Enabled(run[k], actions[k]) && run[k + 1] == Step(run[k], actions[k], 1)
    {
      assert Plays(k);
    }
  }

  /** A client is refused by a hook; the next is served, and closed on request. */
  function SecondScene(): seq<State> {
    var none, one, gone, two := A.Alloc(0, [], map[]), A.Alloc(1, [], map[1 := 0]), A.Alloc(0, [1], map[]),
                                A.Alloc(1, [], map[1 := 5]);
    var open, closing := map[5 := Conn(1, 0, Open, false)], map[5 := Conn(1, 0, Open, true)];
    [ One(none, map[], true, 0, Idle, quiet),
      One(none, map[], true, 0, Admitting, quiet),
      One(one, map[0 := Conn(1, 0, Fresh, false)], true, 0, Admitted(0), quiet),
      One(one, map[0 := Conn(1, 0, Fresh, false)], true, 0, Rejecting(0), quiet),
      One(gone, map[], true, 0, Idle, quiet),
      One(gone, map[], true, 0, Admitting, quiet),
      One(two, map[5 := Conn(1, 0, Fresh, false)], true, 0, Admitted(5), quiet),
      One(two, map[5 := Conn(1, 0, Queued, false)], true, 0, Notifying(0), quiet.(acceptQueue := [5])),
      One(two, map[5 := Conn(1, 0, Queued, false)], true, 0, Idle, quiet.(acceptQueue := [5], pipe := [L])),
      One(two, map[5 := Conn(1, 0, Queued, false)], true, 0, Idle, quiet.(acceptQueue := [5], buffer := [L])),
      One(two, open, true, 0, Idle, quiet),
      One(two, closing, true, 0, Idle, quiet.(closeQueue := [5], owesX := 1)),
      One(two, closing, true, 0, Idle, quiet.(closeQueue := [5], pipe := [X])),
      One(two, closing, true, 0, Idle, quiet.(closeQueue := [5], buffer := [X])),
      One(gone, map[], true, 0, Idle, quiet.(owesEnable := true)),
      One(gone, map[], true, 1, Idle, quiet) ]
  }

  function SecondScript(): seq<Action> {
    [ Accept, Admit(0), Hook(false), Reject, Accept, Admit(5), Hook(true), Notify, ReadPipe(0, 1), Treat(0),
      SocketClose(5), WriteX(0), ReadPipe(0, 1), Treat(0), WriteEnable(0) ]
  }

  predicate PlaysOn(k: nat)
    requires k < 15
  {
    Enabled(SecondScene()[k], SecondScript()[k]) && Step(SecondScene()[k], SecondScript()[k], 1) == SecondScene()[k + 1]
  }

  lemma {:induction false} ComesFirst()
    ensures PlaysOn(0)
  {
  }

  lemma {:induction false} IsAdmitted()
    ensures PlaysOn(1)
  {
    assert map[][1 := 0] == map[1 := 0];
    assert map[][0 := Conn(1, 0, Fresh, false)] == map[0 := Conn(1, 0, Fresh, false)];
  }

  lemma {:induction false} IsRefused()
    ensures PlaysOn(2)
  {
  }

  lemma {:induction false} IsRemoved()
    ensures PlaysOn(3)
  {
    assert map[1 := 0] - {1} == map[] && map[0 := Conn(1, 0, Fresh, false)] - {0} == map[];
    assert A.Empty<nat>().free + [1] == [1];
  }

  lemma {:induction false} ComesNext()
    ensures PlaysOn(4)
  {
  }

  lemma {:induction false} NextAdmitted()
    ensures PlaysOn(5)
  {
    assert map[][1 := 5] == map[1 := 5] && SecondScene()[5].alloc.free[1..] == [];
    assert map[][5 := Conn(1, 0, Fresh, false)] == map[5 := Conn(1, 0, Fresh, false)];
  }

  lemma {:induction false} NextQueued()
    ensures PlaysOn(6)
  {
    var s := HandOver(SecondScene()[6], 5);
    assert quiet.acceptQueue + [5] == [5];
    assert s.workers == [quiet.(acceptQueue := [5])];
    assert s.conns == map[5 := Conn(1, 0, Queued, false)];
  }

  lemma {:induction false} NextNotified()
    ensures PlaysOn(7)
  {
    var s := NotifyWorker(SecondScene()[7], 0);
    assert quiet.pipe + [L] == [L];
    assert s.workers == [quiet.(acceptQueue := [5], pipe := [L])];
  }

  lemma {:induction false} NextRead()
    ensures PlaysOn(8)
  {
    assert [L][..1] == [L] && [L][1..] == [];
    assert Step(SecondScene()[8], ReadPipe(0, 1), 1).workers == [quiet.(acceptQueue := [5], buffer := [L])];
  }

  lemma {:induction false} NextOpened()
    ensures PlaysOn(9)
  {
    var s, k := TreatByte(SecondScene()[9], 0), SecondScene()[9].workers[0];
    assert k.buffer[1..] == [] && k.acceptQueue[1..] == [];
    assert k.(buffer := [], acceptQueue := []) == quiet;
    assert s.workers == [quiet];
    assert s.conns == map[5 := Conn(1, 0, Open, false)];
  }

  lemma {:induction false} CloseAsked()
    ensures PlaysOn(10)
  {
    var s := Step(SecondScene()[10], SocketClose(5), 1);
    assert quiet.closeQueue + [5] == [5];
    assert s.workers == [quiet.(closeQueue := [5], owesX := 1)];
    assert s.conns == map[5 := Conn(1, 0, Open, true)];
  }

  lemma {:induction false} CloseWritten()
    ensures PlaysOn(11)
  {
    assert quiet.pipe + [X] == [X];
    assert Step(SecondScene()[11], WriteX(0), 1).workers == [quiet.(closeQueue := [5], pipe := [X])];
  }

  lemma {:induction false} CloseRead()
    ensures PlaysOn(12)
  {
    assert [X][..1] == [X] && [X][1..] == [];
    assert Step(SecondScene()[12], ReadPipe(0, 1), 1).workers == [quiet.(closeQueue := [5], buffer := [X])];
  }

  lemma {:induction false} CloseTreats()
    ensures PlaysOn(13)
  {
    var s, k := TreatByte(SecondScene()[13], 0), SecondScene()[13].workers[0];
    assert k.buffer[1..] == [] && k.closeQueue[1..] == [];
    assert k.(buffer := [], closeQueue := [], owesEnable := true) == quiet.(owesEnable := true);
    assert s.workers == [quiet.(owesEnable := true)];
    assert map[1 := 5] - {1} == map[] && map[5 := Conn(1, 0, Open, true)] - {5} == map[];
    assert A.Empty<nat>().free + [1] == [1];
  }

  lemma {:induction false} CloseReported()
    ensures PlaysOn(14)
  {
    assert Step(SecondScene()[14], WriteEnable(0), 1).workers == [quiet];
  }

  lemma {:induction false} AllPlayOn(k: nat)
    requires k < 15
    ensures PlaysOn(k)
  {
    hide PlaysOn;
    ComesFirst();
    IsAdmitted();
    IsRefused();
    IsRemoved();
    ComesNext();
    NextAdmitted();
    NextQueued();
    NextNotified();
    NextRead();
    NextOpened();
    CloseAsked();
    CloseWritten();
    CloseRead();
    CloseTreats();
    CloseReported();
  }

  lemma {:induction false} SecondMoments()
    ensures |SecondScene()| == 16 && |SecondScript()| == 15 && SecondScene()[0] == Init(1)
    ensures SecondScene()[4].conns == map[] && SecondScene()[4].accepting
    ensures 5 in SecondScene()[10].conns && SecondScene()[10].conns[5].phase.Open?
    ensures SecondScene()[15].conns == map[] && SecondScene()[15].enables == 1
  {
  }

  /** A client refused by a hook leaves nothing behind; the next one gets its index, is
      served, and closed on request. */
  lemma {:induction false} RefusedAndClosed() returns (run: seq<State>, actions: seq<Action>)
    ensures Traced(run, actions, 1, 1) && |run| == 16
    ensures actions[2] == Hook(false) && run[4].conns == map[] && run[4].accepting
    ensures 5 in run[10].conns && run[10].conns[5].phase.Open?
    ensures actions[10] == SocketClose(5) && run[15].conns == map[] && run[15].enables == 1
  {
    run, actions := SecondScene(), SecondScript();
    hide Step, Enabled, SecondScene;
    SecondMoments();
    forall k | 0 <= k < 15
      ensures Enabled(run[k], actions[k]) && run[k + 1] == Step(run[k], actions[k], 1)
    {
      AllPlayOn(k);
    }
  }
}
