/** The phase barrier of `bench_event.c`: a main thread tells every worker to begin, counts
    the bytes they write when they are done, and moves on when it has counted them all. */
module Barrier {
  import opened Counting

  /** The bytes in the pipes: connections created, begin the first phase, done or begin a
      later phase. */
  datatype Byte = C | B | N

  /** `made` once the connections are created, `begun` once the first begin byte is treated,
      `sent` counts the answers written since the latest begin byte, `told` the completion
      bytes written since the main thread entered its stage. */
  datatype Worker = Worker(made: bool, begun: bool, connNum: nat, close: nat, complete: nat, inbox: seq<Byte>,
                           sent: nat, told: nat)

  datatype Pc = Waiting | Sending(next: nat, byte: Byte) | Finished

  datatype Stage = Connecting | Running(phase: nat)

  datatype State = State(pc: Pc, stage: Stage, cthreads: nat, inbox: seq<Byte>, workers: seq<Worker>)

  datatype Action =
    | MainRead
    | MainSend
    | Create(worker: nat, made: nat) // connections that could be made
    | Begin(worker: nat)
    | Finish(worker: nat)            // a connection's requests are done
    | Close(worker: nat)             // a connection is closed by the server

  function Init(n: nat): State {
    State(Sending(0, C), Connecting, 0, [], seq(n, _ => Worker(false, false, 0, 0, 0, [], 0, 0)))
  }

  predicate Enabled(s: State, a: Action) {
    match a
    case MainRead => s.pc.Waiting? && s.inbox != []
    case MainSend => s.pc.Sending? && s.pc.next < |s.workers|
    case Create(w, _) => w < |s.workers| && s.workers[w].inbox != [] && s.workers[w].inbox[0].C?
    case Begin(w) => w < |s.workers| && s.workers[w].inbox != [] && !s.workers[w].inbox[0].C?
    case Finish(w) => w < |s.workers| && s.workers[w].begun && s.workers[w].close < s.workers[w].connNum
    case Close(w) => w < |s.workers| && s.workers[w].made && s.workers[w].close < s.workers[w].connNum
  }

  /** A new stage: nobody has told yet. */
  function Unheard(workers: seq<Worker>): (r: seq<Worker>)
    ensures |r| == |workers|
    ensures forall w :: 0 <= w < |workers| ==> r[w] == workers[w].(told := 0)
  {
    seq(|workers|, w requires 0 <= w < |workers| => workers[w].(told := 0))
  }

  /** The main thread treats one byte. */
  function Treat(s: State, rounds: nat): State
    requires s.inbox != []
  {
    var n := |s.workers|;
    var s1 := s.(inbox := s.inbox[1..]);
    match s.inbox[0]
    case N =>
      if s.cthreads + 1 < n then s1.(cthreads := s.cthreads + 1)
      else
        var phase := if s.stage.Running? then s.stage.phase + 1 else 1;
        if phase < rounds then s1.(cthreads := 0, stage := Running(phase), pc := Sending(0, N), workers := Unheard(s.workers))
        else s1.(cthreads := 0, pc := Finished)
    case B => s1.(pc := Sending(0, B))
    case C =>
      if s.cthreads + 1 < n then s1.(cthreads := s.cthreads + 1)
      else s1.(cthreads := 0, stage := Running(0), pc := Sending(0, B), workers := Unheard(s.workers))
  }

  /** Worker `w` becomes `k` and writes `out` to the main thread. */
  function Put(s: State, w: nat, k: Worker, out: seq<Byte>): State
    requires w < |s.workers|
  {
    s.(workers := s.workers[w := k], inbox := s.inbox + out)
  }

  /** One more connection is accounted for: the worker tells when that makes all of them. */
  function Count1(s: State, w: nat, k: Worker): State
    requires w < |s.workers|
  {
    if k.close + k.complete == k.connNum then Put(s, w, k.(sent := k.sent + 1, told := k.told + 1), [N]) else Put(s, w, k, [])
  }

  function Step(s: State, a: Action, rounds: nat): State
    requires Enabled(s, a)
  {
    match a
    case MainRead => Treat(s, rounds)
    case MainSend =>
      var k := s.workers[s.pc.next];
      Put(s, s.pc.next, k.(inbox := k.inbox + [s.pc.byte]), []).(
        pc := if s.pc.next + 1 == |s.workers| then Waiting else Sending(s.pc.next + 1, s.pc.byte))
    case Create(w, made) =>
      Put(s, w, s.workers[w].(inbox := s.workers[w].inbox[1..], made := true, connNum := made), [C])
    case Begin(w) =>
      var k := s.workers[w].(inbox := s.workers[w].inbox[1..], begun := true, complete := 0);
      var byte := s.workers[w].inbox[0];
      if k.close == k.connNum then Put(s, w, k.(sent := 1, told := if byte == N then k.told + 1 else k.told), [byte])
      else Put(s, w, k.(sent := 0), [])
    case Finish(w) => Count1(s, w, s.workers[w].(complete := s.workers[w].complete + 1))
    case Close(w) => Count1(s, w, s.workers[w].(close := s.workers[w].close + 1))
  }

  /** The begin byte has still to be sent to worker `w`. */
  predicate Unsent(pc: Pc, w: nat) { pc.Sending? && pc.next <= w }

  /** Every connection of the worker is accounted for. */
  predicate Full(k: Worker) { k.close + k.complete >= k.connNum }

  /** Worker `w` has yet to write its byte for this stage. */
  predicate Due(s: State, w: nat)
    requires w < |s.workers|
  {
    if s.stage.Connecting? then !s.workers[w].made
    else Unsent(s.pc, w) || s.workers[w].inbox != [] || !Full(s.workers[w])
  }

  function Dues(s: State): seq<bool> {
    seq(|s.workers|, w requires 0 <= w < |s.workers| => Due(s, w))
  }

  predicate Yes(b: bool) { b }

  /** Bytes on their way, bytes counted and workers that still owe one make up the number
      of threads. */
  ghost predicate Balance(s: State) {
    |s.inbox| + s.cthreads + Count(Dues(s), Yes) == if s.pc.Finished? then 0 else |s.workers|
  }

  function BeginByte(phase: nat): Byte { if phase == 0 then B else N }

  ghost predicate MainInv(s: State, rounds: nat) {
    && s.cthreads < |s.workers|
    && (s.pc.Sending? ==> s.pc.next < |s.workers|)
    && (s.pc.Finished? ==> s.stage.Running?)
    && (s.stage.Running? ==> s.stage.phase < rounds)
    && (s.pc.Sending? ==> s.pc.byte == if s.stage.Connecting? then C else BeginByte(s.stage.phase))
    && (forall i :: 0 <= i < |s.inbox| ==> s.inbox[i] == if s.stage.Connecting? then C else N)
  }

  /** What a worker's counters and pipe can be, by stage. */
  ghost predicate WorkerOk(s: State, w: nat)
    requires w < |s.workers|
  {
    var k := s.workers[w];
    var waiting := Unsent(s.pc, w) || k.inbox != [];
    && k.close <= k.connNum && (!k.made ==> k.connNum == 0) && (k.begun ==> k.made && k.connNum > 0)
    && (!k.begun ==> k.complete == 0 && k.sent == 0 && (k.connNum > 0 ==> k.close < k.connNum))
    && if s.stage.Connecting? then
         && !k.begun
         && k.inbox == (if k.made || Unsent(s.pc, w) then [] else [C])
         && (k.made ==> !Unsent(s.pc, w))
       else
         && k.made
         && (Unsent(s.pc, w) ==> k.inbox == []) && (k.inbox == [] || k.inbox == [BeginByte(s.stage.phase)])
         && (if waiting then k.begun == (s.stage.phase > 0) && (k.begun ==> Full(k)) else k.begun)
  }

  /** In each stage every worker still owes its completion byte or has written it, once. */
  predicate Settled(s: State, w: nat)
    requires w < |s.workers|
  {
    s.workers[w].told == if s.stage.Connecting? || Due(s, w) then 0 else 1
  }

  ghost predicate Ledger(s: State) {
    forall w :: 0 <= w < |s.workers| ==> Settled(s, w)
  }

  ghost predicate Inv(s: State, rounds: nat) {
    MainInv(s, rounds) && (forall w :: 0 <= w < |s.workers| ==> WorkerOk(s, w)) && Balance(s) && Ledger(s)
  }

  /** The barrier's condition, checkable before the step: a worker has a connection left
      when it treats the first begin byte, and does not lose its last one before. */
  predicate Healthy(s: State, a: Action) {
    && (a.Begin? && a.worker < |s.workers| && s.workers[a.worker].inbox != [] && s.workers[a.worker].inbox[0] == B ==>
          s.workers[a.worker].close != s.workers[a.worker].connNum)
    && (a.Close? && a.worker < |s.workers| ==>
          s.workers[a.worker].begun || s.workers[a.worker].close + 1 < s.workers[a.worker].connNum)
  }

  lemma {:induction false} InitInv(n: nat, rounds: nat)
    requires n > 0
    ensures Inv(Init(n), rounds)
  {
    CountAll(Dues(Init(n)), Yes);
  }

  /** A step of worker `w` changes no other worker's standing. */
  lemma {:induction false} OneDue(s: State, s': State, w: nat)
    requires w < |s.workers| == |s'.workers| && s'.pc == s.pc && s'.stage == s.stage
    requires forall v :: 0 <= v < |s.workers| && v != w ==> s'.workers[v] == s.workers[v]
    ensures Count(Dues(s'), Yes) == Count(Dues(s), Yes) - (if Due(s, w) then 1 else 0) + (if Due(s', w) then 1 else 0)
  {
    hide Count;
    CountUpdate(Dues(s), w, Due(s', w), Yes);
    assert Dues(s') == Dues(s)[w := Due(s', w)];
  }

  /** When everything is counted, nobody owes. */
  lemma {:induction false} NobodyDue(s: State)
    requires Count(Dues(s), Yes) == 0
    ensures forall w :: 0 <= w < |s.workers| ==> !Due(s, w)
  {
    hide Count;
    forall w | 0 <= w < |s.workers|
      ensures !Due(s, w)
    {
      if Due(s, w) {
        CountMember(Dues(s), w, Yes);
      }
    }
  }

  lemma {:induction false} WorkerStep(s: State, a: Action, rounds: nat)
    requires Inv(s, rounds) && Enabled(s, a) && Healthy(s, a) && !a.MainRead? && !a.MainSend?
    ensures Inv(Step(s, a, rounds), rounds)
  {
    hide Count, Dues;
    var s' := Step(s, a, rounds);
    OneDue(s, s', a.worker);
    StandingStep(s, a, rounds);
    forall v | 0 <= v < |s'.workers|
      ensures WorkerOk(s', v) && Settled(s', v)
    {
      assert WorkerOk(s, v) && Settled(s, v);
    }
  }

  /** What a worker's step does to its own standing, and to the balance. */
  lemma {:induction false} StandingStep(s: State, a: Action, rounds: nat)
    requires MainInv(s, rounds) && Enabled(s, a) && Healthy(s, a) && !a.MainRead? && !a.MainSend?
    requires a.worker < |s.workers| && WorkerOk(s, a.worker) && Settled(s, a.worker)
    ensures var s' := Step(s, a, rounds);
            && |s'.workers| == |s.workers|
            && MainInv(s', rounds) && WorkerOk(s', a.worker) && Settled(s', a.worker)
            && |s'.inbox| + (if Due(s', a.worker) then 1 else 0) == |s.inbox| + (if Due(s, a.worker) then 1 else 0)
  {
  }

  lemma {:induction false} SendStep(s: State, rounds: nat)
    requires Inv(s, rounds) && Enabled(s, MainSend)
    ensures Inv(Step(s, MainSend, rounds), rounds)
  {
    hide Count;
    var s' := Step(s, MainSend, rounds);
    forall v | 0 <= v < |s.workers|
      ensures WorkerOk(s', v) && Due(s', v) == Due(s, v) && Settled(s', v)
    {
      assert WorkerOk(s, v) && Settled(s, v);
    }
    assert Dues(s') == Dues(s) && s.inbox + [] == s.inbox;
  }

  lemma {:induction false} ReadStep(s: State, rounds: nat)
    requires Inv(s, rounds) && Enabled(s, MainRead) && rounds > 0
    ensures Inv(Step(s, MainRead, rounds), rounds)
  {
    hide Count;
    var s' := Step(s, MainRead, rounds);
    if s'.pc.Waiting? {
      assert Dues(s') == Dues(s);
      forall v | 0 <= v < |s.workers|
        ensures WorkerOk(s', v) && Settled(s', v)
      {
        assert WorkerOk(s, v) && Settled(s, v);
      }
    } else {
      NobodyDue(s);
      forall v | 0 <= v < |s.workers|
        ensures WorkerOk(s', v) && Due(s', v) == s'.pc.Sending? && Settled(s', v)
      {
        assert WorkerOk(s, v) && !Due(s, v) && Settled(s, v);
      }
      if s'.pc.Sending? {
        CountAll(Dues(s'), Yes);
      } else {
        CountNone(Dues(s'), Yes);
      }
    }
  }

  lemma {:induction false} StepInv(s: State, a: Action, rounds: nat)
    requires Inv(s, rounds) && Enabled(s, a) && Healthy(s, a) && rounds > 0
    ensures Inv(Step(s, a, rounds), rounds)
  {
    hide Inv, Step;
    if a.MainRead? {
      ReadStep(s, rounds);
    } else if a.MainSend? {
      SendStep(s, rounds);
    } else {
      WorkerStep(s, a, rounds);
    }
  }

  ghost predicate StepsTo(s: State, s': State, rounds: nat) {
    exists a: Action :: Enabled(s, a) && Healthy(s, a) && s' == Step(s, a, rounds)
  }

  /** A healthy run of `n` workers through `rounds` phases. */
  ghost predicate IsRun(run: seq<State>, n: nat, rounds: nat) {
    && n > 0 && rounds > 0 && run != [] && run[0] == Init(n)
    && forall k :: 0 <= k < |run| - 1 ==> StepsTo(run[k], run[k + 1], rounds)
  }

  lemma {:induction false} RunInv(run: seq<State>, n: nat, rounds: nat, k: nat)
    requires IsRun(run, n, rounds) && k < |run|
    ensures Inv(run[k], rounds) && |run[k].workers| == n
    decreases k
  {
    hide Inv;
    if k == 0 {
      InitInv(n, rounds);
    } else {
      RunInv(run, n, rounds, k - 1);
      assert StepsTo(run[k - 1], run[k - 1 + 1], rounds);
      var a: Action :| Enabled(run[k - 1], a) && Healthy(run[k - 1], a) && run[k] == Step(run[k - 1], a, rounds);
      StepInv(run[k - 1], a, rounds);
    }
  }

  /** The main thread starts a new round of bytes to the workers, or ends. */
  predicate Advances(s: State, s': State) {
    s.pc.Waiting? && !s'.pc.Waiting?
  }

  /** The barrier: the main thread leaves a stage only after every worker has begun it,
      accounted for all its connections and told so exactly once, every byte has been
      counted and none is left over; in between, bytes pending, bytes counted and workers
      that still owe one make up the number of threads. */
  lemma {:induction false} BarrierHolds(run: seq<State>, n: nat, rounds: nat, k: nat)
    requires IsRun(run, n, rounds) && k + 1 < |run|
    ensures Balance(run[k]) && |run[k].workers| == n
    ensures Advances(run[k], run[k + 1]) ==>
              var s := run[k];
              && |s.inbox| == 1 && s.cthreads == n - 1
              && forall w :: 0 <= w < n ==>
                   && s.workers[w].made && s.workers[w].inbox == []
                   && (s.stage.Running? ==> s.workers[w].begun && Full(s.workers[w]) && s.workers[w].told == 1)
  {
    RunInv(run, n, rounds, k);
    var s := run[k];
    if Advances(s, run[k + 1]) {
      hide Count;
      assert StepsTo(s, run[k + 1], rounds);
      NobodyDue(s);
      forall w | 0 <= w < n
        ensures s.workers[w].made && s.workers[w].inbox == []
        ensures s.stage.Running? ==> s.workers[w].begun && Full(s.workers[w]) && s.workers[w].told == 1
      {
        assert WorkerOk(s, w) && !Due(s, w) && Settled(s, w);
      }
    }
  }

  /** Phases follow one another: each advance of a running stage is to the next phase, and
      the end comes after the last one. */
  lemma {:induction false} PhasesInOrder(run: seq<State>, n: nat, rounds: nat, k: nat)
    requires IsRun(run, n, rounds) && k + 1 < |run| && Advances(run[k], run[k + 1])
    ensures var s, s' := run[k], run[k + 1];
            if s.stage.Connecting? then s'.stage == Running(0) && s'.pc == Sending(0, B)
            else if s.stage.phase + 1 < rounds then s'.stage == Running(s.stage.phase + 1) && s'.pc == Sending(0, N)
            else s'.pc.Finished?
  {
    RunInv(run, n, rounds, k);
    hide Count, Dues;
    BarrierHolds(run, n, rounds, k);
    assert StepsTo(run[k], run[k + 1], rounds);
    assert run[k].inbox[0] in run[k].inbox;
  }

  /** In every healthy run each worker writes one completion byte in each stage after the
      connections are made, and no second one: it has written it exactly when it owes none. */
  lemma {:induction false} AtMostOneByte(run: seq<State>, n: nat, rounds: nat, k: nat, w: nat)
    requires IsRun(run, n, rounds) && k < |run| && w < n
    ensures |run[k].workers| == n && run[k].workers[w].told <= 1
    ensures run[k].stage.Running? ==> (run[k].workers[w].told == 1 <==> !Due(run[k], w))
    ensures run[k].stage.Connecting? ==> run[k].workers[w].told == 0
  {
    RunInv(run, n, rounds, k);
    assert Settled(run[k], w);
  }

  ghost predicate AnyStep(s: State, s': State, rounds: nat) {
    exists a: Action :: Enabled(s, a) && s' == Step(s, a, rounds)
  }

  ghost predicate IsAnyRun(run: seq<State>, n: nat, rounds: nat) {
    && run != [] && run[0] == Init(n)
    && forall k :: 0 <= k < |run| - 1 ==> AnyStep(run[k], run[k + 1], rounds)
  }

  /** Where the barrier stands, a step keeps the ledger exactly when it is healthy. */
  lemma {:induction false} LedgerNeedsHealth(s: State, a: Action, rounds: nat)
    requires Inv(s, rounds) && Enabled(s, a) && rounds > 0
    ensures Ledger(Step(s, a, rounds)) <==> Healthy(s, a)
  {
    if Healthy(s, a) {
      StepInv(s, a, rounds);
    } else {
      assert WorkerOk(s, a.worker) && Settled(s, a.worker);
      UnhealthyStep(s, a, rounds);
    }
  }

  lemma {:induction false} UnhealthyStep(s: State, a: Action, rounds: nat)
    requires Enabled(s, a) && !Healthy(s, a)
    requires MainInv(s, rounds) && WorkerOk(s, a.worker) && Settled(s, a.worker)
    ensures var s' := Step(s, a, rounds); |s'.workers| == |s.workers| && !Settled(s', a.worker)
  {
  }

  /** The exact condition: a run keeps the ledger, and so one completion byte per worker and
      stage, if and only if all its steps are healthy. */
  lemma {:induction false} LedgerExact(run: seq<State>, n: nat, rounds: nat)
    requires IsAnyRun(run, n, rounds) && n > 0 && rounds > 0
    ensures (forall k :: 0 <= k < |run| ==> Ledger(run[k])) <==> IsRun(run, n, rounds)
  {
    hide Ledger, Inv;
    if IsRun(run, n, rounds) {
      forall k | 0 <= k < |run| ensures Ledger(run[k]) {
        RunInv(run, n, rounds, k);
        LedgerOf(run[k], rounds);
      }
    }
    if forall k :: 0 <= k < |run| ==> Ledger(run[k]) {
      forall k | 0 <= k < |run| - 1 ensures StepsTo(run[k], run[k + 1], rounds) {
        LedgerHealthy(run, n, rounds, k);
      }
    }
  }

  lemma {:induction false} LedgerOf(s: State, rounds: nat)
    requires Inv(s, rounds)
    ensures Ledger(s)
  {
  }

  lemma {:induction false} LedgerHealthy(run: seq<State>, n: nat, rounds: nat, k: nat)
    requires IsAnyRun(run, n, rounds) && n > 0 && rounds > 0 && k < |run|
    requires forall j :: 0 <= j < |run| ==> Ledger(run[j])
    ensures Inv(run[k], rounds)
    ensures k < |run| - 1 ==> StepsTo(run[k], run[k + 1], rounds)
    decreases k
  {
    hide Ledger, Inv, Step, Enabled, Healthy;
    if k == 0 {
      InitInv(n, rounds);
    } else {
      LedgerHealthy(run, n, rounds, k - 1);
      assert StepsTo(run[k - 1], run[k - 1 + 1], rounds);
      var a: Action :| Enabled(run[k - 1], a) && Healthy(run[k - 1], a) && run[k] == Step(run[k - 1], a, rounds);
      StepInv(run[k - 1], a, rounds);
    }
    if k < |run| - 1 {
      assert AnyStep(run[k], run[k + 1], rounds);
      var a: Action :| Enabled(run[k], a) && run[k + 1] == Step(run[k], a, rounds);
      LedgerNeedsHealth(run[k], a, rounds);
    }
  }

  /** Losing a connection keeps the balance exactly when the loss is healthy. */
  lemma {:induction false} BalanceNeedsHealth(s: State, w: nat, rounds: nat)
    requires Inv(s, rounds) && Enabled(s, Close(w))
    ensures Balance(Step(s, Close(w), rounds)) <==> Healthy(s, Close(w))
  {
    if Healthy(s, Close(w)) {
      WorkerStep(s, Close(w), rounds);
    } else {
      hide Count, Dues;
      assert WorkerOk(s, w);
      OneDue(s, Step(s, Close(w), rounds), w);
    }
  }

  /* ---------- runs that are not healthy ---------- */

  /** A worker that has begun has answered its latest begin byte, once, exactly when its
      connections are all accounted for. */
  ghost predicate OneAnswer(k: Worker) {
    && k.close <= k.connNum
    && (k.begun ==> k.sent == if Full(k) then 1 else 0)
  }

  /** A worker makes its connections once, first of all. */
  ghost predicate MadeOnce(s: State, w: nat)
    requires w < |s.workers|
  {
    var k := s.workers[w];
    && (k.begun ==> k.made)
    && (!k.made ==> k.close == 0 && k.complete == 0)
    && if s.pc.Sending? && s.pc.byte.C? && s.pc.next <= w then k.inbox == [] && !k.made
       else if k.made then C !in k.inbox
       else k.inbox != [] && k.inbox[0] == C && C !in k.inbox[1..]
  }

  lemma {:induction false} OneAnswerStep(s: State, a: Action, rounds: nat, w: nat)
    requires Enabled(s, a) && w < |s.workers| && MadeOnce(s, w) && OneAnswer(s.workers[w])
    ensures var s' := Step(s, a, rounds);
            |s'.workers| == |s.workers| && MadeOnce(s', w) && OneAnswer(s'.workers[w])
  {
    hide Treat;
    var k := s.workers[w];
    if a.MainSend? {
      SendMadeOnce(s, rounds, w);
    } else if a.MainRead? {
      TreatKeeps(s, rounds, w);
    } else if k.inbox != [] {
      assert k.inbox == [k.inbox[0]] + k.inbox[1..];
    }
  }

  lemma {:induction false} TreatKeeps(s: State, rounds: nat, w: nat)
    requires s.inbox != [] && s.pc.Waiting? && w < |s.workers|
    ensures var s' := Treat(s, rounds);
            && |s'.workers| == |s.workers| && s'.workers[w] == s.workers[w].(told := s'.workers[w].told)
            && (s'.pc.Sending? ==> s'.pc.byte != C)
  {
  }

  lemma {:induction false} SendMadeOnce(s: State, rounds: nat, w: nat)
    requires Enabled(s, MainSend) && w < |s.workers| && MadeOnce(s, w)
    ensures var s' := Step(s, MainSend, rounds);
            && |s'.workers| == |s.workers| && MadeOnce(s', w)
            && s'.workers[w] == s.workers[w].(inbox := s'.workers[w].inbox)
  {
    var k, k' := s.workers[w], Step(s, MainSend, rounds).workers[w];
    if s.pc.next == w && k.inbox != [] {
      assert k'.inbox[0] == k.inbox[0] && k'.inbox[1..] == k.inbox[1..] + [s.pc.byte];
    }
  }

  /** In every run, healthy or not, a worker answers a begin byte at most once, whatever
      connections fail, finish or close, and when. */
  lemma {:induction false} OneAnswerPerBegin(run: seq<State>, n: nat, rounds: nat, k: nat, w: nat)
    requires IsAnyRun(run, n, rounds) && k < |run| && w < n
    ensures |run[k].workers| == n && OneAnswer(run[k].workers[w]) && MadeOnce(run[k], w)
    decreases k
  {
    hide OneAnswer, MadeOnce, Step, Enabled;
    if k > 0 {
      OneAnswerPerBegin(run, n, rounds, k - 1, w);
      assert AnyStep(run[k - 1], run[k - 1 + 1], rounds);
      var a: Action :| Enabled(run[k - 1], a) && run[k] == Step(run[k - 1], a, rounds);
      OneAnswerStep(run[k - 1], a, rounds, w);
    } else {
      FirstWorkers(n, w);
    }
  }

  lemma {:induction false} FirstWorkers(n: nat, w: nat)
    requires w < n
    ensures MadeOnce(Init(n), w) && OneAnswer(Init(n).workers[w])
  {
  }

  /** A worker without a connection left in the first phase, which has told nothing. */
  predicate Mute(s: State, w: nat) {
    && w < |s.workers| && s.stage == Running(0) && (s.pc.Sending? ==> s.pc.byte == B)
    && var k := s.workers[w];
       k.made && k.close == k.connNum && k.told == 0 && forall i :: 0 <= i < |k.inbox| ==> k.inbox[i] == B
  }

  /** It answers every begin byte with a begin byte, and stays mute while the phase lasts. */
  lemma {:induction false} MuteStep(s: State, a: Action, rounds: nat, w: nat)
    requires Mute(s, w) && Enabled(s, a)
    ensures Step(s, a, rounds).stage == Running(0) ==> Mute(Step(s, a, rounds), w)
    ensures a == Begin(w) ==> Step(s, a, rounds).inbox == s.inbox + [B]
  {
    var k := s.workers[w];
    if a == Begin(w) {
      assert k.inbox[0] == B;
    }
  }

  /** For any number of workers and every run: as long as the first phase lasts such a
      worker writes no completion byte, so the main thread can only leave the phase
      without its signal. */
  lemma {:induction false} EmptyWorkerUnheard(run: seq<State>, n: nat, rounds: nat, j: nat, m: nat, w: nat)
    requires IsAnyRun(run, n, rounds) && j <= m < |run| && Mute(run[j], w)
    requires forall i :: j <= i <= m ==> run[i].stage == Running(0)
    ensures Mute(run[m], w)
    decreases m - j
  {
    hide Mute, Step, Enabled;
    if j < m {
      EmptyWorkerUnheard(run, n, rounds, j, m - 1, w);
      assert AnyStep(run[m - 1], run[m - 1 + 1], rounds);
      var a: Action :| Enabled(run[m - 1], a) && run[m] == Step(run[m - 1], a, rounds);
      MuteStep(run[m - 1], a, rounds, w);
    }
  }

  /** A worker that could make no connection is mute when the first phase reaches it. */
  lemma {:induction false} EmptyWorkerMute(s: State, rounds: nat, w: nat)
    requires Inv(s, rounds) && s.stage == Running(0) && w < |s.workers| && s.workers[w].connNum == 0
    ensures Mute(s, w)
  {
    assert WorkerOk(s, w) && Settled(s, w);
  }

  /* ---------- concrete runs ---------- */

  /** A step to a state of two workers, part by part. */
  lemma {:induction false} Goes(s: State, a: Action, s': State, rounds: nat)
    requires Enabled(s, a) && |s.workers| == 2 == |s'.workers|
    requires var t := Step(s, a, rounds);
             && t.pc == s'.pc && t.stage == s'.stage && t.cthreads == s'.cthreads && t.inbox == s'.inbox
             && |t.workers| == 2 && t.workers[0] == s'.workers[0] && t.workers[1] == s'.workers[1]
    ensures AnyStep(s, s', rounds)
  {
    assert Step(s, a, rounds).workers == s'.workers;
  }

  /** Two workers, of which the first makes no connection and the second one. */
  function Two(pc: Pc, stage: Stage, cthreads: nat, inbox: seq<Byte>, a: Worker, b: Worker): State {
    State(pc, stage, cthreads, inbox, [a, b])
  }

  function Unmade(inbox: seq<Byte>): Worker { Worker(false, false, 0, 0, 0, inbox, 0, 0) }

  function Without(begun: bool, inbox: seq<Byte>): Worker {
    Worker(true, begun, 0, 0, 0, inbox, if begun then 1 else 0, 0)
  }

  function With(begun: bool, complete: nat, inbox: seq<Byte>, told: nat): Worker {
    Worker(true, begun, 1, 0, complete, inbox, if complete > 0 then 1 else 0, told)
  }

  lemma {:induction false} TwoAsked() returns (s0: State, s1: State, s2: State, s3: State)
    ensures s0 == Init(2) && AnyStep(s0, s1, 2) && AnyStep(s1, s2, 2) && AnyStep(s2, s3, 2)
    ensures s3 == Two(Waiting, Connecting, 0, [C], Without(false, []), Unmade([C]))
  {
    s0 := Two(Sending(0, C), Connecting, 0, [], Unmade([]), Unmade([]));
    assert s0.workers == Init(2).workers;
    hide Init;
    s1 := Two(Sending(1, C), Connecting, 0, [], Unmade([C]), Unmade([]));
    Goes(s0, MainSend, s1, 2);
    s2 := Two(Waiting, Connecting, 0, [], Unmade([C]), Unmade([C]));
    Goes(s1, MainSend, s2, 2);
    s3 := Two(Waiting, Connecting, 0, [C], Without(false, []), Unmade([C]));
    assert [C][1..] == [];
    Goes(s2, Create(0, 0), s3, 2);
  }

  lemma {:induction false} TwoConnected() returns (s3: State, s4: State, s5: State, s6: State)
    ensures AnyStep(s3, s4, 2) && AnyStep(s4, s5, 2) && AnyStep(s5, s6, 2)
    ensures s3 == Two(Waiting, Connecting, 0, [C], Without(false, []), Unmade([C]))
    ensures s6 == Two(Sending(0, B), Running(0), 0, [], Without(false, []), With(false, 0, [], 0))
  {
    s3 := Two(Waiting, Connecting, 0, [C], Without(false, []), Unmade([C]));
    s4 := Two(Waiting, Connecting, 0, [C, C], Without(false, []), With(false, 0, [], 0));
    assert [C][1..] == [] && [C, C][1..] == [C];
    Goes(s3, Create(1, 1), s4, 2);
    s5 := Two(Waiting, Connecting, 1, [C], Without(false, []), With(false, 0, [], 0));
    Goes(s4, MainRead, s5, 2);
    s6 := Two(Sending(0, B), Running(0), 0, [], Without(false, []), With(false, 0, [], 0));
    Goes(s5, MainRead, s6, 2);
  }

  /** One round of begin bytes: the worker with a connection begins and finishes. */
  lemma {:induction false} TwoSend(begun: bool, complete: nat, inbox: seq<Byte>, told: nat) returns (t: State, u: State)
    ensures var s := Two(Sending(0, B), Running(0), 0, inbox, Without(begun, []), With(begun, complete, [], told));
            AnyStep(s, t, 2) && AnyStep(t, u, 2)
    ensures u == Two(Waiting, Running(0), 0, inbox, Without(begun, [B]), With(begun, complete, [B], told))
  {
    var s := Two(Sending(0, B), Running(0), 0, inbox, Without(begun, []), With(begun, complete, [], told));
    t := Two(Sending(1, B), Running(0), 0, inbox, Without(begun, [B]), With(begun, complete, [], told));
    u := Two(Waiting, Running(0), 0, inbox, Without(begun, [B]), With(begun, complete, [B], told));
    assert inbox + [] == inbox;
    Goes(s, MainSend, t, 2);
    Goes(t, MainSend, u, 2);
  }

  lemma {:induction false} TwoFinish(first: Worker, begun: bool, complete: nat, inbox: seq<Byte>, told: nat) returns (t: State, u: State)
    ensures var s := Two(Waiting, Running(0), 0, inbox, first, With(begun, complete, [B], told));
            AnyStep(s, t, 2) && AnyStep(t, u, 2)
    ensures u == Two(Waiting, Running(0), 0, inbox + [N], first, With(true, 1, [], told + 1))
  {
    var s := Two(Waiting, Running(0), 0, inbox, first, With(begun, complete, [B], told));
    t := Two(Waiting, Running(0), 0, inbox, first, With(true, 0, [], told));
    u := Two(Waiting, Running(0), 0, inbox + [N], first, With(true, 1, [], told + 1));
    assert inbox + [] == inbox && [B][1..] == [];
    Goes(s, Begin(1), t, 2);
    Goes(t, Finish(1), u, 2);
  }

  lemma {:induction false} TwoAnswer()
    ensures AnyStep(Two(Waiting, Running(0), 0, [], Without(false, [B]), With(false, 0, [B], 0)),
                    Two(Waiting, Running(0), 0, [B], Without(true, []), With(false, 0, [B], 0)), 2)
  {
    assert [B][1..] == [] && [] + [B] == [B];
    Goes(Two(Waiting, Running(0), 0, [], Without(false, [B]), With(false, 0, [B], 0)), Begin(0),
         Two(Waiting, Running(0), 0, [B], Without(true, []), With(false, 0, [B], 0)), 2);
  }

  lemma {:induction false} TwoRestart()
    ensures AnyStep(Two(Waiting, Running(0), 0, [B] + [N], Without(true, []), With(true, 1, [], 1)),
                    Two(Sending(0, B), Running(0), 0, [N], Without(true, []), With(true, 1, [], 1)), 2)
  {
    assert ([B] + [N])[1..] == [N];
    Goes(Two(Waiting, Running(0), 0, [B] + [N], Without(true, []), With(true, 1, [], 1)), MainRead,
         Two(Sending(0, B), Running(0), 0, [N], Without(true, []), With(true, 1, [], 1)), 2);
  }

  lemma {:induction false} TwoLeave() returns (t: State, u: State)
    ensures var s := Two(Waiting, Running(0), 0, [N] + [N], Without(true, [B]), With(true, 1, [], 2));
            AnyStep(s, t, 2) && AnyStep(t, u, 2)
    ensures t.stage == Running(0) && u.stage == Running(1)
  {
    var s := Two(Waiting, Running(0), 0, [N] + [N], Without(true, [B]), With(true, 1, [], 2));
    t := Two(Waiting, Running(0), 1, [N], Without(true, [B]), With(true, 1, [], 2));
    u := Two(Sending(0, N), Running(1), 0, [], Without(true, [B]), With(true, 1, [], 0));
    assert ([N] + [N])[1..] == [N] && [N][1..] == [];
    Goes(s, MainRead, t, 2);
    Goes(t, MainRead, u, 2);
  }

  /** A run in which one worker makes no connection: its answer starts the phase over, and
      the other worker writes two completion bytes in the same stage. The main thread
      leaves the stage on these two, without a byte from the first worker. */
  lemma {:induction false} TwoBytesInOneStage() returns (run: seq<State>)
    ensures IsAnyRun(run, 2, 2) && |run| == 19
    ensures run[16].stage == Running(0) && |run[16].workers| == 2
    ensures run[16].workers[0].told == 0 && run[16].workers[1].told == 2
    ensures run[17].stage == Running(0) && run[18].stage == Running(1)
  {
    hide Init, AnyStep;
    var s0, s1, s2, s3 := TwoAsked();
    var r3, s4, s5, s6 := TwoConnected();
    var s7, s8 := TwoSend(false, 0, [], 0);
    TwoAnswer();
    var s9 := Two(Waiting, Running(0), 0, [B], Without(true, []), With(false, 0, [B], 0));
    var s10, s11 := TwoFinish(Without(true, []), false, 0, [B], 0);
    TwoRestart();
    var s12 := Two(Sending(0, B), Running(0), 0, [N], Without(true, []), With(true, 1, [], 1));
    var s13, s14 := TwoSend(true, 1, [N], 1);
    var s15, s16 := TwoFinish(Without(true, [B]), true, 1, [N], 1);
    var s17, s18 := TwoLeave();
    run := [s0, s1, s2, s3, s4, s5, s6, s7, s8, s9, s10, s11, s12, s13, s14, s15, s16, s17, s18];
  }

  /** A worker that loses its only connection before the begin byte ends the phase for a
      main thread that has just told it to begin. */
  lemma {:induction false} EarlyCloseSkipsPhase() returns (run: seq<State>)
    ensures IsAnyRun(run, 1, 2)
    ensures var s := run[|run| - 1];
            s.stage == Running(1) && |s.workers| == 1 && !s.workers[0].begun && s.workers[0].inbox == [B]
  {
    var s0 := Init(1);
    var s1 := Step(s0, MainSend, 2);
    var s2 := Step(s1, Create(0, 1), 2);
    var s3 := Step(s2, Close(0), 2);
    var s4 := Step(s3, MainRead, 2);
    var s5 := Step(s4, MainSend, 2);
    assert s5.inbox == [N];
    var s6 := Step(s5, MainRead, 2);
    run := [s0, s1, s2, s3, s4, s5, s6];
    assert AnyStep(s0, s1, 2) && AnyStep(s1, s2, 2) && AnyStep(s2, s3, 2);
    assert AnyStep(s3, s4, 2) && AnyStep(s4, s5, 2) && AnyStep(s5, s6, 2);
  }

  /** A single worker without connections, about to be sent the first begin byte. */
  function EmptyWorker(begun: bool): State {
    State(Sending(0, B), Running(0), 0, [], [Without(begun, [])])
  }

  /** It answers with a begin byte, which makes the main thread start the phase over. */
  lemma {:induction false} EmptyRound(begun: bool, rounds: nat) returns (t: State, u: State)
    ensures AnyStep(EmptyWorker(begun), t, rounds) && AnyStep(t, u, rounds)
    ensures AnyStep(u, EmptyWorker(true), rounds)
  {
    var s := EmptyWorker(begun);
    t := State(Waiting, Running(0), 0, [], [Without(begun, [B])]);
    EmptySent(begun, rounds);
    u := State(Waiting, Running(0), 0, [B], [Without(true, [])]);
    EmptyAnswer(begun, rounds);
    var v := Step(u, MainRead, rounds);
    assert v.inbox == [] && v == EmptyWorker(true);
  }

  lemma {:induction false} EmptySent(begun: bool, rounds: nat)
    ensures AnyStep(EmptyWorker(begun), State(Waiting, Running(0), 0, [], [Without(begun, [B])]), rounds)
  {
    var t := Step(EmptyWorker(begun), MainSend, rounds);
    assert t.inbox == [] && t.workers[0].inbox == [B] && t.workers == [Without(begun, [B])];
  }

  lemma {:induction false} EmptyAnswer(begun: bool, rounds: nat)
    ensures AnyStep(State(Waiting, Running(0), 0, [], [Without(begun, [B])]), State(Waiting, Running(0), 0, [B], [Without(true, [])]), rounds)
  {
    var u := Step(State(Waiting, Running(0), 0, [], [Without(begun, [B])]), Begin(0), rounds);
    assert u.inbox == [B] && u.workers[0].inbox == [] && u.workers == [Without(true, [])];
  }

  /** How the worker gets there. */
  lemma {:induction false} EmptyStart(rounds: nat) returns (s1: State, s2: State)
    ensures AnyStep(Init(1), s1, rounds) && AnyStep(s1, s2, rounds)
    ensures AnyStep(s2, EmptyWorker(false), rounds)
  {
    s1 := Step(Init(1), MainSend, rounds);
    assert s1.workers[0].inbox == [C] && s1.inbox == [];
    s2 := Step(s1, Create(0, 0), rounds);
    assert s2.workers[0].inbox == [] && s2.inbox == [C];
    var s3 := Step(s2, MainRead, rounds);
    assert s3.inbox == [] && s3.workers == EmptyWorker(false).workers;
  }

  /** A single worker and the main thread send each other round in a circle, and the phase
      never ends. */
  lemma {:induction false} EmptyWorkerLoops(rounds: nat) returns (run: seq<State>)
    ensures IsAnyRun(run, 1, rounds) && |run| == 10
    ensures run[6].stage == Running(0) && run[6].pc == Sending(0, B) && run[9] == run[6]
  {
    hide AnyStep, Init;
    var s1, s2 := EmptyStart(rounds);
    var s4, s5 := EmptyRound(false, rounds);
    var s7, s8 := EmptyRound(true, rounds);
    run := [Init(1), s1, s2, EmptyWorker(false), s4, s5, EmptyWorker(true), s7, s8, EmptyWorker(true)];
  }
}
