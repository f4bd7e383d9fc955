/** Reference counting and freeing in `conn.c`: any number of threads look connections up
    by index, drop their references and remove connections, step by step under the
    readers/writer lock. */
module Lifetime {
  import opened Wrappers

  /** What a thread wants the lock for. */
  datatype Wish =
    | ToLook(index: nat)
    | ToClose(conn: nat)
    | ToInsert(index: nat, conn: nat)
    | ToRemove(index: nat)

  /** Where a thread stands. */
  datatype Pc =
    | Outside
    | Blocked(wish: Wish)          // in `begin_read_lock` or `begin_write_lock`
    | Looking(index: nat)          // read lock held, about to read the slot
    | Found(conn: nat)             // read lock held, about to count the reference
    | Leaving(result: Option<nat>) // read lock held, about to give it up
    | Removing(index: nat)         // write lock held, about to clear the slot
    | Waiting(conn: nat)           // write lock held, until no reference is left

  /** `slots` is the index table, `refs` the counts of the allocated connections, `freed`
      those freed so far, and `held` the references each thread took and has not dropped. */
  datatype State = State(threads: seq<Pc>, held: seq<multiset<nat>>, slots: map<nat, nat>,
                         refable: set<nat>, refs: map<nat, nat>, freed: set<nat>)

  datatype Action =
    | Ask(wish: Wish)
    | Enter
    | Look
    | Ref
    | EndIndex
    | Unref(conn: nat)
    | Clear
    | Free

  function Init(n: nat): State {
    State(seq(n, _ => Outside), seq(n, _ => multiset{}), map[], {}, map[], {})
  }

  predicate Writes(pc: Pc) { pc.Removing? || pc.Waiting? }

  predicate Away(pc: Pc) { pc.Outside? || pc.Blocked? }

  /** What the lock grants: readers enter when nobody writes, a writer when nobody is inside. */
  predicate NoWriter(s: State) { forall t :: 0 <= t < |s.threads| ==> !Writes(s.threads[t]) }

  predicate NobodyInside(s: State) { forall t :: 0 <= t < |s.threads| ==> Away(s.threads[t]) }

  predicate MayEnter(s: State, wish: Wish) {
    match wish
    case ToLook(_) => NoWriter(s)
    case ToClose(_) => NoWriter(s)
    case ToInsert(i, c) => NobodyInside(s) && i !in s.slots && c !in s.refs && c !in s.freed
    case ToRemove(i) => NobodyInside(s) && i in s.slots
  }

  predicate Enabled(s: State, t: nat, a: Action) {
    && t < |s.threads| == |s.held|
    && var pc := s.threads[t];
       match a
       case Ask(_) => pc.Outside?
       case Enter => pc.Blocked? && MayEnter(s, pc.wish)
       case Look => pc.Looking?
       case Ref => pc.Found? && pc.conn in s.refs
       case EndIndex => pc.Leaving?
       case Unref(c) => pc.Outside? && c in s.held[t] && c in s.refs && s.refs[c] > 0
       case Clear => pc.Removing? && pc.index in s.slots
       case Free => pc.Waiting? && pc.conn in s.refs && s.refs[pc.conn] == 0
  }

  function Go(s: State, t: nat, pc: Pc): State
    requires t < |s.threads|
  {
    s.(threads := s.threads[t := pc])
  }

  /** A thread gets the lock; a close and an insertion are over in one step. */
  function EnterLock(s: State, t: nat, wish: Wish): State
    requires t < |s.threads|
  {
    match wish
    case ToLook(i) => Go(s, t, Looking(i))
    case ToClose(c) => Go(s, t, Outside).(refable := s.refable - {c})
    case ToInsert(i, c) =>
      Go(s, t, Outside).(slots := s.slots[i := c], refs := s.refs[c := 0], refable := s.refable + {c})
    case ToRemove(i) => Go(s, t, Removing(i))
  }

  function Step(s: State, t: nat, a: Action): State
    requires Enabled(s, t, a)
  {
    var pc := s.threads[t];
    match a
    case Ask(wish) => Go(s, t, Blocked(wish))
    case Enter => EnterLock(s, t, pc.wish)
    case Look =>
      if pc.index in s.slots && s.slots[pc.index] in s.refable then Go(s, t, Found(s.slots[pc.index]))
      else Go(s, t, Leaving(None))
    case Ref =>
      Go(s, t, Leaving(Some(pc.conn))).(refs := s.refs[pc.conn := s.refs[pc.conn] + 1],
                                       held := s.held[t := s.held[t] + multiset{pc.conn}])
    case EndIndex => Go(s, t, Outside)
    case Unref(c) => s.(refs := s.refs[c := s.refs[c] - 1], held := s.held[t := s.held[t] - multiset{c}])
    case Clear => Go(s, t, Waiting(s.slots[pc.index])).(slots := s.slots - {pc.index})
    case Free => Go(s, t, Outside).(refs := s.refs - {pc.conn}, freed := s.freed + {pc.conn})
  }

  /** How many references to a connection the threads hold. */
  function Held(held: seq<multiset<nat>>, c: nat): nat {
    if held == [] then 0 else held[0][c] + Held(held[1..], c)
  }

  lemma {:induction false} HeldUpdate(held: seq<multiset<nat>>, t: nat, m: multiset<nat>, c: nat)
    requires t < |held|
    ensures Held(held[t := m], c) == Held(held, c) - held[t][c] + m[c]
    decreases t
  {
    if t > 0 {
      assert held[t := m][1..] == held[1..][t - 1 := m];
      HeldUpdate(held[1..], t - 1, m, c);
    } else {
      assert held[0 := m][1..] == held[1..];
    }
  }

  /** No references in all means none by any thread. */
  lemma {:induction false} HeldBound(held: seq<multiset<nat>>, t: nat, c: nat)
    requires t < |held|
    ensures held[t][c] <= Held(held, c)
    decreases t
  {
    if t > 0 {
      HeldBound(held[1..], t - 1, c);
    }
  }

  lemma {:induction false} HeldWitness(held: seq<multiset<nat>>, c: nat) returns (t: nat)
    requires Held(held, c) > 0
    ensures t < |held| && c in held[t]
    decreases |held|
  {
    if c in held[0] {
      t := 0;
    } else {
      var k := HeldWitness(held[1..], c);
      t := k + 1;
    }
  }

  lemma {:induction false} HeldNone(held: seq<multiset<nat>>, c: nat)
    requires forall t :: 0 <= t < |held| ==> c !in held[t]
    ensures Held(held, c) == 0
    decreases |held|
  {
    if held != [] {
      HeldNone(held[1..], c);
    }
  }

  /** A writer is alone inside. */
  ghost predicate LockInv(s: State) {
    forall t, u :: 0 <= t < |s.threads| && 0 <= u < |s.threads| && t != u && Writes(s.threads[t]) ==>
      Away(s.threads[u])
  }

  /** A slot holds an allocated connection, each in one slot. */
  ghost predicate SlotInv(s: State) {
    && (forall i :: i in s.slots ==> s.slots[i] in s.refs)
    && (forall i, j :: i in s.slots && j in s.slots && s.slots[i] == s.slots[j] ==> i == j)
    && s.refs.Keys !! s.freed
  }

  /** What a thread knows where it stands. */
  ghost predicate PcInv(s: State) {
    forall t :: 0 <= t < |s.threads| ==>
      var pc := s.threads[t];
      && (pc.Found? ==> pc.conn in s.slots.Values)
      && (pc.Removing? ==> pc.index in s.slots)
      && (pc.Waiting? ==> pc.conn in s.refs && pc.conn !in s.slots.Values)
  }

  /** The count of each allocated connection is the number of references held to it;
      nobody holds a reference to anything else. */
  ghost predicate RefInv(s: State) {
    && |s.held| == |s.threads|
    && (forall c :: c in s.refs ==> s.refs[c] == Held(s.held, c))
    && (forall t, c :: 0 <= t < |s.held| && c in s.held[t] ==> c in s.refs)
  }

  /** What a lookup is about to return, its caller holds. */
  ghost predicate ReturnInv(s: State) {
    forall t, c :: 0 <= t < |s.threads| == |s.held| && s.threads[t] == Leaving(Some(c)) ==> c in s.held[t]
  }

  ghost predicate Inv(s: State) {
    LockInv(s) && SlotInv(s) && PcInv(s) && RefInv(s) && ReturnInv(s)
  }

  lemma {:induction false} InitInv(n: nat)
    ensures Inv(Init(n))
  {
  }

  lemma {:induction false} LockStep(s: State, t: nat, a: Action)
    requires LockInv(s) && Enabled(s, t, a)
    ensures LockInv(Step(s, t, a))
  {
  }

  lemma {:induction false} SlotStep(s: State, t: nat, a: Action)
    requires Inv(s) && Enabled(s, t, a)
    ensures SlotInv(Step(s, t, a))
  {
    hide LockInv, RefInv, NoWriter, NobodyInside;
  }

  lemma {:induction false} PcStep(s: State, t: nat, a: Action)
    requires Inv(s) && Enabled(s, t, a)
    ensures PcInv(Step(s, t, a))
  {
    hide RefInv;
    var s' := Step(s, t, a);
    forall u | 0 <= u < |s'.threads|
      ensures var pc := s'.threads[u];
              && (pc.Found? ==> pc.conn in s'.slots.Values)
              && (pc.Removing? ==> pc.index in s'.slots)
              && (pc.Waiting? ==> pc.conn in s'.refs && pc.conn !in s'.slots.Values)
    {
      var pc := s'.threads[u];
      if u != t && pc.Found? {
        assert s.threads[u] == pc;
        var i :| i in s.slots && s.slots[i] == pc.conn;
        assert !Writes(s.threads[t]);
        assert s'.slots[i] == pc.conn;
      }
    }
  }

  lemma {:induction false} ReturnStep(s: State, t: nat, a: Action)
    requires Inv(s) && Enabled(s, t, a)
    ensures ReturnInv(Step(s, t, a))
  {
    hide LockInv, SlotInv, PcInv, Held, NoWriter, NobodyInside;
  }

  /** What a step does to the count and the holdings of one connection. */
  lemma {:induction false} CountStep(s: State, t: nat, a: Action, c: nat)
    requires Inv(s) && Enabled(s, t, a) && c in Step(s, t, a).refs
    ensures var s' := Step(s, t, a);
            && |s'.held| == |s.held| && s'.held == s.held[t := s'.held[t]]
            && s'.refs[c] + s.held[t][c] == (if c in s.refs then s.refs[c] else 0) + s'.held[t][c]
            && (c !in s.refs ==> forall u :: 0 <= u < |s.held| ==> c !in s.held[u])
  {
    hide LockInv, PcInv, SlotInv, NoWriter, NobodyInside, Held;
  }

  /** What is held stays allocated. */
  lemma {:induction false} HeldStep(s: State, t: nat, a: Action, u: nat, c: nat)
    requires Inv(s) && Enabled(s, t, a) && u < |Step(s, t, a).held| && c in Step(s, t, a).held[u]
    ensures c in Step(s, t, a).refs
  {
    hide LockInv, PcInv, SlotInv, ReturnInv, NoWriter, NobodyInside, Held;
    HeldBound(s.held, u, c);
  }

  lemma {:induction false} RefStep(s: State, t: nat, a: Action)
    requires Inv(s) && Enabled(s, t, a)
    ensures RefInv(Step(s, t, a))
  {
    var s' := Step(s, t, a);
    SameThreads(s, t, a);
    forall c | c in s'.refs
      ensures s'.refs[c] == Held(s'.held, c)
    {
      hide LockInv, PcInv, SlotInv, ReturnInv, Step, Enabled, Held;
      CountStep(s, t, a, c);
      HeldUpdate(s.held, t, s'.held[t], c);
      if c !in s.refs {
        HeldNone(s.held, c);
      }
    }
    hide LockInv, PcInv, SlotInv, RefInv, ReturnInv, Step, Enabled;
    forall u, c | 0 <= u < |s'.held| && c in s'.held[u]
      ensures c in s'.refs
    {
      HeldStep(s, t, a, u, c);
    }
    RefsAdd(s');
  }

  lemma {:induction false} SameThreads(s: State, t: nat, a: Action)
    requires Inv(s) && Enabled(s, t, a)
    ensures |Step(s, t, a).held| == |Step(s, t, a).threads| == |s.threads|
  {
  }

  lemma {:induction false} RefsAdd(s: State)
    requires |s.held| == |s.threads| && forall c :: c in s.refs ==> s.refs[c] == Held(s.held, c)
    requires forall t, c :: 0 <= t < |s.held| && c in s.held[t] ==> c in s.refs
    ensures RefInv(s)
  {
  }

  ghost predicate IsRun(run: seq<State>, n: nat) {
    && run != [] && run[0] == Init(n)
    && forall k :: 0 <= k < |run| - 1 ==> StepsTo(run[k], run[k + 1])
  }

  ghost predicate StepsTo(s: State, s': State) {
    exists t: nat, a: Action :: Enabled(s, t, a) && s' == Step(s, t, a)
  }

  lemma {:induction false} RunInv(run: seq<State>, n: nat, k: nat)
    requires IsRun(run, n) && k < |run|
    ensures Inv(run[k])
    decreases k
  {
    hide Inv;
    if k == 0 {
      InitInv(n);
    } else {
      RunInv(run, n, k - 1);
      assert StepsTo(run[k - 1], run[k - 1 + 1]);
      var t: nat, a: Action :| Enabled(run[k - 1], t, a) && run[k] == Step(run[k - 1], t, a);
      StepInv(run[k - 1], t, a);
    }
  }

  lemma {:induction false} StepInv(s: State, t: nat, a: Action)
    requires Inv(s) && Enabled(s, t, a)
    ensures Inv(Step(s, t, a))
  {
    hide LockInv, SlotInv, PcInv, RefInv, ReturnInv, Step;
    ReturnStep(s, t, a);
    LockStep(s, t, a);
    SlotStep(s, t, a);
    PcStep(s, t, a);
    RefStep(s, t, a);
  }

  /** No use after free: in every state of every run, what a thread holds a reference to,
      what it is about to reference or return, and what the table names are allocated and
      not freed; and no step waits for anything but the lock and the count. */
  lemma {:induction false} NeverDangling(run: seq<State>, n: nat, k: nat)
    requires IsRun(run, n) && k < |run|
    ensures var s := run[k];
            && |s.held| == |s.threads|
            && (forall t, c :: 0 <= t < |s.held| && c in s.held[t] ==> c in s.refs && c !in s.freed && s.refs[c] > 0)
            && (forall t :: 0 <= t < |s.threads| && (s.threads[t].Found? || s.threads[t].Waiting?) ==>
                  s.threads[t].conn in s.refs && s.threads[t].conn !in s.freed)
            && (forall t :: 0 <= t < |s.threads| && s.threads[t].Removing? ==> s.threads[t].index in s.slots)
            && (forall t, c :: 0 <= t < |s.threads| && s.threads[t] == Leaving(Some(c)) ==> c in s.held[t])
            && (forall i :: i in s.slots ==> s.slots[i] in s.refs && s.slots[i] !in s.freed)
  {
    RunInv(run, n, k);
    hide Held;
    var s := run[k];
    forall t, c | 0 <= t < |s.held| && c in s.held[t]
      ensures s.refs[c] > 0
    {
      HeldBound(s.held, t, c);
    }
  }

  /** A connection is freed only by its remover, when no thread holds a reference to it or
      is about to take one. */
  lemma {:induction false} FreedUnreferenced(run: seq<State>, n: nat, k: nat, c: nat)
    requires IsRun(run, n) && k + 1 < |run| && c in run[k + 1].freed && c !in run[k].freed
    ensures var s := run[k];
            && (exists t :: 0 <= t < |s.threads| && s.threads[t] == Waiting(c))
            && (forall t :: 0 <= t < |s.held| ==> c !in s.held[t])
            && (forall t :: 0 <= t < |s.threads| ==> s.threads[t] != Found(c))
            && c !in s.slots.Values
  {
    RunInv(run, n, k);
    hide Held;
    var s := run[k];
    assert StepsTo(s, run[k + 1]);
    var t: nat, a: Action :| Enabled(s, t, a) && run[k + 1] == Step(s, t, a);
    assert a.Free? && s.threads[t] == Waiting(c);
    forall u | 0 <= u < |s.held|
      ensures c !in s.held[u]
    {
      HeldBound(s.held, u, c);
    }
  }

  /** Once freed, a connection stays out of the table and out of every thread's hands: a
      lookup never returns it again. */
  lemma {:induction false} NeverReturned(run: seq<State>, n: nat, k: nat, m: nat, c: nat)
    requires IsRun(run, n) && k <= m < |run| && c in run[k].freed
    ensures c in run[m].freed && c !in run[m].slots.Values
    ensures forall t :: 0 <= t < |run[m].threads| ==>
              run[m].threads[t] != Found(c) && (t < |run[m].held| ==> c !in run[m].held[t])
    decreases m - k
  {
    StaysFreed(run, n, k, m, c);
    NeverDangling(run, n, m);
  }

  lemma {:induction false} StaysFreed(run: seq<State>, n: nat, k: nat, m: nat, c: nat)
    requires IsRun(run, n) && k <= m < |run| && c in run[k].freed
    ensures c in run[m].freed
    decreases m - k
  {
    if k < m {
      StaysFreed(run, n, k, m - 1, c);
      assert StepsTo(run[m - 1], run[m - 1 + 1]);
    }
  }

  /** A remover waits for references only: it can free exactly when nobody holds one, and
      each reference dropped brings the count down. */
  lemma {:induction false} WaitsForHolders(run: seq<State>, n: nat, k: nat, t: nat)
    requires IsRun(run, n) && k < |run| && t < |run[k].threads| && run[k].threads[t].Waiting?
    ensures var s := run[k];
            var c := s.threads[t].conn;
            && |s.held| == |s.threads| && c in s.refs
            && (Enabled(s, t, Free) <==> forall u :: 0 <= u < |s.held| ==> c !in s.held[u])
            && (forall u: nat :: u < |s.held| && c in s.held[u] && s.threads[u].Outside? ==>
                  Enabled(s, u, Unref(c)) && Step(s, u, Unref(c)).refs[c] + 1 == s.refs[c])
  {
    RunInv(run, n, k);
    hide Held;
    var s := run[k];
    var c := s.threads[t].conn;
    forall u | 0 <= u < |s.held|
      ensures s.held[u][c] <= s.refs[c]
    {
      HeldBound(s.held, u, c);
    }
    if forall u :: 0 <= u < |s.held| ==> c !in s.held[u] {
      HeldNone(s.held, c);
    }
  }

  /** A connection that has existed and is not referable stays so. */
  ghost predicate ClosedFor(s: State, c: nat) {
    (c in s.refs || c in s.freed) && c !in s.refable
  }

  lemma {:induction false} ClosedStep(s: State, s': State, c: nat)
    requires StepsTo(s, s') && ClosedFor(s, c)
    ensures ClosedFor(s', c) && |s'.threads| == |s.threads|
    ensures forall u :: 0 <= u < |s.threads| && s.threads[u] != Found(c) ==> s'.threads[u] != Found(c)
  {
    hide NoWriter, NobodyInside;
  }

  /** Once a connection is closing, no lookup finds it: a thread that had not found it
      before never does. */
  lemma {:induction false} ClosingNotFound(run: seq<State>, n: nat, k: nat, m: nat, t: nat, c: nat)
    requires IsRun(run, n) && k <= m < |run| && ClosedFor(run[k], c)
    requires t < |run[k].threads| && run[k].threads[t] != Found(c)
    ensures t < |run[m].threads| && run[m].threads[t] != Found(c) && ClosedFor(run[m], c)
    decreases m - k
  {
    hide StepsTo, ClosedFor;
    if k < m {
      ClosingNotFound(run, n, k, m - 1, t, c);
      assert StepsTo(run[m - 1], run[m - 1 + 1]);
      ClosedStep(run[m - 1], run[m], c);
    }
  }

  /* ---------- when a remover gets through ---------- */

  datatype Move = Move(thread: nat, action: Action)

  predicate AllMoves(s: State, moves: seq<Move>)
    decreases |moves|
  {
    moves == [] ||
    (Enabled(s, moves[0].thread, moves[0].action) && AllMoves(Step(s, moves[0].thread, moves[0].action), moves[1..]))
  }

  function After(s: State, moves: seq<Move>): State
    requires AllMoves(s, moves)
    decreases |moves|
  {
    if moves == [] then s else After(Step(s, moves[0].thread, moves[0].action), moves[1..])
  }

  /** Some continuation lets thread `t` free its connection. */
  ghost predicate CanProceed(s: State, t: nat) {
    exists moves :: AllMoves(s, moves) && Enabled(After(s, moves), t, Free)
  }

  /** Every holder of a reference is outside the lock, where it can drop it. */
  predicate HoldersOutside(s: State, c: nat) {
    |s.held| == |s.threads| && forall u :: 0 <= u < |s.threads| && c in s.held[u] ==> s.threads[u].Outside?
  }

  /** A waiting remover gets through if and only if no thread that holds a reference is
      itself waiting for the lock: such a thread, or the remover with a reference of its
      own, stops it for ever. */
  lemma {:induction false} ProceedExact(run: seq<State>, n: nat, k: nat, t: nat)
    requires IsRun(run, n) && k < |run| && t < |run[k].threads| && run[k].threads[t].Waiting?
    ensures CanProceed(run[k], t) <==> HoldersOutside(run[k], run[k].threads[t].conn)
  {
    RunInv(run, n, k);
    hide AllMoves, After, Enabled, Held;
    var s := run[k];
    var c := s.threads[t].conn;
    if HoldersOutside(s, c) {
      Proceeds(s, t, c);
    } else {
      var u :| 0 <= u < |s.threads| && c in s.held[u] && !s.threads[u].Outside?;
      forall moves | AllMoves(s, moves)
        ensures !Enabled(After(s, moves), t, Free)
      {
        StaysStuck(s, t, u, c, moves);
      }
    }
  }

  ghost predicate Stuck(s: State, t: nat, u: nat, c: nat) {
    && Inv(s) && t < |s.threads| && u < |s.threads| && s.threads[t] == Waiting(c)
    && c in s.held[u] && !s.threads[u].Outside?
  }

  lemma {:induction false} StuckStep(s: State, t: nat, u: nat, c: nat, v: nat, a: Action)
    requires Stuck(s, t, u, c)
    ensures !Enabled(s, t, Free)
    ensures Enabled(s, v, a) ==> Stuck(Step(s, v, a), t, u, c)
  {
    hide Held;
    HeldBound(s.held, u, c);
    if Enabled(s, v, a) {
      StepInv(s, v, a);
      hide SlotInv, PcInv, RefInv, ReturnInv;
      assert Writes(s.threads[t]);
    }
  }

  lemma {:induction false} StaysStuck(s: State, t: nat, u: nat, c: nat, moves: seq<Move>)
    requires Stuck(s, t, u, c) && AllMoves(s, moves)
    ensures !Enabled(After(s, moves), t, Free)
    decreases |moves|
  {
    hide Stuck, Enabled, Step;
    if moves == [] {
      StuckStep(s, t, u, c, t, Free);
    } else {
      StuckStep(s, t, u, c, moves[0].thread, moves[0].action);
      StaysStuck(Step(s, moves[0].thread, moves[0].action), t, u, c, moves[1..]);
    }
  }

  lemma {:induction false} Proceeds(s: State, t: nat, c: nat)
    requires Inv(s) && t < |s.threads| && s.threads[t] == Waiting(c) && HoldersOutside(s, c)
    ensures CanProceed(s, t)
    decreases if c in s.refs then s.refs[c] else 0
  {
    hide Held, LockInv, SlotInv, ReturnInv, AllMoves, After;
    if s.refs[c] == 0 {
      NoMoves(s);
      assert Enabled(After(s, []), t, Free);
    } else {
      var u := HeldWitness(s.held, c);
      var s' := Step(s, u, Unref(c));
      StepInv(s, u, Unref(c));
      Proceeds(s', t, c);
      var rest :| AllMoves(s', rest) && Enabled(After(s', rest), t, Free);
      OneMove(s, Move(u, Unref(c)), rest);
    }
  }

  lemma {:induction false} NoMoves(s: State)
    ensures AllMoves(s, []) && After(s, []) == s
  {
  }

  lemma {:induction false} OneMove(s: State, move: Move, rest: seq<Move>)
    requires Enabled(s, move.thread, move.action) && AllMoves(Step(s, move.thread, move.action), rest)
    ensures AllMoves(s, [move] + rest)
    ensures After(s, [move] + rest) == After(Step(s, move.thread, move.action), rest)
  {
    hide Enabled, Step;
    assert ([move] + rest)[1..] == rest;
  }
}
