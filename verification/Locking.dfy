/** The lookups and removals of `conn.c` under the lock as it is built: each thread takes
    and gives up the lock by the steps of `RwLock`, and touches the table only while it is
    inside. Every such run is a run of `Lifetime`, which takes the lock as granted. */
module Locking {
  import L = RwLock
  import T = Lifetime

  datatype State = State(lock: L.State, life: T.State)

  /** A step on the two mutexes and the counter, or on the table and the counts. */
  datatype Action =
    | Lock
    | Touch(a: T.Action)

  function Init(n: nat): State {
    State(L.Init(n), T.Init(n))
  }

  function Side(wish: T.Wish): L.Choice {
    if wish.ToLook? || wish.ToClose? then L.Read else L.Write
  }

  /** Which step of the lock functions a thread may take: it asks for the lock it wants,
      and leaves when its section is over. */
  predicate LockEnabled(s: State, t: nat) {
    && L.Enabled(s.lock, t) && t < |s.life.threads|
    && (s.lock.threads[t].Outside? ==> s.life.threads[t].Blocked?)
    && (s.lock.threads[t].Reading? || s.lock.threads[t].Writing? ==> s.life.threads[t].Outside?)
  }

  /** What a thread finds in the table when it starts on its wish; nothing about the other
      threads. */
  predicate Fits(s: T.State, wish: T.Wish) {
    match wish
    case ToLook(_) => true
    case ToClose(_) => true
    case ToInsert(i, c) => i !in s.slots && c !in s.refs && c !in s.freed
    case ToRemove(i) => i in s.slots
  }

  predicate TouchEnabled(s: State, t: nat, a: T.Action) {
    && t < |s.lock.threads| && t < |s.life.threads| == |s.life.held|
    && match a
       case Ask(_) => s.lock.threads[t].Outside? && s.life.threads[t].Outside?
       case Unref(_) => s.lock.threads[t].Outside? && T.Enabled(s.life, t, a)
       case Enter =>
         && s.life.threads[t].Blocked? && Fits(s.life, s.life.threads[t].wish)
         && s.lock.threads[t] == (if Side(s.life.threads[t].wish).Read? then L.Reading else L.Writing)
       case _ => T.Enabled(s.life, t, a)
  }

  predicate Enabled(s: State, t: nat, a: Action) {
    match a
    case Lock => LockEnabled(s, t)
    case Touch(x) => TouchEnabled(s, t, x)
  }

  /** The lock's step carries the side the thread asks for. */
  function Choice(s: State, t: nat): L.Choice
    requires LockEnabled(s, t)
  {
    if s.life.threads[t].Blocked? then Side(s.life.threads[t].wish) else L.Read
  }

  function Touched(s: T.State, t: nat, a: T.Action): T.State
    requires t < |s.threads| && (a.Ask? || a.Enter? || T.Enabled(s, t, a)) && (a.Enter? ==> s.threads[t].Blocked?)
  {
    match a
    case Ask(wish) => T.Go(s, t, T.Blocked(wish))
    case Enter => T.EnterLock(s, t, s.threads[t].wish)
    case _ => T.Step(s, t, a)
  }

  function Step(s: State, t: nat, a: Action): State
    requires Enabled(s, t, a)
  {
    match a
    case Lock => s.(lock := L.Step(s.lock, t, Choice(s, t)))
    case Touch(x) => s.(life := Touched(s.life, t, x))
  }

  /** A thread that works on the table as a reader or as a writer has the lock as one. */
  ghost predicate Inside(s: State) {
    && |s.lock.threads| == |s.life.threads| == |s.life.held|
    && forall t :: 0 <= t < |s.life.threads| ==>
         && (T.Writes(s.life.threads[t]) ==> s.lock.threads[t].Writing?)
         && (!T.Away(s.life.threads[t]) && !T.Writes(s.life.threads[t]) ==> s.lock.threads[t].Reading?)
  }

  ghost predicate Inv(s: State) {
    L.Inv(s.lock) && Inside(s)
  }

  lemma {:induction false} InitInv(n: nat)
    ensures Inv(Init(n))
  {
    L.InitInv(n);
    hide L.Inv;
  }

  /** Who starts inside has the lock, so the lock's guarantee is the guard of `Lifetime`. */
  lemma {:induction false} LockGuards(s: State, t: nat)
    requires Inv(s) && t < |s.life.threads|
    ensures s.lock.threads[t].Reading? ==> T.NoWriter(s.life)
    ensures s.lock.threads[t].Writing? && T.Away(s.life.threads[t]) ==> T.NobodyInside(s.life)
  {
    L.Exclusion(s.lock);
    hide L.Inv;
  }

  /** Each step is a step of `Lifetime` or none, and keeps the invariant. */
  lemma {:induction false} StepRefines(s: State, t: nat, a: Action)
    requires Inv(s) && Enabled(s, t, a)
    ensures Inv(Step(s, t, a))
    ensures match a
            case Lock => Step(s, t, a).life == s.life
            case Touch(x) => T.Enabled(s.life, t, x) && Step(s, t, a).life == T.Step(s.life, t, x)
  {
    hide L.Inv;
    match a
    case Lock => L.StepInv(s.lock, t, Choice(s, t));
    case Touch(x) => LockGuards(s, t);
  }

  ghost predicate IsRun(run: seq<State>, n: nat) {
    && run != [] && run[0] == Init(n)
    && forall k :: 0 <= k < |run| - 1 ==> StepsTo(run[k], run[k + 1])
  }

  ghost predicate StepsTo(s: State, s': State) {
    exists t: nat, a: Action :: Enabled(s, t, a) && s' == Step(s, t, a)
  }

  /** Refinement: what the threads do to the table and the counts under the lock's own
      steps, in any run, they do in a run of `Lifetime`. */
  lemma {:induction false} Refines(run: seq<State>, n: nat, k: nat) returns (life: seq<T.State>)
    requires IsRun(run, n) && k < |run|
    ensures T.IsRun(life, n) && life[|life| - 1] == run[k].life
    ensures Inv(run[k])
    decreases k
  {
    hide Inv, Enabled, Step, T.Step, T.Enabled;
    if k == 0 {
      InitInv(n);
      life := [T.Init(n)];
    } else {
      life := Refines(run, n, k - 1);
      assert StepsTo(run[k - 1], run[k - 1 + 1]);
      var t: nat, a: Action :| Enabled(run[k - 1], t, a) && run[k] == Step(run[k - 1], t, a);
      StepRefines(run[k - 1], t, a);
      if a.Touch? {
        assert T.StepsTo(run[k - 1].life, run[k].life);
        life := life + [run[k].life];
      }
    }
  }

  /** So no use after free under the lock as it is built: what a thread references, is
      about to reference or can look up is allocated, and a thread about to free is alone
      inside. */
  lemma {:induction false} SafeUnderLock(run: seq<State>, n: nat, k: nat)
    requires IsRun(run, n) && k < |run|
    ensures var s := run[k].life;
            && |s.held| == |s.threads| == |run[k].lock.threads|
            && (forall t, c :: 0 <= t < |s.held| && c in s.held[t] ==> c in s.refs && c !in s.freed && s.refs[c] > 0)
            && (forall t :: 0 <= t < |s.threads| && (s.threads[t].Found? || s.threads[t].Waiting?) ==>
                  s.threads[t].conn in s.refs && s.threads[t].conn !in s.freed)
            && (forall i :: i in s.slots ==> s.slots[i] in s.refs && s.slots[i] !in s.freed)
            && (forall t, u :: 0 <= t < |s.threads| && 0 <= u < |s.threads| && t != u && s.threads[t].Waiting? ==>
                  !run[k].lock.threads[u].Reading? && !run[k].lock.threads[u].Writing?)
  {
    var life := Refines(run, n, k);
    T.NeverDangling(life, n, |life| - 1);
    L.Exclusion(run[k].lock);
    hide L.Inv, T.IsRun, IsRun;
  }
}
