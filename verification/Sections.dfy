/** The other direction: whatever `Lifetime` allows, the threads can do under the lock's own
    steps. A thread gets in by a few steps of its own when the others let it, and out again. */
module Sections {
  import opened Counting
  import L = RwLock
  import T = Lifetime
  import K = Locking

  /* ---------- in and out of the lock ---------- */

  predicate IsReading(pc: L.Pc) { pc.Reading? }

  /** Every thread is inside or outside, none on its way. */
  ghost predicate Calm(s: L.State) {
    && !s.readerMutex
    && (forall t :: 0 <= t < |s.threads| ==> s.threads[t].Outside? || s.threads[t].Reading? || s.threads[t].Writing?)
    && s.readers == Count(s.threads, IsReading)
    && (s.writerMutex <==> exists t :: 0 <= t < |s.threads| && !s.threads[t].Outside?)
  }

  /** States that thread `t` goes through by its own steps. */
  ghost predicate Path(states: seq<L.State>, t: nat, c: L.Choice) {
    && states != []
    && forall k :: 0 <= k < |states| - 1 ==> L.Enabled(states[k], t) && states[k + 1] == L.Step(states[k], t, c)
  }

  /** A thread gets in to read while nobody writes. */
  lemma {:induction false} ReadIn(s: L.State, t: nat) returns (path: seq<L.State>)
    requires Calm(s) && t < |s.threads| && s.threads[t].Outside?
    requires forall u :: 0 <= u < |s.threads| ==> !s.threads[u].Writing?
    ensures Path(path, t, L.Read) && path[0] == s
    ensures path[|path| - 1] == s.(threads := s.threads[t := L.Reading], readers := s.readers + 1, writerMutex := true)
    ensures forall k :: 0 <= k < |path| - 1 ==> t < |path[k].threads| && !path[k].threads[t].Reading? && !path[k].threads[t].Writing?
  {
    hide Count;
    NoReadersNoMutex(s);
    var s1 := L.Step(s, t, L.Read);
    var s2 := L.Step(s1, t, L.Read);
    var s3 := L.Step(s2, t, L.Read);
    var s4 := L.Step(s3, t, L.Read);
    if s.readers == 0 {
      var s5 := L.Step(s4, t, L.Read);
      assert s5.threads == s.threads[t := L.Reading];
      path := [s, s1, s2, s3, s4, s5];
    } else {
      assert s4.threads == s.threads[t := L.Reading];
      path := [s, s1, s2, s3, s4];
    }
  }

  lemma {:induction false} NoReadersNoMutex(s: L.State)
    requires Calm(s) && forall u :: 0 <= u < |s.threads| ==> !s.threads[u].Writing?
    ensures s.writerMutex <==> s.readers > 0
  {
    if s.writerMutex {
      var u :| 0 <= u < |s.threads| && !s.threads[u].Outside?;
      CountMember(s.threads, u, IsReading);
    }
    if s.readers > 0 {
      var u := CountWitness(s.threads, IsReading);
      assert !s.threads[u].Outside?;
    }
  }

  /** And out, whoever else reads. */
  lemma {:induction false} ReadOut(s: L.State, t: nat) returns (path: seq<L.State>)
    requires Calm(s) && t < |s.threads| && s.threads[t].Reading?
    ensures s.readers > 0
    ensures Path(path, t, L.Read) && path[0] == s
    ensures path[|path| - 1] ==
            s.(threads := s.threads[t := L.Outside], readers := s.readers - 1, writerMutex := s.writerMutex && s.readers > 1)
    ensures forall k :: 0 <= k < |path| - 1 ==> t < |path[k].threads| && !path[k].threads[t].Outside? && !path[k].threads[t].Writing?
  {
    CountMember(s.threads, t, IsReading);
    hide Count;
    var s1 := L.Step(s, t, L.Read);
    var s2 := L.Step(s1, t, L.Read);
    var s3 := L.Step(s2, t, L.Read);
    var s4 := L.Step(s3, t, L.Read);
    assert s.writerMutex;
    if s.readers == 1 {
      var s5 := L.Step(s4, t, L.Read);
      assert s5.threads == s.threads[t := L.Outside];
      path := [s, s1, s2, s3, s4, s5];
    } else {
      assert s4.threads == s.threads[t := L.Outside];
      path := [s, s1, s2, s3, s4];
    }
  }

  /** A thread gets in to write when nobody is inside, and out again. */
  lemma {:induction false} WriteIn(s: L.State, t: nat) returns (path: seq<L.State>)
    requires Calm(s) && t < |s.threads| && forall u :: 0 <= u < |s.threads| ==> s.threads[u].Outside?
    ensures Path(path, t, L.Write) && path[0] == s
    ensures path[|path| - 1] == s.(threads := s.threads[t := L.Writing], writerMutex := true)
    ensures forall k :: 0 <= k < |path| - 1 ==> t < |path[k].threads| && !path[k].threads[t].Reading? && !path[k].threads[t].Writing?
  {
    hide Count;
    var s1 := L.Step(s, t, L.Write);
    var s2 := L.Step(s1, t, L.Write);
    assert s2.threads == s.threads[t := L.Writing];
    path := [s, s1, s2];
  }

  lemma {:induction false} WriteOut(s: L.State, t: nat) returns (path: seq<L.State>)
    requires Calm(s) && t < |s.threads| && s.threads[t].Writing?
    ensures Path(path, t, L.Read) && path[0] == s
    ensures path[|path| - 1] == s.(threads := s.threads[t := L.Outside], writerMutex := false)
    ensures forall k :: 0 <= k < |path| - 1 ==> t < |path[k].threads| && !path[k].threads[t].Outside?
  {
    hide Count;
    path := [s, L.Step(s, t, L.Read)];
  }

  /* ---------- what the lock looks like between two steps of `Lifetime` ---------- */

  function Place(pc: T.Pc): L.Pc {
    if T.Away(pc) then L.Outside else if T.Writes(pc) then L.Writing else L.Reading
  }

  /** Whoever works on the table is inside, whoever does not is outside. */
  ghost predicate Matches(s: K.State) {
    && Calm(s.lock) && |s.lock.threads| == |s.life.threads| == |s.life.held|
    && forall t :: 0 <= t < |s.life.threads| ==> s.lock.threads[t] == Place(s.life.threads[t])
  }

  /** Steps of the lock alone. */
  ghost predicate Walk(states: seq<K.State>) {
    states != [] && forall k :: 0 <= k < |states| - 1 ==> K.StepsTo(states[k], states[k + 1])
  }

  function With(path: seq<L.State>, life: T.State): (r: seq<K.State>)
    ensures |r| == |path| && forall k :: 0 <= k < |path| ==> r[k] == K.State(path[k], life)
  {
    seq(|path|, k requires 0 <= k < |path| => K.State(path[k], life))
  }

  /** A thread that waits for the lock goes in by its own steps. */
  lemma {:induction false} GoesIn(path: seq<L.State>, t: nat, life: T.State)
    requires t < |life.threads| && life.threads[t].Blocked? && Path(path, t, K.Side(life.threads[t].wish))
    requires forall k :: 0 <= k < |path| - 1 ==> t < |path[k].threads| && !path[k].threads[t].Reading? && !path[k].threads[t].Writing?
    ensures Walk(With(path, life))
  {
    hide L.Step, L.Enabled;
    var states := With(path, life);
    forall k | 0 <= k < |states| - 1 ensures K.StepsTo(states[k], states[k + 1]) {
      assert L.Enabled(path[k], t) && path[k + 1] == L.Step(path[k], t, K.Side(life.threads[t].wish));
      LockStep(states[k], t);
    }
  }

  /** A thread that is done goes out. */
  lemma {:induction false} GoesOut(path: seq<L.State>, t: nat, life: T.State)
    requires t < |life.threads| && life.threads[t].Outside? && Path(path, t, L.Read)
    requires forall k :: 0 <= k < |path| - 1 ==> t < |path[k].threads| && !path[k].threads[t].Outside?
    ensures Walk(With(path, life))
  {
    hide L.Step, L.Enabled;
    var states := With(path, life);
    forall k | 0 <= k < |states| - 1 ensures K.StepsTo(states[k], states[k + 1]) {
      assert L.Enabled(path[k], t) && path[k + 1] == L.Step(path[k], t, L.Read);
      LockStep(states[k], t);
    }
  }

  lemma {:induction false} LockStep(s: K.State, t: nat)
    requires K.LockEnabled(s, t)
    ensures K.StepsTo(s, s.(lock := L.Step(s.lock, t, K.Choice(s, t))))
  {
    assert K.Enabled(s, t, K.Lock);
    hide L.Step, L.Enabled;
    assert K.Step(s, t, K.Lock) == s.(lock := L.Step(s.lock, t, K.Choice(s, t)));
  }

  lemma {:induction false} TouchStep(s: K.State, t: nat, a: T.Action)
    requires K.TouchEnabled(s, t, a)
    ensures K.StepsTo(s, s.(life := K.Touched(s.life, t, a)))
  {
    assert K.Enabled(s, t, K.Touch(a));
    hide T.Step, T.EnterLock;
    assert K.Step(s, t, K.Touch(a)) == s.(life := K.Touched(s.life, t, a));
  }

  lemma {:induction false} Joined(x: seq<K.State>, y: seq<K.State>)
    requires Walk(x) && Walk(y) && K.StepsTo(x[|x| - 1], y[0])
    ensures Walk(x + y)
  {
    hide K.StepsTo;
    var z := x + y;
    forall k | 0 <= k < |z| - 1 ensures K.StepsTo(z[k], z[k + 1]) {
      if k >= |x| { assert K.StepsTo(y[k - |x|], y[k - |x| + 1]); }
    }
  }

  lemma {:induction false} Continued(x: seq<K.State>, y: seq<K.State>)
    requires Walk(x) && Walk(y) && x[|x| - 1] == y[0]
    ensures Walk(x + y[1..])
  {
    hide K.StepsTo;
    var z := x + y[1..];
    forall k | 0 <= k < |z| - 1 ensures K.StepsTo(z[k], z[k + 1]) {
      if k >= |x| - 1 {
        assert z[k] == y[k - |x| + 1] && z[k + 1] == y[k - |x| + 2];
        assert K.StepsTo(y[k - |x| + 1], y[k - |x| + 1 + 1]);
      }
    }
  }

  /* ---------- calm again ---------- */

  lemma {:induction false} CalmAfter(s: L.State, t: nat, pc: L.Pc, s': L.State)
    requires Calm(s) && t < |s.threads| && !s'.readerMutex && s'.threads == s.threads[t := pc]
    requires pc.Outside? || pc.Reading? || pc.Writing?
    requires s'.readers == s.readers - (if s.threads[t].Reading? then 1 else 0) + (if pc.Reading? then 1 else 0)
    requires s'.writerMutex <==> !pc.Outside? || exists u :: 0 <= u < |s.threads| && u != t && !s.threads[u].Outside?
    ensures Calm(s')
  {
    CountUpdate(s.threads, t, pc, IsReading);
    hide Count;
    if s'.writerMutex && pc.Outside? {
      var u :| 0 <= u < |s.threads| && u != t && !s.threads[u].Outside?;
      assert s'.threads[u] == s.threads[u];
    }
    if !pc.Outside? { assert !s'.threads[t].Outside?; }
    if u :| 0 <= u < |s'.threads| && !s'.threads[u].Outside? {
      assert u == t || s'.threads[u] == s.threads[u];
    }
  }

  /** Others are inside to read exactly if `t` is not the only one counted. */
  lemma {:induction false} OtherReaders(s: L.State, t: nat)
    requires Calm(s) && t < |s.threads| && s.threads[t].Reading? && forall u :: 0 <= u < |s.threads| ==> !s.threads[u].Writing?
    ensures s.readers > 1 <==> exists u :: 0 <= u < |s.threads| && u != t && !s.threads[u].Outside?
  {
    var ts := s.threads[t := L.Outside];
    CountUpdate(s.threads, t, L.Outside, IsReading);
    hide Count;
    if Count(ts, IsReading) > 0 {
      var u := CountWitness(ts, IsReading);
      assert s.threads[u] == ts[u] && u != t;
    }
    if u :| 0 <= u < |s.threads| && u != t && !s.threads[u].Outside? {
      assert ts[u] == s.threads[u];
      CountMember(ts, u, IsReading);
    }
  }

  /** One thread at a time is inside beside a writer. */
  ghost predicate Exclusive(s: L.State) {
    forall t, u :: 0 <= t < |s.threads| && 0 <= u < |s.threads| && t != u && s.threads[t].Writing? ==> s.threads[u].Outside?
  }

  lemma {:induction false} LockInvExclusive(s: K.State)
    requires Matches(s) && T.LockInv(s.life)
    ensures Exclusive(s.lock)
  {
  }

  /** Out of a read section, with the lock calm behind. */
  lemma {:induction false} LeavesRead(s: K.State, t: nat) returns (walk: seq<K.State>)
    requires Calm(s.lock) && Exclusive(s.lock) && t < |s.lock.threads| == |s.life.threads|
    requires s.lock.threads[t].Reading? && s.life.threads[t].Outside?
    ensures Walk(walk) && walk[0] == s
    ensures var s' := walk[|walk| - 1];
            s'.life == s.life && Calm(s'.lock) && s'.lock.threads == s.lock.threads[t := L.Outside]
  {
    hide L.Step, L.Enabled;
    var path := ReadOut(s.lock, t);
    GoesOut(path, t, s.life);
    walk := With(path, s.life);
    OtherReaders(s.lock, t);
    CalmAfter(s.lock, t, L.Outside, path[|path| - 1]);
  }

  lemma {:induction false} LeavesWrite(s: K.State, t: nat) returns (walk: seq<K.State>)
    requires Calm(s.lock) && Exclusive(s.lock) && t < |s.lock.threads| == |s.life.threads|
    requires s.lock.threads[t].Writing? && s.life.threads[t].Outside?
    ensures Walk(walk) && walk[0] == s
    ensures var s' := walk[|walk| - 1];
            s'.life == s.life && Calm(s'.lock) && s'.lock.threads == s.lock.threads[t := L.Outside]
  {
    hide L.Step, L.Enabled;
    var path := WriteOut(s.lock, t);
    GoesOut(path, t, s.life);
    walk := With(path, s.life);
    CalmAfter(s.lock, t, L.Outside, path[|path| - 1]);
  }

  /** Into a section, to where the thread may touch the table. */
  lemma {:induction false} EntersSection(s: K.State, t: nat) returns (walk: seq<K.State>)
    requires Matches(s) && t < |s.life.threads| && s.life.threads[t].Blocked? && T.MayEnter(s.life, s.life.threads[t].wish)
    ensures Walk(walk) && walk[0] == s
    ensures var s' := walk[|walk| - 1];
            && s'.life == s.life && Calm(s'.lock)
            && s'.lock.threads == s.lock.threads[t := if K.Side(s.life.threads[t].wish).Read? then L.Reading else L.Writing]
  {
    hide L.Step, L.Enabled;
    var path;
    if K.Side(s.life.threads[t].wish).Read? {
      path := ReadIn(s.lock, t);
      CalmAfter(s.lock, t, L.Reading, path[|path| - 1]);
    } else {
      path := WriteIn(s.lock, t);
      CalmAfter(s.lock, t, L.Writing, path[|path| - 1]);
    }
    GoesIn(path, t, s.life);
    walk := With(path, s.life);
  }

  /* ---------- one step of `Lifetime` ---------- */

  /** The end of a section that leaves its thread outside. */
  lemma {:induction false} Leaves(s: K.State, t: nat) returns (walk: seq<K.State>)
    requires Calm(s.lock) && Exclusive(s.lock) && t < |s.lock.threads| == |s.life.threads| == |s.life.held|
    requires !s.lock.threads[t].Outside? && s.life.threads[t].Outside?
    requires forall u :: 0 <= u < |s.life.threads| && u != t ==> s.lock.threads[u] == Place(s.life.threads[u])
    ensures Walk(walk) && walk[0] == s && Matches(walk[|walk| - 1]) && walk[|walk| - 1].life == s.life
  {
    hide Walk;
    if s.lock.threads[t].Reading? {
      walk := LeavesRead(s, t);
    } else {
      walk := LeavesWrite(s, t);
    }
  }

  /** A step inside a section, or outside of any. */
  lemma {:induction false} StaysPut(s: K.State, t: nat, a: T.Action) returns (walk: seq<K.State>)
    requires Matches(s) && T.Enabled(s.life, t, a) && (a.Ask? || a.Look? || a.Ref? || a.Unref? || a.Clear?)
    ensures Walk(walk) && walk[0] == s && Matches(walk[|walk| - 1]) && walk[|walk| - 1].life == T.Step(s.life, t, a)
  {
    hide Calm;
    TouchStep(s, t, a);
    walk := [s, s.(life := T.Step(s.life, t, a))];
  }

  /** The last step of a section. */
  lemma {:induction false} Finishes(s: K.State, t: nat, a: T.Action) returns (walk: seq<K.State>)
    requires Matches(s) && T.LockInv(s.life) && T.Enabled(s.life, t, a) && (a.EndIndex? || a.Free?)
    ensures Walk(walk) && walk[0] == s && Matches(walk[|walk| - 1]) && walk[|walk| - 1].life == T.Step(s.life, t, a)
  {
    LockInvExclusive(s);
    hide Calm, Walk;
    TouchStep(s, t, a);
    var s1 := s.(life := T.Step(s.life, t, a));
    var rest := Leaves(s1, t);
    Single(s);
    Joined([s], rest);
    walk := [s] + rest;
  }

  lemma {:induction false} Single(s: K.State)
    ensures Walk([s])
  {
  }

  /** The first step of a section, which for a close and an insertion is all of it. */
  lemma {:induction false} Starts(s: K.State, t: nat) returns (walk: seq<K.State>)
    requires Matches(s) && T.LockInv(s.life) && T.Enabled(s.life, t, T.Enter)
    ensures Walk(walk) && walk[0] == s && Matches(walk[|walk| - 1]) && walk[|walk| - 1].life == T.Step(s.life, t, T.Enter)
  {
    LockInvExclusive(s);
    var wish := s.life.threads[t].wish;
    var into := EntersSection(s, t);
    hide Calm, Walk;
    var s1 := into[|into| - 1];
    TouchStep(s1, t, T.Enter);
    var s2 := s1.(life := T.Step(s.life, t, T.Enter));
    if wish.ToLook? || wish.ToRemove? {
      Single(s2);
      Joined(into, [s2]);
      walk := into + [s2];
    } else {
      AloneInside(s, t, s2.lock);
      var rest := Leaves(s2, t);
      Joined(into, rest);
      walk := into + rest;
    }
  }

  lemma {:induction false} AloneInside(s: K.State, t: nat, lock: L.State)
    requires Matches(s) && Exclusive(s.lock) && t < |s.life.threads| && s.life.threads[t].Blocked?
    requires T.MayEnter(s.life, s.life.threads[t].wish)
    requires lock.threads == s.lock.threads[t := if K.Side(s.life.threads[t].wish).Read? then L.Reading else L.Writing]
    ensures Exclusive(lock)
  {
  }

  /** Completeness: every run of `Lifetime` is what the threads do to the table in some run
      under the lock's own steps. */
  lemma {:induction false} Complete(life: seq<T.State>, n: nat) returns (run: seq<K.State>)
    requires T.IsRun(life, n)
    ensures K.IsRun(run, n) && Matches(run[|run| - 1]) && run[|run| - 1].life == life[|life| - 1]
    decreases |life|
  {
    hide Matches, T.Step, T.Enabled, K.StepsTo, T.LockInv;
    if |life| == 1 {
      run := [K.Init(n)];
      StartsCalm(n);
    } else {
      var front, k := life[..|life| - 1], |life| - 2;
      forall i | 0 <= i < |front| - 1 ensures T.StepsTo(front[i], front[i + 1]) { assert T.StepsTo(life[i], life[i + 1]); }
      var before := Complete(front, n);
      assert T.StepsTo(life[k], life[k + 1]);
      var t: nat, a: T.Action :| T.Enabled(life[k], t, a) && life[k + 1] == T.Step(life[k], t, a);
      RunLockInv(life, n, k);
      var s := before[|before| - 1];
      var walk := OneStep(s, t, a);
      RunWalk(before, n);
      Continued(before, walk);
      run := before + walk[1..];
      WalkRun(run, n);
    }
  }

  lemma {:induction false} RunLockInv(life: seq<T.State>, n: nat, k: nat)
    requires T.IsRun(life, n) && k < |life|
    ensures T.LockInv(life[k])
  {
    T.RunInv(life, n, k);
    hide T.LockInv, T.IsRun;
  }

  lemma {:induction false} OneStep(s: K.State, t: nat, a: T.Action) returns (walk: seq<K.State>)
    requires Matches(s) && T.LockInv(s.life) && T.Enabled(s.life, t, a)
    ensures Walk(walk) && walk[0] == s && Matches(walk[|walk| - 1]) && walk[|walk| - 1].life == T.Step(s.life, t, a)
  {
    hide Matches, T.LockInv, T.Step, T.Enabled, Walk;
    if a.Enter? {
      walk := Starts(s, t);
    } else if a.EndIndex? || a.Free? {
      walk := Finishes(s, t, a);
    } else {
      walk := StaysPut(s, t, a);
    }
  }

  lemma {:induction false} RunWalk(run: seq<K.State>, n: nat)
    requires K.IsRun(run, n)
    ensures Walk(run)
  {
    hide K.StepsTo;
  }

  lemma {:induction false} WalkRun(run: seq<K.State>, n: nat)
    requires Walk(run) && run[0] == K.Init(n)
    ensures K.IsRun(run, n)
  {
    hide K.StepsTo;
  }

  lemma {:induction false} StartsCalm(n: nat)
    ensures Matches(K.Init(n))
  {
    CountNone(L.Init(n).threads, IsReading);
  }
}
