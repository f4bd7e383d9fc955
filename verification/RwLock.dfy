/** The readers/writer lock of `conn.c`, built from two mutexes and a counter, as a
    system of interleaved steps of any number of threads. A mutex is a binary semaphore:
    the last reader may unlock what the first one locked. */
module RwLock {
  import opened Counting

  /** Where a thread stands; each arrow out of a place is one step. */
  datatype Pc =
    | Outside
    | ReadEnter      // about to lock mx_reader
    | ReadCount      // about to do ++readers
    | ReadFirst      // first reader, about to lock mx_writer
    | ReadEntered    // about to unlock mx_reader
    | Reading
    | ReadLeave      // about to lock mx_reader
    | ReadUncount    // about to do --readers
    | ReadLast       // last reader, about to unlock mx_writer
    | ReadLeft       // about to unlock mx_reader
    | WriteEnter     // about to lock mx_writer
    | Writing

  datatype State = State(threads: seq<Pc>, readers: nat, readerMutex: bool, writerMutex: bool)

  /** What an idle thread asks for. */
  datatype Choice = Read | Write

  function Init(n: nat): State {
    State(seq(n, _ => Outside), 0, false, false)
  }

  predicate Enabled(s: State, t: nat) {
    t < |s.threads| &&
    match s.threads[t]
    case ReadEnter => !s.readerMutex
    case ReadLeave => !s.readerMutex
    case ReadFirst => !s.writerMutex
    case WriteEnter => !s.writerMutex
    case ReadUncount => s.readers > 0
    case _ => true
  }

  /** One step of thread `t`. */
  function Step(s: State, t: nat, c: Choice): State
    requires Enabled(s, t)
  {
    match s.threads[t]
    case Outside => Go(s, t, if c.Read? then ReadEnter else WriteEnter)
    case ReadEnter => Go(s, t, ReadCount).(readerMutex := true)
    case ReadCount => Go(s, t, if s.readers + 1 == 1 then ReadFirst else ReadEntered).(readers := s.readers + 1)
    case ReadFirst => Go(s, t, ReadEntered).(writerMutex := true)
    case ReadEntered => Go(s, t, Reading).(readerMutex := false)
    case Reading => Go(s, t, ReadLeave)
    case ReadLeave => Go(s, t, ReadUncount).(readerMutex := true)
    case ReadUncount => Go(s, t, if s.readers - 1 == 0 then ReadLast else ReadLeft).(readers := s.readers - 1)
    case ReadLast => Go(s, t, ReadLeft).(writerMutex := false)
    case ReadLeft => Go(s, t, Outside).(readerMutex := false)
    case WriteEnter => Go(s, t, Writing).(writerMutex := true)
    case Writing => Go(s, t, Outside).(writerMutex := false)
  }

  function Go(s: State, t: nat, pc: Pc): State
    requires t < |s.threads|
  {
    s.(threads := s.threads[t := pc])
  }

  /** Inside the section `mx_reader` guards. */
  predicate HoldsReaderMutex(pc: Pc) {
    pc.ReadCount? || pc.ReadFirst? || pc.ReadEntered? || pc.ReadUncount? || pc.ReadLast? || pc.ReadLeft?
  }

  /** Counted in `readers`. */
  predicate Counted(pc: Pc) {
    pc.ReadFirst? || pc.ReadEntered? || pc.Reading? || pc.ReadLeave? || pc.ReadUncount?
  }

  predicate AtFirst(pc: Pc) { pc == ReadFirst }

  predicate AtLast(pc: Pc) { pc == ReadLast }

  predicate IsWriting(pc: Pc) { pc == Writing }

  /** The readers as a group own `mx_writer`: some are counted and the first of them has
      got it, or the last is just about to give it back. */
  ghost predicate ReadersOwn(s: State) {
    Count(s.threads, AtLast) > 0 || (s.readers > 0 && Count(s.threads, AtFirst) == 0)
  }

  ghost function One(b: bool): nat { if b then 1 else 0 }

  ghost predicate Inv(s: State) {
    && Count(s.threads, HoldsReaderMutex) == One(s.readerMutex)
    && Count(s.threads, Counted) == s.readers
    && Count(s.threads, IsWriting) + One(ReadersOwn(s)) == One(s.writerMutex)
    && (Count(s.threads, AtFirst) > 0 ==> s.readers == 1)
    && (Count(s.threads, AtLast) > 0 ==> s.readers == 0)
  }

  lemma {:induction false} InitInv(n: nat)
    ensures Inv(Init(n))
  {
    var ts := Init(n).threads;
    CountNone(ts, HoldsReaderMutex);
    CountNone(ts, Counted);
    CountNone(ts, AtFirst);
    CountNone(ts, AtLast);
    CountNone(ts, IsWriting);
  }

  /** How a step changes the counts of one condition. */
  ghost predicate Moves(s: State, t: nat, s': State, p: Pc -> bool)
    requires t < |s.threads| == |s'.threads|
  {
    Count(s'.threads, p) + (if p(s.threads[t]) then 1 else 0) == Count(s.threads, p) + (if p(s'.threads[t]) then 1 else 0)
  }

  lemma {:induction false} Tallies(s: State, t: nat, c: Choice)
    requires Inv(s) && Enabled(s, t)
    ensures var s' := Step(s, t, c);
            && |s'.threads| == |s.threads|
            && Moves(s, t, s', HoldsReaderMutex) && Moves(s, t, s', Counted)
            && Moves(s, t, s', AtFirst) && Moves(s, t, s', AtLast) && Moves(s, t, s', IsWriting)
    ensures Count(s.threads, AtFirst) <= Count(s.threads, HoldsReaderMutex)
    ensures Count(s.threads, AtLast) <= Count(s.threads, HoldsReaderMutex)
  {
    hide Count, Inv, Counted, HoldsReaderMutex;
    var ts, pc := s.threads, Step(s, t, c).threads[t];
    assert Step(s, t, c).threads == ts[t := pc];
    CountUpdate(ts, t, pc, HoldsReaderMutex);
    CountUpdate(ts, t, pc, Counted);
    CountUpdate(ts, t, pc, AtFirst);
    CountUpdate(ts, t, pc, AtLast);
    CountUpdate(ts, t, pc, IsWriting);
    FirstAndLastHold(s);
  }

  lemma {:induction false} FirstAndLastHold(s: State)
    ensures Count(s.threads, AtFirst) <= Count(s.threads, HoldsReaderMutex)
    ensures Count(s.threads, AtLast) <= Count(s.threads, HoldsReaderMutex)
  {
    hide Count;
    CountLe(s.threads, AtFirst, HoldsReaderMutex);
    CountLe(s.threads, AtLast, HoldsReaderMutex);
  }

  /** Every step of every thread keeps the invariant. */
  lemma {:induction false} StepInv(s: State, t: nat, c: Choice)
    requires Inv(s) && Enabled(s, t)
    ensures Inv(Step(s, t, c))
  {
    hide Count;
    Tallies(s, t, c);
    HeldMembers(s, t);
    if HoldsReaderMutex(s.threads[t]) {
      InsideInv(s, t, c);
    }
  }

  lemma {:induction false} InsideInv(s: State, t: nat, c: Choice)
    requires Inv(s) && Enabled(s, t) && HoldsReaderMutex(s.threads[t])
    ensures Inv(Step(s, t, c))
  {
    hide Count;
    Tallies(s, t, c);
    HeldMembers(s, t);
    Alone(s, t);
  }

  /** Whoever holds `mx_reader` holds it alone. */
  lemma {:induction false} Alone(s: State, t: nat)
    requires Inv(s) && t < |s.threads| && HoldsReaderMutex(s.threads[t])
    ensures !AtFirst(s.threads[t]) ==> Count(s.threads, AtFirst) == 0
    ensures !AtLast(s.threads[t]) ==> Count(s.threads, AtLast) == 0
  {
    hide Count;
    if !AtFirst(s.threads[t]) && Count(s.threads, AtFirst) > 0 {
      var i := CountWitness(s.threads, AtFirst);
      CountTwo(s.threads, if i < t then i else t, if i < t then t else i, HoldsReaderMutex);
    }
    if !AtLast(s.threads[t]) && Count(s.threads, AtLast) > 0 {
      var i := CountWitness(s.threads, AtLast);
      CountTwo(s.threads, if i < t then i else t, if i < t then t else i, HoldsReaderMutex);
    }
  }

  /** A thread that stands somewhere is counted there. */
  lemma {:induction false} HeldMembers(s: State, t: nat)
    requires t < |s.threads|
    ensures HoldsReaderMutex(s.threads[t]) ==> Count(s.threads, HoldsReaderMutex) >= 1
    ensures Counted(s.threads[t]) ==> Count(s.threads, Counted) >= 1
    ensures AtFirst(s.threads[t]) ==> Count(s.threads, AtFirst) >= 1
    ensures AtLast(s.threads[t]) ==> Count(s.threads, AtLast) >= 1
    ensures IsWriting(s.threads[t]) ==> Count(s.threads, IsWriting) >= 1
  {
    hide Count;
    if HoldsReaderMutex(s.threads[t]) { CountMember(s.threads, t, HoldsReaderMutex); }
    if Counted(s.threads[t]) { CountMember(s.threads, t, Counted); }
    if AtFirst(s.threads[t]) { CountMember(s.threads, t, AtFirst); }
    if AtLast(s.threads[t]) { CountMember(s.threads, t, AtLast); }
    if IsWriting(s.threads[t]) { CountMember(s.threads, t, IsWriting); }
  }

  /** A run: states linked by steps of whichever thread is scheduled. */
  ghost predicate IsRun(run: seq<State>, n: nat) {
    && run != [] && run[0] == Init(n)
    && forall k :: 0 <= k < |run| - 1 ==> StepsTo(run[k], run[k + 1])
  }

  ghost predicate StepsTo(s: State, s': State) {
    exists t: nat, c: Choice :: Enabled(s, t) && s' == Step(s, t, c)
  }

  lemma {:induction false} RunInv(run: seq<State>, n: nat, k: nat)
    requires IsRun(run, n) && k < |run|
    ensures Inv(run[k])
    decreases k
  {
    if k == 0 {
      InitInv(n);
    } else {
      RunInv(run, n, k - 1);
      assert StepsTo(run[k - 1], run[k - 1 + 1]);
      var t: nat, c: Choice :| Enabled(run[k - 1], t) && run[k] == Step(run[k - 1], t, c);
      StepInv(run[k - 1], t, c);
    }
  }

  /** Mutual exclusion, in every state of every run: two threads are never inside with
      one of them writing, `readers` counts exactly the threads between its two updates,
      and `mx_writer` is held exactly while a writer is inside or the readers own it. */
  lemma {:induction false} MutualExclusion(run: seq<State>, n: nat, k: nat)
    requires IsRun(run, n) && k < |run|
    ensures var s := run[k];
            && (forall i, j :: 0 <= i < |s.threads| && 0 <= j < |s.threads| && i != j && s.threads[i] == Writing
                  ==> s.threads[j] != Writing && s.threads[j] != Reading)
            && s.readers == Count(s.threads, Counted)
            && (s.writerMutex <==> Count(s.threads, IsWriting) > 0 || ReadersOwn(s))
  {
    RunInv(run, n, k);
    hide Count;
    Exclusion(run[k]);
  }

  /** No second thread is inside beside a writer. */
  lemma {:induction false} Exclusion(s: State)
    requires Inv(s)
    ensures forall i, j :: 0 <= i < |s.threads| && 0 <= j < |s.threads| && i != j && s.threads[i] == Writing ==>
              s.threads[j] != Writing && s.threads[j] != Reading
  {
    hide Count;
    forall i, j | 0 <= i < |s.threads| && 0 <= j < |s.threads| && i != j && s.threads[i] == Writing
      ensures s.threads[j] != Writing && s.threads[j] != Reading
    {
      CountMember(s.threads, i, IsWriting);
      if s.threads[j] == Writing {
        CountTwo(s.threads, if i < j then i else j, if i < j then j else i, IsWriting);
      }
      if s.threads[j] == Reading {
        ReaderOwns(s, j);
      }
    }
  }

  /** A thread inside a read section means the readers own the writer mutex. */
  lemma {:induction false} ReaderOwns(s: State, j: nat)
    requires Inv(s) && j < |s.threads| && s.threads[j] == Reading
    ensures ReadersOwn(s)
  {
    hide Count;
    CountMember(s.threads, j, Counted);
    if Count(s.threads, AtFirst) > 0 {
      var i := CountWitness(s.threads, AtFirst);
      CountTwo(s.threads, if i < j then i else j, if i < j then j else i, Counted);
    }
  }

  /** What the lock grants: in every run a thread comes to read only when nobody writes,
      and to write only when nobody is inside. */
  lemma {:induction false} Grants(run: seq<State>, n: nat, k: nat, t: nat)
    requires IsRun(run, n) && k + 1 < |run| && t < |run[k].threads| == |run[k + 1].threads|
    ensures var s, s' := run[k], run[k + 1];
            && (s'.threads[t] == Reading && s.threads[t] != Reading ==>
                  forall u :: 0 <= u < |s.threads| ==> s.threads[u] != Writing)
            && (s'.threads[t] == Writing && s.threads[t] != Writing ==>
                  forall u :: 0 <= u < |s.threads| ==> s.threads[u] != Writing && s.threads[u] != Reading)
  {
    MutualExclusion(run, n, k + 1);
    hide Count, ReadersOwn, Step, Enabled;
    var s, s' := run[k], run[k + 1];
    assert StepsTo(s, s');
    var v: nat, c: Choice :| Enabled(s, v) && s' == Step(s, v, c);
    OneMoves(s, v, c);
    if t == v {
      forall u | 0 <= u < |s.threads| && u != v ensures s'.threads[u] == s.threads[u] {}
    }
  }

  lemma {:induction false} OneMoves(s: State, v: nat, c: Choice)
    requires Enabled(s, v)
    ensures var s' := Step(s, v, c);
            && |s'.threads| == |s.threads| && s'.threads == s.threads[v := s'.threads[v]]
            && (s'.threads[v] == Reading ==> s.threads[v] == ReadEntered)
            && (s'.threads[v] == Writing ==> s.threads[v] == WriteEnter)
  {
  }

  /** The first `m` of `n` threads inside to read, and nobody else about. */
  function Readers(n: nat, m: nat): State {
    State(seq(n, i => if i < m then Reading else Outside), m, false, m > 0)
  }

  /** Readers do not wait for each other: any number of threads get in to read together. */
  lemma {:induction false} ReadersTogether(n: nat, m: nat) returns (run: seq<State>)
    requires m <= n
    ensures IsRun(run, n) && run[|run| - 1] == Readers(n, m)
    decreases m
  {
    hide Step, Enabled, StepsTo, Readers;
    if m == 0 {
      run := [Init(n)];
      NoReaders(n);
    } else {
      var before := ReadersTogether(n, m - 1);
      var more := OneMoreReader(n, m - 1);
      run := before + more;
      forall k | 0 <= k < |run| - 1 ensures StepsTo(run[k], run[k + 1]) {
        if k >= |before| {
          assert run[k] == more[k - |before|] && run[k + 1] == more[k + 1 - |before|];
          assert StepsTo(more[k - |before|], more[k - |before| + 1]);
        }
      }
    }
  }

  lemma {:induction false} NoReaders(n: nat)
    ensures Readers(n, 0) == Init(n)
  {
  }

  /** The next thread asks to read and gets in without any step of the others. */
  lemma {:induction false} OneMoreReader(n: nat, m: nat) returns (more: seq<State>)
    requires m < n
    ensures more != [] && StepsTo(Readers(n, m), more[0]) && more[|more| - 1] == Readers(n, m + 1)
    ensures forall k :: 0 <= k < |more| - 1 ==> StepsTo(more[k], more[k + 1])
  {
    var s0 := Readers(n, m);
    var s1 := Step(s0, m, Read);
    var s2 := Step(s1, m, Read);
    var s3 := Step(s2, m, Read);
    assert Enabled(s0, m) && Enabled(s1, m) && Enabled(s2, m);
    assert StepsTo(s0, s1) && StepsTo(s1, s2) && StepsTo(s2, s3);
    if m == 0 {
      var s4 := Step(s3, m, Read);
      var s5 := Step(s4, m, Read);
      assert Enabled(s3, m) && Enabled(s4, m);
      assert StepsTo(s3, s4) && StepsTo(s4, s5);
      assert s5.threads == Readers(n, m + 1).threads;
      more := [s1, s2, s3, s4, s5];
    } else {
      var s4 := Step(s3, m, Read);
      assert Enabled(s3, m);
      assert StepsTo(s3, s4);
      assert s4.threads == Readers(n, m + 1).threads;
      more := [s1, s2, s3, s4];
    }
  }

  /** No deadlock: in every state of every run some thread can step. */
  lemma {:induction false} NoDeadlock(run: seq<State>, n: nat, k: nat)
    requires IsRun(run, n) && k < |run| && n > 0
    ensures exists t: nat :: Enabled(run[k], t)
  {
    hide Count;
    RunInv(run, n, k);
    RunThreads(run, n, k);
    var s := run[k];
    if s.readerMutex {
      var t := CountWitness(s.threads, HoldsReaderMutex);
      if s.threads[t] == ReadUncount {
        CountMember(s.threads, t, Counted);
      }
      if s.threads[t] == ReadFirst && s.writerMutex {
        CountMember(s.threads, t, AtFirst);
        var w := CountWitness(s.threads, IsWriting);
        assert Enabled(s, w);
      } else {
        assert Enabled(s, t);
      }
    } else if s.writerMutex {
      if ReadersOwn(s) {
        CountLe(s.threads, AtLast, HoldsReaderMutex);
        var t := CountWitness(s.threads, Counted);
        if HoldsReaderMutex(s.threads[t]) {
          CountMember(s.threads, t, HoldsReaderMutex);
        }
        assert Enabled(s, t);
      } else {
        var w := CountWitness(s.threads, IsWriting);
        assert Enabled(s, w);
      }
    } else {
      if s.threads[0] == ReadUncount {
        CountMember(s.threads, 0, HoldsReaderMutex);
      }
      assert Enabled(s, 0);
    }
  }

  lemma {:induction false} RunThreads(run: seq<State>, n: nat, k: nat)
    requires IsRun(run, n) && k < |run|
    ensures |run[k].threads| == n
    decreases k
  {
    if k > 0 {
      RunThreads(run, n, k - 1);
      assert StepsTo(run[k - 1], run[k - 1 + 1]);
    }
  }
}
