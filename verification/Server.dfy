/** The server of `loop_event.c` as interleaved steps: one listen thread that accepts and
    inserts, workers that open, close and remove, and any thread that asks for a close. Each
    queue goes with a notification pipe; one switch turns accepting on and off. */
module Server {
  import A = Allocator

  /** Inserted and not yet handed over; in its worker's accept queue; being served. */
  datatype Phase = Fresh | Queued | Open

  /** `closing` is the negation of `refable`: a close has been asked for, and the connection
      is in its worker's close queue. */
  datatype Conn = Conn(index: nat, worker: nat, phase: Phase, closing: bool)

  /** A notification: a connection was queued to be opened, or to be closed. */
  datatype Byte = L | X

  /** `buffer` is what one call of the notify handler has read and not yet treated;
      `owesEnable` stands between `remove_conn` and writing `e`, `owesX` counts the threads
      between queueing a close and writing `x`. */
  datatype Worker = Worker(acceptQueue: seq<nat>, closeQueue: seq<nat>, pipe: seq<Byte>, buffer: seq<Byte>,
                           owesEnable: bool, owesX: nat)

  /** Where the listen thread stands. */
  datatype Listener =
    | Idle
    | Denying              // the limit was reached when checked
    | Admitting            // there was room when checked
    | Admitted(conn: nat)  // inserted, hooks to be asked
    | Rejecting(conn: nat) // a hook refused
    | Notifying(worker: nat) // queued, `l` not yet written
    | Draining(left: nat)  // that many `e` bytes read and not yet treated

  /** `enables` counts the `e` bytes in the listen pipe; `failed` records an assertion that
      did not hold or the removal of a connection that is not live. */
  datatype State = State(alloc: A.Alloc<nat>, conns: map<nat, Conn>, accepting: bool, enables: nat,
                         listener: Listener, workers: seq<Worker>, failed: bool)

  datatype Action =
    | Accept
    | Deny
    | Admit(conn: nat)
    | Hook(ok: bool)
    | Reject
    | Notify
    | ReadEnables(count: nat)
    | Enable
    | ReadPipe(worker: nat, count: nat)
    | Treat(worker: nat)
    | WriteEnable(worker: nat)
    | PeerClose(conn: nat)
    | SocketClose(conn: nat)
    | WriteX(worker: nat)

  const READ_SIZE: nat := 1024

  function Init(n: nat): State {
    State(A.Empty(), map[], true, 0, Idle, seq(n, _ => Worker([], [], [], [], false, 0)), false)
  }

  /** The worker is at rest in its event loop. */
  predicate Resting(w: Worker) { w.buffer == [] && !w.owesEnable }

  predicate Enabled(s: State, a: Action) {
    && !s.failed
    && match a
       case Accept => s.listener.Idle? && s.accepting
       case Deny => s.listener.Denying?
       case Admit(c) => s.listener.Admitting? && c !in s.conns && |s.workers| > 0
       case Hook(_) => s.listener.Admitted?
       case Reject => s.listener.Rejecting?
       case Notify => s.listener.Notifying?
       case ReadEnables(k) => s.listener.Idle? && 1 <= k <= s.enables && k <= READ_SIZE
       case Enable => s.listener.Draining? && s.listener.left > 0
       case ReadPipe(w, k) => w < |s.workers| && Resting(s.workers[w]) && 1 <= k <= |s.workers[w].pipe| && k <= READ_SIZE
       case Treat(w) => w < |s.workers| && s.workers[w].buffer != [] && !s.workers[w].owesEnable
       case WriteEnable(w) => w < |s.workers| && s.workers[w].owesEnable
       case PeerClose(c) =>
         && c in s.conns && s.conns[c].phase.Open? && !s.conns[c].closing
         && s.conns[c].worker < |s.workers| && Resting(s.workers[s.conns[c].worker])
       case SocketClose(c) => c in s.conns && !s.conns[c].closing && s.conns[c].worker < |s.workers|
       case WriteX(w) => w < |s.workers| && s.workers[w].owesX > 0
  }

  /** The `l` of a connection has been written: it is not still with the listen thread, nor
      queued with its notification to come. */
  predicate Written(s: State, c: nat) {
    && c in s.conns && s.conns[c].worker < |s.workers| && !s.conns[c].phase.Fresh?
    && var q := s.workers[s.conns[c].worker].acceptQueue;
       !(s.listener == Notifying(s.conns[c].worker) && q != [] && q[|q| - 1] == c)
  }

  /** A close is asked for only when the `l` has been written. */
  predicate Announced(s: State, a: Action) {
    a.SocketClose? ==> Written(s, a.conn)
  }

  function SetWorker(s: State, w: nat, k: Worker): State
    requires w < |s.workers|
  {
    s.(workers := s.workers[w := k])
  }

  function SetPhase(s: State, c: nat, p: Phase): State
    requires c in s.conns
  {
    s.(conns := s.conns[c := s.conns[c].(phase := p)])
  }

  function Fail(s: State): State { s.(failed := true) }

  /** `remove_conn`; asking for it twice is a failure. */
  function RemoveConn(s: State, c: nat): State {
    if c in s.conns && s.conns[c].index in s.alloc.table && s.alloc.connNum > 0 then
      s.(alloc := A.Remove(s.alloc, s.conns[c].index), conns := s.conns - {c})
    else
      Fail(s)
  }

  /** The listen thread's check of the live count. */
  function Check(s: State, maxclients: nat): State {
    s.(listener := if s.alloc.connNum >= maxclients then Denying else Admitting)
  }

  function AdmitConn(s: State, c: nat): State
    requires |s.workers| > 0
  {
    var index := A.NextIndex(s.alloc);
    s.(alloc := A.Insert(s.alloc, c), conns := s.conns[c := Conn(index, (index - 1) % |s.workers|, Fresh, false)],
       listener := Admitted(c))
  }

  function HandOver(s: State, c: nat): State {
    if c in s.conns && s.conns[c].worker < |s.workers| then
      var w := s.conns[c].worker;
      var k := s.workers[w];
      SetPhase(SetWorker(s, w, k.(acceptQueue := k.acceptQueue + [c])), c, Queued).(listener := Notifying(w))
    else
      Fail(s)
  }

  function NotifyWorker(s: State, w: nat): State {
    if w < |s.workers| then
      var k := s.workers[w];
      SetWorker(s, w, k.(pipe := k.pipe + [L])).(listener := Idle)
    else
      Fail(s)
  }

  /** A worker treats one notification byte; both assertions on the popped connection are
      checked. */
  function TreatByte(s: State, w: nat): State
    requires w < |s.workers| && s.workers[w].buffer != []
  {
    var k := s.workers[w];
    var rest := k.buffer[1..];
    if k.buffer[0].L? then
      if k.acceptQueue != [] && k.acceptQueue[0] in s.conns && s.conns[k.acceptQueue[0]].worker == w then
        SetPhase(SetWorker(s, w, k.(buffer := rest, acceptQueue := k.acceptQueue[1..])), k.acceptQueue[0], Open)
      else
        Fail(s)
    else
      if k.closeQueue != [] then
        RemoveConn(SetWorker(s, w, k.(buffer := rest, closeQueue := k.closeQueue[1..], owesEnable := true)), k.closeQueue[0])
      else
        Fail(s)
  }

  function Step(s: State, a: Action, maxclients: nat): State
    requires Enabled(s, a)
  {
    match a
    case Accept => Check(s, maxclients)
    case Deny => s.(accepting := false, listener := Idle)
    case Admit(c) => AdmitConn(s, c)
    case Hook(ok) => if ok then HandOver(s, s.listener.conn) else s.(listener := Rejecting(s.listener.conn))
    case Reject => RemoveConn(s, s.listener.conn).(listener := Idle)
    case Notify => NotifyWorker(s, s.listener.worker)
    case ReadEnables(k) => s.(enables := s.enables - k, listener := Draining(k))
    case Enable => s.(accepting := true, listener := if s.listener.left == 1 then Idle else Draining(s.listener.left - 1))
    case ReadPipe(w, k) =>
      SetWorker(s, w, s.workers[w].(buffer := s.workers[w].pipe[..k], pipe := s.workers[w].pipe[k..]))
    case Treat(w) => TreatByte(s, w)
    case WriteEnable(w) => SetWorker(s, w, s.workers[w].(owesEnable := false)).(enables := s.enables + 1)
    case PeerClose(c) => RemoveConn(SetWorker(s, s.conns[c].worker, s.workers[s.conns[c].worker].(owesEnable := true)), c)
    case SocketClose(c) =>
      var k := s.workers[s.conns[c].worker];
      SetWorker(s, s.conns[c].worker, k.(closeQueue := k.closeQueue + [c], owesX := k.owesX + 1)).(
        conns := s.conns[c := s.conns[c].(closing := true)])
    case WriteX(w) =>
      SetWorker(s, w, s.workers[w].(pipe := s.workers[w].pipe + [X], owesX := s.workers[w].owesX - 1))
  }

  /** Every index names its live connection, which belongs to the worker of that index. */
  ghost predicate TableInv(s: State) {
    && A.Inv(s.alloc) && |s.workers| > 0
    && (forall i :: i in s.alloc.table ==> s.alloc.table[i] in s.conns && s.conns[s.alloc.table[i]].index == i)
    && (forall c :: c in s.conns ==>
          var k := s.conns[c];
          k.index in s.alloc.table && s.alloc.table[k.index] == c && k.worker == (k.index - 1) % |s.workers|)
  }

  /** The listen thread is the only one that inserts, and accepts throughout. */
  ghost predicate ListenerInv(s: State, maxclients: nat) {
    && A.High(s.alloc) <= maxclients
    && (s.listener.Admitting? ==> s.alloc.connNum < maxclients)
    && (s.listener.Notifying? ==> s.listener.worker < |s.workers|)
    && (s.listener.Draining? ==> s.listener.left > 0)
    && (!s.listener.Idle? && !s.listener.Draining? ==> s.accepting)
  }

  predicate Distinct(q: seq<nat>) { forall i, j :: 0 <= i < j < |q| ==> q[i] != q[j] }

  predicate Handling(l: Listener, c: nat) { l == Admitted(c) || l == Rejecting(c) }

  /** A connection is in the queues its phase and flag say, once, and in no other worker's. */
  ghost predicate QueueInv(s: State) {
    && (forall w :: 0 <= w < |s.workers| ==> Distinct(s.workers[w].acceptQueue) && Distinct(s.workers[w].closeQueue))
    && (forall c, w :: 0 <= w < |s.workers| ==>
          (c in s.workers[w].acceptQueue <==> c in s.conns && s.conns[c].phase.Queued? && s.conns[c].worker == w))
    && (forall c, w :: 0 <= w < |s.workers| ==>
          (c in s.workers[w].closeQueue <==> c in s.conns && s.conns[c].closing && s.conns[c].worker == w))
    && (forall c :: Handling(s.listener, c) <==> c in s.conns && s.conns[c].phase.Fresh?)
    && (forall c :: c in s.conns && s.conns[c].phase.Fresh? ==> !s.conns[c].closing)
  }

  function Pending(w: Worker): seq<Byte> { w.buffer + w.pipe }

  /** How many `l` bytes come before `x` byte number `j`, all of them if there is none. */
  function LsBefore(bytes: seq<Byte>, j: nat): nat {
    if bytes == [] then 0
    else if bytes[0].L? then 1 + LsBefore(bytes[1..], j)
    else if j == 0 then 0
    else LsBefore(bytes[1..], j - 1)
  }

  /** Of a connection in both queues the `l` comes before the `x`. */
  ghost predicate Ordered(k: Worker) {
    forall i, j :: 0 <= i < |k.acceptQueue| && 0 <= j < |k.closeQueue| && k.acceptQueue[i] == k.closeQueue[j] ==>
      i < LsBefore(Pending(k), j)
  }

  ghost predicate OrderInv(s: State) {
    forall w :: 0 <= w < |s.workers| ==> Ordered(s.workers[w])
  }

  /** Each queue is as long as its notifications still to be treated or written. */
  ghost predicate Balanced(s: State, w: nat)
    requires w < |s.workers|
  {
    var k := s.workers[w];
    && |k.acceptQueue| == multiset(Pending(k))[L] + (if s.listener == Notifying(w) then 1 else 0)
    && |k.closeQueue| == multiset(Pending(k))[X] + k.owesX
  }

  ghost predicate BalanceInv(s: State) {
    forall w :: 0 <= w < |s.workers| ==> Balanced(s, w)
  }

  ghost predicate SomeOwes(s: State) {
    exists w :: 0 <= w < |s.workers| && s.workers[w].owesEnable
  }

  /** Accepting is off, or about to be, only while the table is full or the word that it
      is not is on its way. */
  ghost predicate WakeInv(s: State, maxclients: nat) {
    !s.accepting || s.listener.Denying? ==>
      s.alloc.connNum == maxclients || s.enables > 0 || s.listener.Draining? || SomeOwes(s)
  }

  ghost predicate Inv(s: State, maxclients: nat) {
    !s.failed && TableInv(s) && ListenerInv(s, maxclients) && QueueInv(s) && BalanceInv(s) && OrderInv(s) && WakeInv(s, maxclients)
  }

  lemma {:induction false} InitInv(n: nat, maxclients: nat)
    requires n > 0
    ensures Inv(Init(n), maxclients)
  {
    hide TableInv, ListenerInv, QueueInv, BalanceInv, LsBefore;
    InitEmpty(n, maxclients);
    InitBalance(n);
  }

  lemma {:induction false} InitEmpty(n: nat, maxclients: nat)
    requires n > 0
    ensures TableInv(Init(n)) && ListenerInv(Init(n), maxclients) && QueueInv(Init(n))
  {
  }

  lemma {:induction false} InitBalance(n: nat)
    ensures BalanceInv(Init(n))
  {
    forall w | 0 <= w < n
      ensures Balanced(Init(n), w)
    {
      assert Pending(Init(n).workers[w]) == [];
    }
  }

  /** What a removal leaves of the index table. */
  lemma {:induction false} RemoveTable(s: State, c: nat)
    requires TableInv(s) && c in s.conns
    ensures var s' := RemoveConn(s, c);
            && TableInv(s') && s'.failed == s.failed
            && s' == s.(alloc := s'.alloc, conns := s.conns - {c})
            && s'.alloc.connNum == s.alloc.connNum - 1 && A.High(s'.alloc) == A.High(s.alloc)
  {
    hide A.Inv, A.High;
    A.RemoveInv(s.alloc, s.conns[c].index);
  }

  /** What an insertion makes of it. */
  lemma {:induction false} AdmitTable(s: State, c: nat, maxclients: nat)
    requires TableInv(s) && ListenerInv(s, maxclients) && c !in s.conns && s.listener.Admitting?
    ensures TableInv(AdmitConn(s, c)) && AdmitConn(s, c).failed == s.failed
    ensures A.High(AdmitConn(s, c).alloc) <= maxclients
  {
    hide A.Inv, A.High;
    A.FreshIndex(s.alloc);
    A.InsertInv(s.alloc, c);
  }

  /** Steps that neither insert nor remove change phases only. */
  ghost predicate SameTable(s: State, s': State) {
    && s'.alloc == s.alloc && |s'.workers| == |s.workers| && s'.failed == s.failed && s'.conns.Keys == s.conns.Keys
    && forall c :: c in s.conns ==> s'.conns[c].index == s.conns[c].index && s'.conns[c].worker == s.conns[c].worker
  }

  lemma {:induction false} KeepTable(s: State, s': State)
    requires TableInv(s) && SameTable(s, s')
    ensures TableInv(s') && s'.failed == s.failed
  {
    hide A.Inv;
  }

  lemma {:induction false} TableStep(s: State, a: Action, maxclients: nat)
    requires TableInv(s) && ListenerInv(s, maxclients) && QueueInv(s) && BalanceInv(s) && Enabled(s, a)
    ensures TableInv(Step(s, a, maxclients)) && !Step(s, a, maxclients).failed
  {
    hide TableInv, QueueInv, BalanceInv, RemoveConn, AdmitConn, TreatByte, ListenerInv;
    match a
    case Admit(c) => AdmitTable(s, c, maxclients);
    case Treat(w) => TreatTable(s, w);
    case Reject =>
      HandledIsLive(s);
      RemoveTable(s, s.listener.conn);
      KeepTable(RemoveConn(s, s.listener.conn), Step(s, a, maxclients));
    case PeerClose(c) =>
      var s1 := SetWorker(s, s.conns[c].worker, s.workers[s.conns[c].worker].(owesEnable := true));
      KeepTable(s, s1);
      RemoveTable(s1, c);
    case Hook(ok) =>
      HandledIsLive(s);
      KeepTable(s, Step(s, a, maxclients));
    case Notify =>
      NotifiesWorker(s, maxclients);
      KeepTable(s, Step(s, a, maxclients));
    case _ => KeepTable(s, Step(s, a, maxclients));
  }

  lemma {:induction false} NotifiesWorker(s: State, maxclients: nat)
    requires ListenerInv(s, maxclients) && s.listener.Notifying?
    ensures s.listener.worker < |s.workers|
  {
  }

  lemma {:induction false} HandledIsLive(s: State)
    requires TableInv(s) && QueueInv(s) && (s.listener.Admitted? || s.listener.Rejecting?)
    ensures s.listener.conn in s.conns && s.conns[s.listener.conn].worker < |s.workers|
    ensures s.conns[s.listener.conn].phase.Fresh?
  {
    hide A.Inv;
    assert Handling(s.listener, s.listener.conn);
  }

  /** The byte a worker treats finds the connection it announces. */
  lemma {:induction false} TreatFinds(s: State, w: nat)
    requires TableInv(s) && QueueInv(s) && BalanceInv(s) && Enabled(s, Treat(w))
    ensures var k := s.workers[w];
            var q := if k.buffer[0].L? then k.acceptQueue else k.closeQueue;
            q != [] && q[0] in q && q[0] in s.conns && s.conns[q[0]].worker == w
            && (if k.buffer[0].L? then s.conns[q[0]].phase.Queued? else s.conns[q[0]].closing)
  {
    hide TableInv;
    var k := s.workers[w];
    assert Balanced(s, w);
    assert k.buffer[0] in Pending(k) && k.buffer[0] in multiset(Pending(k));
    var q := if k.buffer[0].L? then k.acceptQueue else k.closeQueue;
    assert q[0] in q;
  }

  lemma {:induction false} TreatTable(s: State, w: nat)
    requires TableInv(s) && QueueInv(s) && BalanceInv(s) && Enabled(s, Treat(w))
    ensures TableInv(TreatByte(s, w)) && !TreatByte(s, w).failed
  {
    hide TableInv, RemoveConn, QueueInv, BalanceInv;
    var k := s.workers[w];
    TreatFinds(s, w);
    if k.buffer[0].L? {
      KeepTable(s, TreatByte(s, w));
    } else {
      var s1 := SetWorker(s, w, k.(buffer := k.buffer[1..], closeQueue := k.closeQueue[1..], owesEnable := true));
      KeepTable(s, s1);
      RemoveTable(s1, k.closeQueue[0]);
    }
  }

  /** The connection a step removes, if it removes one. */
  ghost function Removes(s: State, a: Action): set<nat>
    requires Enabled(s, a)
  {
    match a
    case Reject => {s.listener.conn}
    case PeerClose(c) => {c}
    case Treat(w) =>
      if s.workers[w].buffer[0].X? && s.workers[w].closeQueue != [] then {s.workers[w].closeQueue[0]} else {}
    case _ => {}
  }

  /** How a step changes the live count, and the parts of the state no removal touches. */
  lemma {:induction false} LiveStep(s: State, a: Action, maxclients: nat)
    requires Inv(s, maxclients) && Enabled(s, a)
    ensures var s' := Step(s, a, maxclients);
            && s'.alloc.connNum == s.alloc.connNum + (if a.Admit? then 1 else 0) - |Removes(s, a)|
            && A.High(s'.alloc) <= maxclients
  {
    hide TableInv, QueueInv, BalanceInv, RemoveConn, TreatByte, A.High, A.Inv, WakeInv;
    match a
    case Admit(c) => AdmitTable(s, c, maxclients);
    case Reject =>
      HandledIsLive(s);
      RemoveTable(s, s.listener.conn);
    case PeerClose(c) =>
      var s1 := SetWorker(s, s.conns[c].worker, s.workers[s.conns[c].worker].(owesEnable := true));
      KeepTable(s, s1);
      RemoveTable(s1, c);
    case Treat(w) => TreatLive(s, w);
    case _ =>
  }

  lemma {:induction false} TreatLive(s: State, w: nat)
    requires TableInv(s) && QueueInv(s) && BalanceInv(s) && Enabled(s, Treat(w))
    ensures var s' := TreatByte(s, w);
            && s'.alloc.connNum == s.alloc.connNum - |Removes(s, Treat(w))|
            && A.High(s'.alloc) == A.High(s.alloc)
            && s'.listener == s.listener && s'.accepting == s.accepting && s'.enables == s.enables
            && |s'.workers| == |s.workers|
            && (s.workers[w].buffer[0].X? ==> s'.workers[w].owesEnable)
            && (forall v :: 0 <= v < |s.workers| && v != w ==> s'.workers[v] == s.workers[v])
  {
    hide TableInv, RemoveConn, QueueInv, BalanceInv, A.High;
    var k := s.workers[w];
    TreatFinds(s, w);
    if k.buffer[0].X? {
      var s1 := SetWorker(s, w, k.(buffer := k.buffer[1..], closeQueue := k.closeQueue[1..], owesEnable := true));
      KeepTable(s, s1);
      RemoveTable(s1, k.closeQueue[0]);
    }
  }

  lemma {:induction false} ListenerStep(s: State, a: Action, maxclients: nat)
    requires Inv(s, maxclients) && Enabled(s, a)
    ensures ListenerInv(Step(s, a, maxclients), maxclients)
  {
    hide TableInv, QueueInv, BalanceInv, WakeInv, A.High, A.Inv, A.Insert, A.Remove;
    LiveStep(s, a, maxclients);
    WorkersLive(s);
    if s.listener.Admitted? || s.listener.Rejecting? { HandledIsLive(s); }
  }

  lemma {:induction false} WorkersLive(s: State)
    requires TableInv(s)
    ensures s.alloc.connNum <= A.High(s.alloc)
  {
  }

  lemma {:induction false} WakeStep(s: State, a: Action, maxclients: nat)
    requires Inv(s, maxclients) && Enabled(s, a)
    ensures WakeInv(Step(s, a, maxclients), maxclients)
  {
    hide TableInv, QueueInv, BalanceInv, A.High, A.Inv, A.Insert, A.Remove, RemoveConn;
    var s' := Step(s, a, maxclients);
    LiveStep(s, a, maxclients);
    WorkersLive(s);
    if s.listener.Admitted? || s.listener.Rejecting? { HandledIsLive(s); }
    match a
    case Treat(w) =>
      hide TreatByte;
      TreatLive(s, w);
      if s.workers[w].buffer[0].X? {
        assert s'.workers[w].owesEnable;
      } else {
        TreatOther(s, w);
      }
    case PeerClose(c) =>
      var w := s.conns[c].worker;
      var s1 := SetWorker(s, w, s.workers[w].(owesEnable := true));
      KeepTable(s, s1);
      RemoveTable(s1, c);
      assert s'.workers[w].owesEnable;
    case Reject =>
      RemoveTable(s, s.listener.conn);
    case WriteEnable(w) =>
    case ReadEnables(k) =>
    case _ =>
      OwesKept(s, s');
  }

  /** Other steps leave what the workers owe. */
  lemma {:induction false} OwesKept(s: State, s': State)
    requires |s'.workers| == |s.workers|
    requires forall v :: 0 <= v < |s.workers| ==> s'.workers[v].owesEnable == s.workers[v].owesEnable
    ensures SomeOwes(s') == SomeOwes(s)
  {
    if SomeOwes(s) {
      var w :| 0 <= w < |s.workers| && s.workers[w].owesEnable;
      assert s'.workers[w].owesEnable;
    }
    if SomeOwes(s') {
      var w :| 0 <= w < |s'.workers| && s'.workers[w].owesEnable;
      assert s.workers[w].owesEnable;
    }
  }

  lemma {:induction false} TreatOther(s: State, w: nat)
    requires TableInv(s) && QueueInv(s) && BalanceInv(s) && Enabled(s, Treat(w)) && s.workers[w].buffer[0].L?
    ensures |TreatByte(s, w).workers| == |s.workers| && SomeOwes(TreatByte(s, w)) == SomeOwes(s)
  {
    hide TableInv, QueueInv, BalanceInv;
    TreatFinds(s, w);
    OwesKept(s, TreatByte(s, w));
  }

  /** A worker whose queues and notifications are as long as before. */
  ghost predicate SameLoad(s: State, s': State, w: nat)
    requires w < |s.workers| == |s'.workers|
  {
    var k, k' := s.workers[w], s'.workers[w];
    && k'.acceptQueue == k.acceptQueue && k'.closeQueue == k.closeQueue && k'.owesX == k.owesX
    && k'.buffer + k'.pipe == k.buffer + k.pipe
    && (s'.listener == Notifying(w) <==> s.listener == Notifying(w))
  }

  lemma {:induction false} KeepBalance(s: State, s': State, w: nat)
    requires w < |s.workers| == |s'.workers| && Balanced(s, w) && SameLoad(s, s', w)
    ensures Balanced(s', w)
  {
  }

  lemma {:induction false} BalanceStep(s: State, a: Action, maxclients: nat)
    requires Inv(s, maxclients) && Enabled(s, a)
    ensures BalanceInv(Step(s, a, maxclients))
  {
    hide Step, Balanced;
    SameWorkers(s, a, maxclients);
    forall w | 0 <= w < |s.workers|
      ensures Balanced(Step(s, a, maxclients), w)
    {
      BalanceAt(s, a, w, maxclients);
    }
  }

  lemma {:induction false} BalanceAt(s: State, a: Action, w: nat, maxclients: nat)
    requires Inv(s, maxclients) && Enabled(s, a) && w < |s.workers| && Balanced(s, w)
    ensures |Step(s, a, maxclients).workers| == |s.workers|
    ensures Balanced(Step(s, a, maxclients), w)
  {
    hide TableInv, QueueInv, WakeInv, BalanceInv, Balanced, A.Insert, A.Remove, RemoveConn, TreatByte;
    var s' := Step(s, a, maxclients);
    SameWorkers(s, a, maxclients);
    match a
    case Treat(v) => TreatBalance(s, v, w);
    case Reject =>
      HandledIsLive(s);
      RemoveTable(s, s.listener.conn);
      KeepBalance(s, s', w);
    case PeerClose(c) =>
      var s1 := SetWorker(s, s.conns[c].worker, s.workers[s.conns[c].worker].(owesEnable := true));
      KeepTable(s, s1);
      RemoveTable(s1, c);
      KeepBalance(s, s', w);
    case Notify => NotifyBalance(s, w, maxclients);
    case WriteX(v) => WriteXBalance(s, v, w, maxclients);
    case Hook(ok) => HookBalance(s, ok, w, maxclients);
    case SocketClose(c) => CloseBalance(s, c, w, maxclients);
    case ReadPipe(v, k) =>
      ReadBalance(s, v, k, w, maxclients);
    case _ => KeepBalance(s, s', w);
  }

  lemma {:induction false} ReadBalance(s: State, v: nat, n: nat, w: nat, maxclients: nat)
    requires w < |s.workers| && Balanced(s, w) && Enabled(s, ReadPipe(v, n))
    ensures var s' := Step(s, ReadPipe(v, n), maxclients); |s'.workers| == |s.workers| && Balanced(s', w)
  {
    hide Balanced;
    KeepBalance(s, Step(s, ReadPipe(v, n), maxclients), w);
  }

  lemma {:induction false} SameWorkers(s: State, a: Action, maxclients: nat)
    requires Inv(s, maxclients) && Enabled(s, a)
    ensures |Step(s, a, maxclients).workers| == |s.workers|
  {
    hide TableInv, QueueInv, WakeInv, BalanceInv, A.Insert, A.Remove;
    if a.Treat? { TreatLive(s, a.worker); }
  }

  lemma {:induction false} HookBalance(s: State, ok: bool, w: nat, maxclients: nat)
    requires TableInv(s) && QueueInv(s) && w < |s.workers| && Balanced(s, w) && Enabled(s, Hook(ok))
    ensures var s' := Step(s, Hook(ok), maxclients); |s'.workers| == |s.workers| && Balanced(s', w)
  {
    hide TableInv, QueueInv;
    HandledIsLive(s);
  }

  lemma {:induction false} CloseBalance(s: State, c: nat, w: nat, maxclients: nat)
    requires w < |s.workers| && Balanced(s, w) && Enabled(s, SocketClose(c))
    ensures var s' := Step(s, SocketClose(c), maxclients); |s'.workers| == |s.workers| && Balanced(s', w)
  {
  }

  lemma {:induction false} NotifyBalance(s: State, w: nat, maxclients: nat)
    requires w < |s.workers| && Balanced(s, w) && ListenerInv(s, maxclients) && Enabled(s, Notify)
    ensures var s' := NotifyWorker(s, s.listener.worker); |s'.workers| == |s.workers| && Balanced(s', w)
  {
    var k := s.workers[w];
    assert k.buffer + (k.pipe + [L]) == Pending(k) + [L];
  }

  lemma {:induction false} WriteXBalance(s: State, v: nat, w: nat, maxclients: nat)
    requires w < |s.workers| && Balanced(s, w) && Enabled(s, WriteX(v))
    ensures var s' := Step(s, WriteX(v), maxclients); |s'.workers| == |s.workers| && Balanced(s', w)
  {
    var k := s.workers[w];
    if w == v {
      assert k.buffer + (k.pipe + [X]) == Pending(k) + [X];
    } else {
      KeepBalance(s, Step(s, WriteX(v), maxclients), w);
    }
  }

  lemma {:induction false} TreatBalance(s: State, v: nat, w: nat)
    requires TableInv(s) && QueueInv(s) && BalanceInv(s) && Enabled(s, Treat(v)) && w < |s.workers|
    ensures |TreatByte(s, v).workers| == |s.workers| && Balanced(TreatByte(s, v), w)
  {
    assert Balanced(s, w);
    hide TableInv, QueueInv, BalanceInv, Balanced, RemoveConn;
    TreatFinds(s, v);
    var k := s.workers[v];
    if k.buffer[0].X? {
      var s1 := SetWorker(s, v, k.(buffer := k.buffer[1..], closeQueue := k.closeQueue[1..], owesEnable := true));
      KeepTable(s, s1);
      RemoveTable(s1, k.closeQueue[0]);
    }
    if v == w {
      PopBalance(s, TreatByte(s, v), w);
    } else {
      KeepBalance(s, TreatByte(s, v), w);
    }
  }

  /** A byte treated takes one entry off its queue. */
  lemma {:induction false} PopBalance(s: State, s': State, w: nat)
    requires w < |s.workers| == |s'.workers| && Balanced(s, w) && s'.listener == s.listener
    requires s.workers[w].buffer != []
    requires var k, k' := s.workers[w], s'.workers[w];
             && k'.buffer == k.buffer[1..] && k'.pipe == k.pipe && k'.owesX == k.owesX
             && |k'.acceptQueue| == |k.acceptQueue| - (if k.buffer[0].L? then 1 else 0)
             && |k'.closeQueue| == |k.closeQueue| - (if k.buffer[0].X? then 1 else 0)
    ensures Balanced(s', w)
  {
    var k := s.workers[w];
    assert Pending(k) == [k.buffer[0]] + Pending(s'.workers[w]);
  }

  /** Queue membership after an entry is pushed, and after the first one is popped. */
  lemma {:induction false} Pushed(q: seq<nat>, c: nat)
    requires Distinct(q) && c !in q
    ensures Distinct(q + [c])
    ensures forall d :: d in q + [c] <==> d in q || d == c
  {
  }

  lemma {:induction false} Popped(q: seq<nat>)
    requires Distinct(q) && q != []
    ensures Distinct(q[1..])
    ensures forall d :: d in q[1..] <==> d in q && d != q[0]
  {
    assert q == [q[0]] + q[1..];
  }

  /** Steps that leave phases, queues and the listener's connection alone. */
  ghost predicate SameQueues(s: State, s': State) {
    && |s'.workers| == |s.workers| && s'.conns == s.conns
    && (forall w :: 0 <= w < |s.workers| ==> s'.workers[w].acceptQueue == s.workers[w].acceptQueue
                                             && s'.workers[w].closeQueue == s.workers[w].closeQueue)
    && (forall c :: Handling(s'.listener, c) <==> Handling(s.listener, c))
  }

  lemma {:induction false} KeepQueues(s: State, s': State)
    requires QueueInv(s) && SameQueues(s, s')
    ensures QueueInv(s')
  {
    hide Distinct, Handling;
  }

  lemma {:induction false} QueueStep(s: State, a: Action, maxclients: nat)
    requires Inv(s, maxclients) && Enabled(s, a) && Announced(s, a)
    ensures QueueInv(Step(s, a, maxclients))
  {
    hide TableInv, QueueInv, WakeInv, BalanceInv, OrderInv, RemoveConn, TreatByte, HandOver, AdmitConn, Distinct;
    hide A.Insert, A.Remove;
    match a
    case Admit(c) => AdmitQueues(s, c);
    case Hook(ok) => HookQueues(s, ok, maxclients);
    case Reject => RejectQueues(s, maxclients);
    case Treat(w) => TreatQueues(s, w);
    case PeerClose(c) => PeerQueues(s, c, maxclients);
    case SocketClose(c) => CloseQueues(s, c, maxclients);
    case _ => KeepQueues(s, Step(s, a, maxclients));
  }

  lemma {:induction false} AdmitQueues(s: State, c: nat)
    requires QueueInv(s) && Enabled(s, Admit(c))
    ensures QueueInv(AdmitConn(s, c))
  {
    hide Distinct, A.Insert, A.NextIndex;
  }

  lemma {:induction false} HookQueues(s: State, ok: bool, maxclients: nat)
    requires TableInv(s) && QueueInv(s) && Enabled(s, Hook(ok))
    ensures QueueInv(Step(s, Hook(ok), maxclients))
  {
    hide TableInv, Distinct, QueueInv;
    HandledIsLive(s);
    if ok {
      HandOverQueues(s);
    } else {
      KeepQueues(s, Step(s, Hook(ok), maxclients));
    }
  }

  lemma {:induction false} HandOverQueues(s: State)
    requires TableInv(s) && QueueInv(s) && s.listener.Admitted?
    ensures QueueInv(HandOver(s, s.listener.conn))
  {
    hide TableInv, QueueInv, Distinct;
    HandledIsLive(s);
    HandedQueues(s, HandOver(s, s.listener.conn), s.listener.conn, s.conns[s.listener.conn].worker);
  }

  /** The listen thread's connection joins its worker's accept queue. */
  lemma {:induction false} HandedQueues(s: State, s': State, c: nat, w: nat)
    requires QueueInv(s) && w < |s.workers| == |s'.workers| && s.listener == Admitted(c) && s'.listener == Notifying(w)
    requires c in s.conns && s.conns[c].worker == w && s.conns[c].phase.Fresh?
    requires s'.conns == s.conns[c := s.conns[c].(phase := Queued)] && s'.workers == s.workers[w := s'.workers[w]]
    requires s'.workers[w] == s.workers[w].(acceptQueue := s.workers[w].acceptQueue + [c])
    ensures QueueInv(s')
  {
    hide Distinct;
    Pushed(s.workers[w].acceptQueue, c);
  }

  lemma {:induction false} CloseQueues(s: State, c: nat, maxclients: nat)
    requires TableInv(s) && QueueInv(s) && Enabled(s, SocketClose(c)) && Written(s, c)
    ensures QueueInv(Step(s, SocketClose(c), maxclients))
  {
    hide TableInv, Distinct;
    Pushed(s.workers[s.conns[c].worker].closeQueue, c);
  }

  lemma {:induction false} RejectQueues(s: State, maxclients: nat)
    requires TableInv(s) && QueueInv(s) && Enabled(s, Reject)
    ensures QueueInv(Step(s, Reject, maxclients))
  {
    hide TableInv, Distinct, RemoveConn;
    HandledIsLive(s);
    RemoveTable(s, s.listener.conn);
  }

  lemma {:induction false} PeerQueues(s: State, c: nat, maxclients: nat)
    requires TableInv(s) && QueueInv(s) && Enabled(s, PeerClose(c))
    ensures QueueInv(Step(s, PeerClose(c), maxclients))
  {
    hide TableInv, Distinct, RemoveConn;
    var s1 := SetWorker(s, s.conns[c].worker, s.workers[s.conns[c].worker].(owesEnable := true));
    KeepTable(s, s1);
    RemoveTable(s1, c);
  }

  lemma {:induction false} TreatQueues(s: State, w: nat)
    requires TableInv(s) && QueueInv(s) && BalanceInv(s) && OrderInv(s) && Enabled(s, Treat(w))
    ensures QueueInv(TreatByte(s, w))
  {
    hide TableInv, BalanceInv, QueueInv, OrderInv, TreatByte;
    if s.workers[w].buffer[0].L? {
      OpenQueues(s, w);
    } else {
      CloseTreated(s, w);
    }
  }

  lemma {:induction false} OpenQueues(s: State, w: nat)
    requires TableInv(s) && QueueInv(s) && BalanceInv(s) && Enabled(s, Treat(w)) && s.workers[w].buffer[0].L?
    ensures QueueInv(TreatByte(s, w))
  {
    hide TableInv, BalanceInv, Distinct, RemoveConn;
    TreatFinds(s, w);
    Popped(s.workers[w].acceptQueue);
  }

  /** The connection an `x` removes has left the accept queue. */
  lemma {:induction false} ClosedIsOpen(s: State, w: nat)
    requires TableInv(s) && QueueInv(s) && BalanceInv(s) && OrderInv(s) && Enabled(s, Treat(w)) && s.workers[w].buffer[0].X?
    ensures var k := s.workers[w];
            k.closeQueue != [] && k.closeQueue[0] in s.conns && s.conns[k.closeQueue[0]].phase.Open?
  {
    hide TableInv, BalanceInv, Distinct;
    TreatFinds(s, w);
    var k := s.workers[w];
    var c := k.closeQueue[0];
    assert Ordered(k) && Pending(k)[0] == X;
    assert LsBefore(Pending(k), 0) == 0;
    assert forall i :: 0 <= i < |k.acceptQueue| ==> k.acceptQueue[i] != k.closeQueue[0];
    assert c !in k.acceptQueue;
  }

  lemma {:induction false} CloseTreated(s: State, w: nat)
    requires TableInv(s) && QueueInv(s) && BalanceInv(s) && OrderInv(s) && Enabled(s, Treat(w)) && s.workers[w].buffer[0].X?
    ensures QueueInv(TreatByte(s, w))
  {
    hide TableInv, BalanceInv, OrderInv, QueueInv, Distinct, RemoveConn;
    ClosedIsOpen(s, w);
    TreatFinds(s, w);
    var k := s.workers[w];
    var s1 := SetWorker(s, w, k.(buffer := k.buffer[1..], closeQueue := k.closeQueue[1..], owesEnable := true));
    KeepTable(s, s1);
    RemoveTable(s1, k.closeQueue[0]);
    ClosedQueues(s, TreatByte(s, w), w);
  }

  /** An open connection leaves the head of its close queue for good. */
  lemma {:induction false} ClosedQueues(s: State, s': State, w: nat)
    requires QueueInv(s) && w < |s.workers| == |s'.workers| && s'.listener == s.listener
    requires var q := s.workers[w].closeQueue;
             && q != [] && q[0] in s.conns && s.conns[q[0]].phase.Open? && s.conns[q[0]].worker == w
             && s'.conns == s.conns - {q[0]}
             && s'.workers == s.workers[w := s'.workers[w]]
             && s'.workers[w].closeQueue == q[1..] && s'.workers[w].acceptQueue == s.workers[w].acceptQueue
    ensures QueueInv(s')
  {
    hide Distinct;
    Popped(s.workers[w].closeQueue);
  }

  /* ---------- the order of notifications ---------- */

  lemma {:induction false} LsBeforeL(bytes: seq<Byte>, j: nat)
    ensures LsBefore(bytes + [L], j) >= LsBefore(bytes, j)
    decreases |bytes|
  {
    if bytes != [] {
      assert (bytes + [L])[1..] == bytes[1..] + [L];
      LsBeforeL(bytes[1..], if bytes[0].X? && j > 0 then j - 1 else j);
    }
  }

  lemma {:induction false} LsBeforeX(bytes: seq<Byte>, j: nat)
    ensures LsBefore(bytes + [X], j) == LsBefore(bytes, j)
    decreases |bytes|
  {
    if bytes == [] {
      assert ([] + [X])[1..] == [];
    } else {
      assert (bytes + [X])[1..] == bytes[1..] + [X];
      LsBeforeX(bytes[1..], if bytes[0].X? && j > 0 then j - 1 else j);
    }
  }

  /** Behind all `x` bytes come all `l` bytes. */
  lemma {:induction false} LsBeforeAll(bytes: seq<Byte>, j: nat)
    requires multiset(bytes)[X] <= j
    ensures LsBefore(bytes, j) == multiset(bytes)[L]
    decreases |bytes|
  {
    if bytes != [] {
      assert bytes == [bytes[0]] + bytes[1..];
      LsBeforeAll(bytes[1..], if bytes[0].X? then j - 1 else j);
    }
  }

  lemma {:induction false} OrderStep(s: State, a: Action, maxclients: nat)
    requires Inv(s, maxclients) && Enabled(s, a) && Announced(s, a)
    ensures OrderInv(Step(s, a, maxclients))
  {
    hide Step, Ordered, Announced, Enabled;
    SameWorkers(s, a, maxclients);
    forall w | 0 <= w < |s.workers|
      ensures Ordered(Step(s, a, maxclients).workers[w])
    {
      OrderAt(s, a, w, maxclients);
    }
  }

  lemma {:induction false} OrderAt(s: State, a: Action, w: nat, maxclients: nat)
    requires Inv(s, maxclients) && Enabled(s, a) && Announced(s, a) && w < |s.workers| && Ordered(s.workers[w])
    ensures |Step(s, a, maxclients).workers| == |s.workers|
    ensures Ordered(Step(s, a, maxclients).workers[w])
  {
    hide TableInv, QueueInv, WakeInv, BalanceInv, OrderInv, Ordered, A.Insert, A.Remove, RemoveConn, TreatByte, HandOver, Written;
    var s' := Step(s, a, maxclients);
    SameWorkers(s, a, maxclients);
    match a
    case Treat(v) => OrderTreat(s, v, w);
    case Reject =>
      HandledIsLive(s);
      RemoveTable(s, s.listener.conn);
    case PeerClose(c) =>
      var s1 := SetWorker(s, s.conns[c].worker, s.workers[s.conns[c].worker].(owesEnable := true));
      KeepTable(s, s1);
      RemoveTable(s1, c);
      SameOrder(s.workers[w], s'.workers[w]);
    case Notify => if s.listener.worker == w { OrderNotify(s.workers[w]); }
    case WriteX(v) => if v == w { OrderWriteX(s.workers[w]); }
    case Hook(ok) => if ok { OrderHandOver(s, w); }
    case SocketClose(c) => if s.conns[c].worker == w { OrderClose(s, c); }
    case ReadPipe(v, k) => SameOrder(s.workers[w], s'.workers[w]);
    case WriteEnable(v) => SameOrder(s.workers[w], s'.workers[w]);
    case _ =>
  }

  lemma {:induction false} SameOrder(k: Worker, k': Worker)
    requires Ordered(k) && k'.acceptQueue == k.acceptQueue && k'.closeQueue == k.closeQueue
    requires k'.buffer + k'.pipe == k.buffer + k.pipe
    ensures Ordered(k')
  {
  }

  lemma {:induction false} OrderNotify(k: Worker)
    requires Ordered(k)
    ensures Ordered(k.(pipe := k.pipe + [L]))
  {
    hide LsBefore;
    var k' := k.(pipe := k.pipe + [L]);
    assert Pending(k') == Pending(k) + [L];
    forall j: nat ensures LsBefore(Pending(k'), j) >= LsBefore(Pending(k), j) { LsBeforeL(Pending(k), j); }
  }

  lemma {:induction false} OrderWriteX(k: Worker)
    requires Ordered(k) && k.owesX > 0
    ensures Ordered(k.(pipe := k.pipe + [X], owesX := k.owesX - 1))
  {
    hide LsBefore;
    var k' := k.(pipe := k.pipe + [X], owesX := k.owesX - 1);
    assert Pending(k') == Pending(k) + [X];
    forall j: nat ensures LsBefore(Pending(k'), j) == LsBefore(Pending(k), j) { LsBeforeX(Pending(k), j); }
  }

  lemma {:induction false} OrderHandOver(s: State, w: nat)
    requires TableInv(s) && QueueInv(s) && s.listener.Admitted? && w < |s.workers| && Ordered(s.workers[w])
    ensures var s' := HandOver(s, s.listener.conn); |s'.workers| == |s.workers| && Ordered(s'.workers[w])
  {
    hide TableInv, LsBefore, Distinct;
    HandledIsLive(s);
    var c, k, k' := s.listener.conn, s.workers[w], HandOver(s, s.listener.conn).workers[w];
    assert c !in k.closeQueue;
    forall i, j | 0 <= i < |k'.acceptQueue| && 0 <= j < |k'.closeQueue| && k'.acceptQueue[i] == k'.closeQueue[j]
      ensures i < LsBefore(Pending(k'), j)
    {
      assert k'.closeQueue[j] == k.closeQueue[j] && k.closeQueue[j] in k.closeQueue;
      assert i < |k.acceptQueue| && k.acceptQueue[i] == k.closeQueue[j];
    }
  }

  /** A close behind the `l` is behind it for good. */
  lemma {:induction false} OrderClose(s: State, c: nat)
    requires QueueInv(s) && BalanceInv(s) && Enabled(s, SocketClose(c)) && Written(s, c)
    requires Ordered(s.workers[s.conns[c].worker])
    ensures var k := s.workers[s.conns[c].worker];
            Ordered(k.(closeQueue := k.closeQueue + [c], owesX := k.owesX + 1))
  {
    hide LsBefore;
    var w := s.conns[c].worker;
    var k := s.workers[w];
    var k' := k.(closeQueue := k.closeQueue + [c], owesX := k.owesX + 1);
    assert Balanced(s, w) && Pending(k') == Pending(k);
    LsBeforeAll(Pending(k), |k.closeQueue|);
    forall i, j | 0 <= i < |k'.acceptQueue| && 0 <= j < |k'.closeQueue| && k'.acceptQueue[i] == k'.closeQueue[j]
      ensures i < LsBefore(Pending(k'), j)
    {
      if j == |k.closeQueue| {
        assert k.acceptQueue[i] == c;
      }
    }
  }

  lemma {:induction false} OrderTreat(s: State, v: nat, w: nat)
    requires TableInv(s) && QueueInv(s) && BalanceInv(s) && Enabled(s, Treat(v)) && w < |s.workers| && Ordered(s.workers[w])
    ensures |TreatByte(s, v).workers| == |s.workers| && Ordered(TreatByte(s, v).workers[w])
  {
    hide TableInv, QueueInv, BalanceInv, Ordered, RemoveConn;
    TreatFinds(s, v);
    var k := s.workers[v];
    if k.buffer[0].X? {
      var s1 := SetWorker(s, v, k.(buffer := k.buffer[1..], closeQueue := k.closeQueue[1..], owesEnable := true));
      KeepTable(s, s1);
      RemoveTable(s1, k.closeQueue[0]);
      if v == w { OrderPopX(k); }
    } else if v == w {
      OrderPopL(k);
    }
  }

  lemma {:induction false} OrderPopL(k: Worker)
    requires Ordered(k) && k.buffer != [] && k.buffer[0].L? && k.acceptQueue != []
    ensures Ordered(k.(buffer := k.buffer[1..], acceptQueue := k.acceptQueue[1..]))
  {
    var k' := k.(buffer := k.buffer[1..], acceptQueue := k.acceptQueue[1..]);
    assert Pending(k)[1..] == Pending(k') && Pending(k)[0] == L;
    forall i, j | 0 <= i < |k'.acceptQueue| && 0 <= j < |k'.closeQueue| && k'.acceptQueue[i] == k'.closeQueue[j]
      ensures i < LsBefore(Pending(k'), j)
    {
      assert k.acceptQueue[i + 1] == k.closeQueue[j];
    }
  }

  lemma {:induction false} OrderPopX(k: Worker)
    requires Ordered(k) && k.buffer != [] && k.buffer[0].X? && k.closeQueue != []
    ensures Ordered(k.(buffer := k.buffer[1..], closeQueue := k.closeQueue[1..], owesEnable := true))
  {
    var k' := k.(buffer := k.buffer[1..], closeQueue := k.closeQueue[1..], owesEnable := true);
    assert Pending(k)[1..] == Pending(k') && Pending(k)[0] == X;
    forall i, j | 0 <= i < |k'.acceptQueue| && 0 <= j < |k'.closeQueue| && k'.acceptQueue[i] == k'.closeQueue[j]
      ensures i < LsBefore(Pending(k'), j)
    {
      assert k.acceptQueue[i] == k.closeQueue[j + 1];
      assert i < LsBefore(Pending(k), j + 1);
    }
  }

  /** Every step of every thread keeps the invariant. */
  lemma {:induction false} StepInv(s: State, a: Action, maxclients: nat)
    requires Inv(s, maxclients) && Enabled(s, a) && Announced(s, a)
    ensures Inv(Step(s, a, maxclients), maxclients)
  {
    hide TableInv, ListenerInv, QueueInv, WakeInv, BalanceInv, OrderInv, Step, Announced;
    OrderStep(s, a, maxclients);
    TableStep(s, a, maxclients);
    ListenerStep(s, a, maxclients);
    QueueStep(s, a, maxclients);
    BalanceStep(s, a, maxclients);
    WakeStep(s, a, maxclients);
  }

  ghost predicate StepsTo(s: State, s': State, maxclients: nat) {
    exists a: Action :: Enabled(s, a) && Announced(s, a) && s' == Step(s, a, maxclients)
  }

  /** A run of `n` workers: states linked by steps of whichever thread is scheduled. */
  ghost predicate IsRun(run: seq<State>, n: nat, maxclients: nat) {
    && n > 0 && run != [] && run[0] == Init(n)
    && forall k :: 0 <= k < |run| - 1 ==> StepsTo(run[k], run[k + 1], maxclients)
  }

  lemma {:induction false} RunInv(run: seq<State>, n: nat, maxclients: nat, k: nat)
    requires IsRun(run, n, maxclients) && k < |run|
    ensures Inv(run[k], maxclients) && |run[k].workers| == n
    decreases k
  {
    hide Inv, Step, Announced, Enabled;
    if k == 0 {
      InitInv(n, maxclients);
    } else {
      RunInv(run, n, maxclients, k - 1);
      assert StepsTo(run[k - 1], run[k - 1 + 1], maxclients);
      var a: Action :| Enabled(run[k - 1], a) && Announced(run[k - 1], a) && run[k] == Step(run[k - 1], a, maxclients);
      StepInv(run[k - 1], a, maxclients);
      SameWorkers(run[k - 1], a, maxclients);
    }
  }

  /** No lost wake-up: in every state of every run, if accepting is off then the table is
      full, or an `e` is in the listen pipe or being treated, or a worker is about to write one. */
  lemma {:induction false} NoLostWakeup(run: seq<State>, n: nat, maxclients: nat, k: nat)
    requires IsRun(run, n, maxclients) && k < |run| && !run[k].accepting
    ensures var s := run[k];
            s.alloc.connNum == maxclients || s.enables > 0 || s.listener.Draining? || SomeOwes(s)
  {
    RunInv(run, n, maxclients, k);
    hide TableInv, ListenerInv, QueueInv, BalanceInv, SomeOwes;
  }

  predicate AllEnabled(s: State, actions: seq<Action>, maxclients: nat)
    decreases |actions|
  {
    actions == [] || (Enabled(s, actions[0]) && AllEnabled(Step(s, actions[0], maxclients), actions[1..], maxclients))
  }

  function Exec(s: State, actions: seq<Action>, maxclients: nat): State
    requires AllEnabled(s, actions, maxclients)
    decreases |actions|
  {
    if actions == [] then s else Exec(Step(s, actions[0], maxclients), actions[1..], maxclients)
  }

  /** And the word arrives: when accepting is off with room in the table, at most three
      steps already under way turn it on, and they change neither connections nor queues. */
  lemma {:induction false} WakesUp(run: seq<State>, n: nat, maxclients: nat, k: nat) returns (actions: seq<Action>)
    requires IsRun(run, n, maxclients) && k < |run|
    requires !run[k].accepting && run[k].alloc.connNum < maxclients
    ensures |actions| <= 3 && AllEnabled(run[k], actions, maxclients)
    ensures forall a :: a in actions ==> a.WriteEnable? || a.ReadEnables? || a.Enable?
    ensures var s' := Exec(run[k], actions, maxclients);
            s'.accepting && s'.alloc == run[k].alloc && s'.conns == run[k].conns
  {
    var s := run[k];
    RunInv(run, n, maxclients, k);
    hide TableInv, QueueInv, BalanceInv, A.High;
    if s.listener.Draining? {
      actions := [Enable];
      assert actions[1..] == [];
    } else if s.enables > 0 {
      actions := [ReadEnables(1), Enable];
      DrainsOne(s, maxclients);
    } else {
      var w :| 0 <= w < |s.workers| && s.workers[w].owesEnable;
      actions := [WriteEnable(w), ReadEnables(1), Enable];
      var s1 := Step(s, WriteEnable(w), maxclients);
      assert actions[1..] == [ReadEnables(1), Enable];
      DrainsOne(s1, maxclients);
    }
  }

  lemma {:induction false} DrainsOne(s: State, maxclients: nat)
    requires s.listener.Idle? && s.enables > 0 && !s.failed
    ensures AllEnabled(s, [ReadEnables(1), Enable], maxclients)
    ensures var s' := Exec(s, [ReadEnables(1), Enable], maxclients);
            s'.accepting && s'.alloc == s.alloc && s'.conns == s.conns
  {
    var actions := [ReadEnables(1), Enable];
    var s1 := Step(s, ReadEnables(1), maxclients);
    assert actions[1..] == [Enable] && [Enable][1..] == [];
    assert AllEnabled(s1, [Enable], maxclients);
  }

  /** Capacity: although the check and the insertion are separate lock sections, the live
      count never passes the limit, every index lies in 1..maxclients, names one live
      connection, and decides which worker serves it. */
  lemma {:induction false} Capacity(run: seq<State>, n: nat, maxclients: nat, k: nat)
    requires IsRun(run, n, maxclients) && k < |run|
    ensures var s := run[k];
            && s.alloc.connNum == |s.alloc.table| <= maxclients
            && (forall c :: c in s.conns ==>
                  var i := s.conns[c].index;
                  1 <= i <= maxclients && i in s.alloc.table && s.alloc.table[i] == c && s.conns[c].worker == (i - 1) % n)
            && (forall i :: i in s.alloc.table ==> s.alloc.table[i] in s.conns && s.conns[s.alloc.table[i]].index == i)
            && (forall i :: i in s.alloc.free ==> 1 <= i <= maxclients && i !in s.alloc.table)
  {
    RunInv(run, n, maxclients, k);
    hide QueueInv, BalanceInv, WakeInv;
  }

  /** The assertions on popped connections hold and no connection is removed twice; each
      queue is balanced by its notifications; each entry belongs to the queue's worker and
      is there once. */
  lemma {:induction false} QueuesBalance(run: seq<State>, n: nat, maxclients: nat, k: nat, w: nat)
    requires IsRun(run, n, maxclients) && k < |run| && w < n
    ensures var s := run[k];
            && !s.failed && |s.workers| == n && Balanced(s, w)
            && Distinct(s.workers[w].acceptQueue) && Distinct(s.workers[w].closeQueue)
            && (forall c :: c in s.workers[w].acceptQueue ==>
                  c in s.conns && s.conns[c].worker == w && s.conns[c].phase.Queued?)
            && (forall c :: c in s.workers[w].closeQueue ==>
                  c in s.conns && s.conns[c].worker == w && s.conns[c].closing)
            && Ordered(s.workers[w])
  {
    RunInv(run, n, maxclients, k);
    hide TableInv, ListenerInv, WakeInv, Distinct, Balanced, Ordered, Handling;
  }

  /** Every thread is back in its event loop and every notification has been treated. */
  predicate AtRest(s: State) {
    && s.listener.Idle? && s.enables == 0
    && forall w :: 0 <= w < |s.workers| ==> Resting(s.workers[w]) && s.workers[w].pipe == [] && s.workers[w].owesX == 0
  }

  /** At rest nothing is forgotten: every live connection is being served by its worker,
      every queue is empty, and accepting is off only if the table is full. */
  lemma {:induction false} NothingForgotten(run: seq<State>, n: nat, maxclients: nat, k: nat)
    requires IsRun(run, n, maxclients) && k < |run| && AtRest(run[k])
    ensures var s := run[k];
            && |s.workers| == n
            && (forall c :: c in s.conns ==> s.conns[c].phase.Open? && !s.conns[c].closing)
            && (forall w :: 0 <= w < n ==> s.workers[w].acceptQueue == [] && s.workers[w].closeQueue == [])
            && (s.accepting || s.alloc.connNum == maxclients)
  {
    var s := run[k];
    RunInv(run, n, maxclients, k);
    hide A.Inv, A.High, ListenerInv, Distinct;
    forall w | 0 <= w < n
      ensures s.workers[w].acceptQueue == [] && s.workers[w].closeQueue == []
    {
      assert Balanced(s, w);
      assert Pending(s.workers[w]) == [];
    }
    forall c | c in s.conns
      ensures s.conns[c].phase.Open? && !s.conns[c].closing
    {
      var w := s.conns[c].worker;
      assert 0 <= w < n;
      assert c !in s.workers[w].acceptQueue && c !in s.workers[w].closeQueue;
      assert !Handling(s.listener, c);
    }
  }

  /* ---------- closes that come too early ---------- */

  predicate AllAnnounced(s: State, actions: seq<Action>, maxclients: nat)
    decreases |actions|
  {
    actions == [] ||
    (Enabled(s, actions[0]) && Announced(s, actions[0]) && AllAnnounced(Step(s, actions[0], maxclients), actions[1..], maxclients))
  }

  /** Announced actions keep the invariant. */
  lemma {:induction false} AnnouncedInv(s: State, actions: seq<Action>, maxclients: nat)
    requires Inv(s, maxclients) && AllAnnounced(s, actions, maxclients) && AllEnabled(s, actions, maxclients)
    ensures Inv(Exec(s, actions, maxclients), maxclients)
    decreases |actions|
  {
    hide Inv, Step, Enabled, Announced;
    if actions != [] {
      StepInv(s, actions[0], maxclients);
      AnnouncedInv(Step(s, actions[0], maxclients), actions[1..], maxclients);
    }
  }

  /** Some actions without a further early close end in a failed assertion. */
  ghost predicate CanFail(s: State, maxclients: nat) {
    exists actions :: AllAnnounced(s, actions, maxclients) && AllEnabled(s, actions, maxclients)
                      && Exec(s, actions, maxclients).failed
  }

  lemma {:induction false} FailsNow(s: State, a: Action, maxclients: nat)
    requires Enabled(s, a) && !a.SocketClose? && Step(s, a, maxclients).failed
    ensures CanFail(s, maxclients)
  {
    hide Step, Enabled;
    var s', actions := Step(s, a, maxclients), [a];
    assert actions[1..] == [];
    assert AllAnnounced(s', [], maxclients) && AllEnabled(s', [], maxclients);
    assert Exec(s, actions, maxclients) == Exec(s', [], maxclients) == s';
    assert AllAnnounced(s, actions, maxclients) && AllEnabled(s, actions, maxclients);
  }

  lemma {:induction false} FailsLater(s: State, a: Action, maxclients: nat)
    requires Enabled(s, a) && !a.SocketClose? && CanFail(Step(s, a, maxclients), maxclients)
    ensures CanFail(s, maxclients)
  {
    hide Step, Enabled;
    var s' := Step(s, a, maxclients);
    var rest :| AllAnnounced(s', rest, maxclients) && AllEnabled(s', rest, maxclients) && Exec(s', rest, maxclients).failed;
    var actions := [a] + rest;
    assert actions[0] == a && actions[1..] == rest;
    assert AllAnnounced(s, actions, maxclients) && AllEnabled(s, actions, maxclients);
    assert Exec(s, actions, maxclients) == Exec(s', rest, maxclients);
  }

  /** A connection whose notification is still to come: its `l`, or the listen thread itself. */
  ghost predicate Awaited(s: State, w: nat, c: nat) {
    && w < |s.workers| && !s.failed
    && (Handling(s.listener, c)
        || (var k := s.workers[w];
            && s.listener == Notifying(w) && k.acceptQueue != [] && k.acceptQueue[|k.acceptQueue| - 1] == c
            && |k.acceptQueue| == multiset(Pending(k))[L] + 1))
  }

  /** What the worker has still to do before it is through with its notifications. */
  function Backlog(k: Worker): nat {
    4 * k.owesX + 3 * |k.pipe| + 2 * |k.buffer| + if k.owesEnable then 1 else 0
  }

  /** The next step of a worker that has something to do. */
  function Drain(s: State, w: nat): Action
    requires w < |s.workers|
  {
    var k := s.workers[w];
    if k.owesEnable then WriteEnable(w)
    else if k.buffer != [] then Treat(w)
    else if k.pipe != [] then ReadPipe(w, 1)
    else WriteX(w)
  }

  lemma {:induction false} DrainResult(s: State, w: nat, maxclients: nat)
    requires w < |s.workers| && !s.failed && Backlog(s.workers[w]) > 0
    ensures Enabled(s, Drain(s, w)) && !Drain(s, w).SocketClose?
    ensures var k := s.workers[w];
            Step(s, Drain(s, w), maxclients) ==
            if k.owesEnable then SetWorker(s, w, k.(owesEnable := false)).(enables := s.enables + 1)
            else if k.buffer != [] then TreatByte(s, w)
            else if k.pipe != [] then SetWorker(s, w, k.(buffer := k.pipe[..1], pipe := k.pipe[1..]))
            else SetWorker(s, w, k.(pipe := k.pipe + [X], owesX := k.owesX - 1))
  {
    hide TreatByte;
  }

  lemma {:induction false} DrainStep(s: State, w: nat, c: nat, maxclients: nat)
    requires Awaited(s, w, c) && Backlog(s.workers[w]) > 0
    ensures Enabled(s, Drain(s, w)) && !Drain(s, w).SocketClose?
    ensures var s' := Step(s, Drain(s, w), maxclients);
            s'.failed ||
            (&& Awaited(s', w, c) && Backlog(s'.workers[w]) < Backlog(s.workers[w])
             && (c !in s.conns ==> c !in s'.conns))
  {
    DrainResult(s, w, maxclients);
    var k := s.workers[w];
    if !k.owesEnable && k.buffer != [] {
      DrainTreat(s, w, c);
    } else {
      assert Awaited(s, w, c);
      hide Awaited, TreatByte, Enabled;
      var s' := Step(s, Drain(s, w), maxclients);
      hide Step, Drain;
      if k.owesEnable {
        AwaitedKept(s, s', w, c);
      } else if k.pipe != [] {
        assert k.pipe[..1] + k.pipe[1..] == k.buffer + k.pipe;
        AwaitedKept(s, s', w, c);
      } else {
        DrainWrite(s, w, c);
      }
    }
  }

  lemma {:induction false} AwaitedKept(s: State, s': State, w: nat, c: nat)
    requires Awaited(s, w, c) && |s'.workers| == |s.workers| && s'.failed == s.failed && s'.listener == s.listener
    requires s'.workers[w].acceptQueue == s.workers[w].acceptQueue
    requires s'.workers[w].buffer + s'.workers[w].pipe == s.workers[w].buffer + s.workers[w].pipe
    ensures Awaited(s', w, c)
  {
  }

  lemma {:induction false} DrainWrite(s: State, w: nat, c: nat)
    requires Awaited(s, w, c) && s.workers[w].buffer == s.workers[w].pipe == [] && s.workers[w].owesX > 0
    ensures var k := s.workers[w]; Awaited(SetWorker(s, w, k.(pipe := k.pipe + [X], owesX := k.owesX - 1)), w, c)
  {
    hide Pending;
    OneX(s.workers[w]);
  }

  lemma {:induction false} OneX(k: Worker)
    requires k.buffer == k.pipe == []
    ensures forall k': Worker :: k'.buffer == [] && k'.pipe == k.pipe + [X] ==> multiset(Pending(k'))[L] == multiset(Pending(k))[L]
  {
    assert Pending(k) == [];
    forall k': Worker | k'.buffer == [] && k'.pipe == k.pipe + [X]
      ensures multiset(Pending(k'))[L] == multiset(Pending(k))[L]
    {
      assert Pending(k') == [X];
    }
  }

  lemma {:induction false} DrainTreat(s: State, w: nat, c: nat)
    requires Awaited(s, w, c) && !s.workers[w].owesEnable && s.workers[w].buffer != []
    ensures var s' := TreatByte(s, w);
            s'.failed ||
            (&& Awaited(s', w, c) && Backlog(s'.workers[w]) < Backlog(s.workers[w])
             && (c !in s.conns ==> c !in s'.conns))
  {
    hide A.Remove;
    var k := s.workers[w];
    assert Pending(k) == [k.buffer[0]] + (k.buffer[1..] + k.pipe);
    assert k.buffer[0] == L ==> multiset(Pending(k))[L] == 1 + multiset(k.buffer[1..] + k.pipe)[L];
  }

  /** Once the connection is gone, the notification finds it missing. */
  lemma {:induction false} GoneFails(s: State, w: nat, c: nat, maxclients: nat)
    requires Awaited(s, w, c) && c !in s.conns
    ensures CanFail(s, maxclients)
    decreases Backlog(s.workers[w])
  {
    hide CanFail;
    if Handling(s.listener, c) {
      FailsNow(s, if s.listener.Admitted? then Hook(true) else Reject, maxclients);
    } else if Backlog(s.workers[w]) > 0 {
      hide Step, Drain, Awaited, Backlog;
      DrainStep(s, w, c, maxclients);
      if Step(s, Drain(s, w), maxclients).failed {
        FailsNow(s, Drain(s, w), maxclients);
      } else {
        GoneFails(Step(s, Drain(s, w), maxclients), w, c, maxclients);
        FailsLater(s, Drain(s, w), maxclients);
      }
    } else {
      LastNotice(s, w, c, maxclients);
    }
  }

  lemma {:induction false} LastNotice(s: State, w: nat, c: nat, maxclients: nat)
    requires Awaited(s, w, c) && c !in s.conns && Backlog(s.workers[w]) == 0 && s.listener == Notifying(w)
    requires !Handling(s.listener, c)
    ensures CanFail(s, maxclients)
  {
    hide CanFail;
    var k := s.workers[w];
    assert Pending(k) == [] && k.acceptQueue == [c];
    var s1 := Step(s, Notify, maxclients);
    assert s1.workers[w] == k.(pipe := [] + [L]);
    var s2 := Step(s1, ReadPipe(w, 1), maxclients);
    assert s2.workers[w].buffer == [L];
    FailsNow(s2, Treat(w), maxclients);
    FailsLater(s1, ReadPipe(w, 1), maxclients);
    FailsLater(s, Notify, maxclients);
  }

  /** A connection is in the close queue, whose notifications are on their way. */
  ghost predicate Closing(k: Worker, c: nat) {
    c in k.closeQueue && |k.closeQueue| == multiset(Pending(k))[X] + k.owesX
  }

  /** A connection in its close queue before it is notified. */
  ghost predicate Doomed(s: State, w: nat, c: nat) {
    Awaited(s, w, c) && Closing(s.workers[w], c)
  }

  lemma {:induction false} DoomedStep(s: State, w: nat, c: nat, maxclients: nat)
    requires Doomed(s, w, c)
    ensures Backlog(s.workers[w]) > 0
    ensures var s' := Step(s, Drain(s, w), maxclients);
            Enabled(s, Drain(s, w)) && (s'.failed || c !in s'.conns || Doomed(s', w, c))
  {
    var k := s.workers[w];
    assert Closing(k, c);
    ClosingBusy(k, c);
    DrainStep(s, w, c, maxclients);
    DrainResult(s, w, maxclients);
    hide Awaited, Closing, Backlog, TreatByte, Step, Drain, Enabled;
    if k.owesEnable {
      ClosingKept(k, k.(owesEnable := false), c);
    } else if k.buffer != [] {
      ClosingTreated(s, w, c);
    } else if k.pipe != [] {
      assert k.pipe[..1] + k.pipe[1..] == k.buffer + k.pipe;
      ClosingKept(k, k.(buffer := k.pipe[..1], pipe := k.pipe[1..]), c);
    } else {
      ClosingWritten(k, c);
    }
  }

  lemma {:induction false} ClosingBusy(k: Worker, c: nat)
    requires Closing(k, c)
    ensures Backlog(k) > 0
  {
    assert Pending(k) == [] ==> multiset(Pending(k))[X] == 0;
  }

  lemma {:induction false} ClosingKept(k: Worker, k': Worker, c: nat)
    requires Closing(k, c) && k'.closeQueue == k.closeQueue && k'.owesX == k.owesX
    requires k'.buffer + k'.pipe == k.buffer + k.pipe
    ensures Closing(k', c)
  {
  }

  lemma {:induction false} ClosingWritten(k: Worker, c: nat)
    requires Closing(k, c) && k.buffer == k.pipe == [] && k.owesX > 0
    ensures Closing(k.(pipe := k.pipe + [X], owesX := k.owesX - 1), c)
  {
    assert Pending(k) == [] && [] + ([] + [X]) == [X];
  }

  lemma {:induction false} ClosingTreated(s: State, w: nat, c: nat)
    requires w < |s.workers| && Closing(s.workers[w], c) && !s.failed && s.workers[w].buffer != []
    ensures var s' := TreatByte(s, w);
            s'.failed || c !in s'.conns || (|s'.workers| == |s.workers| && Closing(s'.workers[w], c))
  {
    hide A.Remove;
    var k := s.workers[w];
    assert Pending(k) == [k.buffer[0]] + (k.buffer[1..] + k.pipe);
    if k.buffer[0].X? && k.closeQueue != [] {
      assert k.closeQueue == [k.closeQueue[0]] + k.closeQueue[1..];
    }
  }

  lemma {:induction false} DoomedFails(s: State, w: nat, c: nat, maxclients: nat)
    requires Doomed(s, w, c)
    ensures CanFail(s, maxclients)
    decreases Backlog(s.workers[w])
  {
    DoomedStep(s, w, c, maxclients);
    assert Awaited(s, w, c);
    hide CanFail, Step, Drain, Awaited, Backlog, Doomed;
    DrainStep(s, w, c, maxclients);
    var s' := Step(s, Drain(s, w), maxclients);
    if s'.failed {
      FailsNow(s, Drain(s, w), maxclients);
    } else {
      if c in s'.conns {
        DoomedFails(s', w, c, maxclients);
      } else {
        GoneFails(s', w, c, maxclients);
      }
      FailsLater(s, Drain(s, w), maxclients);
    }
  }

  /** The exact condition for a close: the assertions on popped connections can fail after
      it, without any other early close, if and only if the `l` had not been written. */
  lemma {:induction false} CloseExact(s: State, c: nat, maxclients: nat)
    requires Inv(s, maxclients) && Enabled(s, SocketClose(c))
    ensures CanFail(Step(s, SocketClose(c), maxclients), maxclients) <==> !Written(s, c)
  {
    var s' := Step(s, SocketClose(c), maxclients);
    if Written(s, c) {
      NeverFails(s, c, maxclients);
    } else {
      EarlyDoomed(s, c, maxclients);
      DoomedFails(s', s.conns[c].worker, c, maxclients);
    }
  }

  lemma {:induction false} NeverFails(s: State, c: nat, maxclients: nat)
    requires Inv(s, maxclients) && Enabled(s, SocketClose(c)) && Written(s, c)
    ensures !CanFail(Step(s, SocketClose(c), maxclients), maxclients)
  {
    StepInv(s, SocketClose(c), maxclients);
    hide TableInv, ListenerInv, QueueInv, BalanceInv, OrderInv, WakeInv, Step, AllAnnounced, AllEnabled, Exec;
    var s' := Step(s, SocketClose(c), maxclients);
    forall actions | AllAnnounced(s', actions, maxclients) && AllEnabled(s', actions, maxclients)
      ensures !Exec(s', actions, maxclients).failed
    {
      AnnouncedInv(s', actions, maxclients);
    }
  }

  lemma {:induction false} EarlyDoomed(s: State, c: nat, maxclients: nat)
    requires Inv(s, maxclients) && Enabled(s, SocketClose(c)) && !Written(s, c)
    ensures Doomed(Step(s, SocketClose(c), maxclients), s.conns[c].worker, c)
  {
    hide TableInv, ListenerInv, OrderInv, WakeInv, Distinct;
    var w := s.conns[c].worker;
    assert Balanced(s, w);
    assert s.conns[c].phase.Fresh? ==> Handling(s.listener, c);
    var s' := Step(s, SocketClose(c), maxclients);
    assert Pending(s'.workers[w]) == Pending(s.workers[w]);
  }

  /** One connection, up to its queueing. */
  lemma {:induction false} AcceptStart(maxclients: nat) returns (s1: State, s2: State)
    requires maxclients > 0
    ensures StepsTo(Init(1), s1, maxclients) && StepsTo(s1, s2, maxclients)
    ensures !s2.failed && s2.listener == Admitted(0) && s2.conns == map[0 := Conn(1, 0, Fresh, false)]
    ensures |s2.workers| == 1 && s2.workers[0].acceptQueue == []
  {
    s1 := Step(Init(1), Accept, maxclients);
    assert s1 == Init(1).(listener := Admitting);
    s2 := Step(s1, Admit(0), maxclients);
    assert s2 == AdmitConn(s1, 0);
  }

  lemma {:induction false} QueuedStart(s2: State, maxclients: nat) returns (s3: State)
    requires !s2.failed && s2.listener == Admitted(0) && s2.conns == map[0 := Conn(1, 0, Fresh, false)]
    requires |s2.workers| == 1 && s2.workers[0].acceptQueue == []
    ensures StepsTo(s2, s3, maxclients)
    ensures Enabled(s3, SocketClose(0)) && 0 in s3.conns && s3.conns[0].phase.Queued? && !Written(s3, 0)
  {
    s3 := Step(s2, Hook(true), maxclients);
    assert s3 == HandOver(s2, 0);
    assert s3.listener == Notifying(0) && s3.workers[0].acceptQueue == [0] && s3.conns[0].phase == Queued;
  }

  /** A run in which a connection is queued, and closed before its `l` is written: the
      worker can free it, and then pop it to open it. */
  lemma {:induction false} OvertakenClose(maxclients: nat) returns (run: seq<State>)
    requires maxclients > 0
    ensures IsRun(run, 1, maxclients) && |run| == 4
    ensures var s := run[3];
            && Enabled(s, SocketClose(0)) && 0 in s.conns && s.conns[0].phase.Queued?
            && CanFail(Step(s, SocketClose(0), maxclients), maxclients)
  {
    hide Inv, Step, StepsTo, Enabled, Init, CanFail, Written;
    var s1, s2 := AcceptStart(maxclients);
    var s3 := QueuedStart(s2, maxclients);
    run := [Init(1), s1, s2, s3];
    RunInv(run, 1, maxclients, 3);
    CloseExact(s3, 0, maxclients);
  }
}
