/** What the connection table says about its past: which connections a lookup finds, and
    which references are held, told from what the threads did. */
module LifetimeHistory {
  import opened Wrappers
  import opened Lifetime

  datatype Turn = Turn(t: nat, a: Action)

  /** A run with the turns its threads take. */
  ghost predicate Traced(run: seq<State>, turns: seq<Turn>, n: nat) {
    && |run| == |turns| + 1 && run[0] == Init(n)
    && forall k :: 0 <= k < |turns| ==>
         Enabled(run[k], turns[k].t, turns[k].a) && run[k + 1] == Step(run[k], turns[k].t, turns[k].a)
  }

  /** Every run has its turns. */
  lemma {:induction false} TraceOf(run: seq<State>, n: nat) returns (turns: seq<Turn>)
    requires IsRun(run, n)
    ensures Traced(run, turns, n)
    decreases |run|
  {
    hide Step, Enabled, Init;
    if |run| == 1 {
      turns := [];
    } else {
      var front, k := run[..|run| - 1], |run| - 2;
      forall i | 0 <= i < |front| - 1 ensures StepsTo(front[i], front[i + 1]) { assert StepsTo(run[i], run[i + 1]); }
      var before := TraceOf(front, n);
      assert StepsTo(run[k], run[k + 1]);
      var t: nat, a: Action :| Enabled(run[k], t, a) && run[k + 1] == Step(run[k], t, a);
      turns := before + [Turn(t, a)];
      forall i | 0 <= i < |turns|
        ensures Enabled(run[i], turns[i].t, turns[i].a) && run[i + 1] == Step(run[i], turns[i].t, turns[i].a)
      {
        if i < |before| { assert front[i] == run[i] && front[i + 1] == run[i + 1]; }
      }
    }
  }

  /* ---------- flags that are set and cleared ---------- */

  datatype Mark = Set | Cleared | Kept

  /** Set once, and not cleared since. */
  predicate Latched(marks: seq<Mark>) {
    exists j :: 0 <= j < |marks| && marks[j] == Set && forall e :: j < e < |marks| ==> marks[e] != Cleared
  }

  lemma {:induction false} LatchedNext(marks: seq<Mark>, k: nat)
    requires 0 < k <= |marks|
    ensures Latched(marks[..k]) <==> marks[k - 1] == Set || (marks[k - 1] == Kept && Latched(marks[..k - 1]))
  {
    var now, before := marks[..k], marks[..k - 1];
    assert forall i :: 0 <= i < k - 1 ==> now[i] == before[i];
    if Latched(now) {
      var j :| 0 <= j < k && now[j] == Set && forall e :: j < e < k ==> now[e] != Cleared;
      if j < k - 1 {
        assert before[j] == Set && now[k - 1] != Cleared;
      }
    }
    if Latched(before) && marks[k - 1] == Kept {
      var j :| 0 <= j < k - 1 && before[j] == Set && forall e :: j < e < k - 1 ==> before[e] != Cleared;
      assert now[j] == Set && forall e :: j < e < k ==> now[e] != Cleared;
    }
  }

  predicate Enters(s: State, m: Turn, wish: Wish) {
    m.a.Enter? && m.t < |s.threads| && s.threads[m.t] == Blocked(wish)
  }

  /** An insertion of the connection makes it referable, a close ends that. */
  function RefMark(s: State, m: Turn, c: nat): Mark {
    if m.a.Enter? && m.t < |s.threads| && s.threads[m.t].Blocked? && s.threads[m.t].wish.ToInsert? && s.threads[m.t].wish.conn == c
    then Set
    else if Enters(s, m, ToClose(c)) then Cleared
    else Kept
  }

  /** An insertion at the index puts it there, a remover of the index clears it. */
  function SlotMark(s: State, m: Turn, i: nat, c: nat): Mark {
    if Enters(s, m, ToInsert(i, c)) then Set
    else if m.a.Clear? && m.t < |s.threads| && s.threads[m.t] == Removing(i) then Cleared
    else Kept
  }

  function RefMarks(run: seq<State>, turns: seq<Turn>, c: nat): (r: seq<Mark>)
    requires |turns| <= |run|
    ensures |r| == |turns| && forall k :: 0 <= k < |turns| ==> r[k] == RefMark(run[k], turns[k], c)
  {
    seq(|turns|, k requires 0 <= k < |turns| => RefMark(run[k], turns[k], c))
  }

  function SlotMarks(run: seq<State>, turns: seq<Turn>, i: nat, c: nat): (r: seq<Mark>)
    requires |turns| <= |run|
    ensures |r| == |turns| && forall k :: 0 <= k < |turns| ==> r[k] == SlotMark(run[k], turns[k], i, c)
  {
    seq(|turns|, k requires 0 <= k < |turns| => SlotMark(run[k], turns[k], i, c))
  }

  lemma {:induction false} RefableStep(s: State, m: Turn, c: nat)
    requires Enabled(s, m.t, m.a)
    ensures c in Step(s, m.t, m.a).refable <==>
            RefMark(s, m, c) == Set || (RefMark(s, m, c) == Kept && c in s.refable)
  {
  }

  /** A connection is referable exactly when it was inserted and no close of it came since. */
  lemma {:induction false} RefableExact(run: seq<State>, turns: seq<Turn>, n: nat, k: nat, c: nat)
    requires Traced(run, turns, n) && k <= |turns|
    ensures c in run[k].refable <==> Latched(RefMarks(run, turns, c)[..k])
    decreases k
  {
    hide Step, Enabled, Latched, RefMark;
    var marks := RefMarks(run, turns, c);
    if k > 0 {
      RefableExact(run, turns, n, k - 1, c);
      assert run[k - 1 + 1] == Step(run[k - 1], turns[k - 1].t, turns[k - 1].a);
      RefableStep(run[k - 1], turns[k - 1], c);
      LatchedNext(marks, k);
    } else {
      NeverSet(marks[..0]);
    }
  }

  lemma {:induction false} NeverSet(marks: seq<Mark>)
    requires marks == []
    ensures !Latched(marks)
  {
  }

  lemma {:induction false} SlotStep(s: State, m: Turn, i: nat, c: nat)
    requires Enabled(s, m.t, m.a)
    ensures var s' := Step(s, m.t, m.a);
            i in s'.slots && s'.slots[i] == c <==>
            SlotMark(s, m, i, c) == Set || (SlotMark(s, m, i, c) == Kept && i in s.slots && s.slots[i] == c)
  {
  }

  /** A connection stands in a slot exactly when it was inserted there and no remover of
      the index has cleared it since. */
  lemma {:induction false} SlotExact(run: seq<State>, turns: seq<Turn>, n: nat, k: nat, i: nat, c: nat)
    requires Traced(run, turns, n) && k <= |turns|
    ensures i in run[k].slots && run[k].slots[i] == c <==> Latched(SlotMarks(run, turns, i, c)[..k])
    decreases k
  {
    hide Step, Enabled, Latched, SlotMark;
    var marks := SlotMarks(run, turns, i, c);
    if k > 0 {
      SlotExact(run, turns, n, k - 1, i, c);
      assert run[k - 1 + 1] == Step(run[k - 1], turns[k - 1].t, turns[k - 1].a);
      SlotStep(run[k - 1], turns[k - 1], i, c);
      LatchedNext(marks, k);
    } else {
      NeverSet(marks[..0]);
    }
  }

  /* ---------- references ---------- */

  /** How often a thread took a reference to a connection it had found, and dropped one. */
  function Taken(run: seq<State>, turns: seq<Turn>, t: nat, c: nat, k: nat): nat
    requires k <= |turns| <= |run|
  {
    if k == 0 then 0
    else
      var s, m := run[k - 1], turns[k - 1];
      Taken(run, turns, t, c, k - 1) + if m == Turn(t, Ref) && t < |s.threads| && s.threads[t] == Found(c) then 1 else 0
  }

  function Dropped(turns: seq<Turn>, t: nat, c: nat, k: nat): nat
    requires k <= |turns|
  {
    if k == 0 then 0 else Dropped(turns, t, c, k - 1) + if turns[k - 1] == Turn(t, Unref(c)) then 1 else 0
  }

  lemma {:induction false} ThreadsKept(run: seq<State>, turns: seq<Turn>, n: nat, k: nat)
    requires Traced(run, turns, n) && k <= |turns|
    ensures |run[k].threads| == |run[k].held| == n
    decreases k
  {
    if k > 0 {
      ThreadsKept(run, turns, n, k - 1);
      assert run[k - 1 + 1] == Step(run[k - 1], turns[k - 1].t, turns[k - 1].a);
    }
  }

  /** A thread holds exactly the references it took and has not dropped. */
  lemma {:induction false} HeldExact(run: seq<State>, turns: seq<Turn>, n: nat, k: nat, t: nat, c: nat)
    requires Traced(run, turns, n) && k <= |turns| && t < n
    ensures |run[k].held| == n && run[k].held[t][c] + Dropped(turns, t, c, k) == Taken(run, turns, t, c, k)
    decreases k
  {
    ThreadsKept(run, turns, n, k);
    if k > 0 {
      HeldExact(run, turns, n, k - 1, t, c);
      ThreadsKept(run, turns, n, k - 1);
      assert run[k - 1 + 1] == Step(run[k - 1], turns[k - 1].t, turns[k - 1].a);
    }
  }

  /* ---------- lookups ---------- */

  /** The latest turn of a thread before step `k`. */
  predicate Latest(turns: seq<Turn>, t: nat, j: nat, k: nat) {
    j < k <= |turns| && turns[j].t == t && forall e :: j < e < k ==> turns[e].t != t
  }

  /** What the slot of an index holds, if that is referable. */
  function Findable(s: State, i: nat): Option<nat> {
    if i in s.slots && s.slots[i] in s.refable then Some(s.slots[i]) else None
  }

  /** The turn brings its thread there. */
  predicate Brings(s: State, u: Turn, pc: Pc)
    requires u.t < |s.threads|
  {
    var from := s.threads[u.t];
    match pc
    case Outside => true
    case Blocked(wish) => u.a == Ask(wish)
    case Looking(i) => u.a == Enter && from == Blocked(ToLook(i))
    case Found(c) => u.a == Look && from.Looking? && Findable(s, from.index) == Some(c)
    case Leaving(None) => u.a == Look && from.Looking? && Findable(s, from.index) == None
    case Leaving(Some(c)) => u.a == Ref && from == Found(c)
    case Removing(i) => u.a == Enter && from == Blocked(ToRemove(i))
    case Waiting(c) => u.a == Clear && from.Removing? && from.index in s.slots && s.slots[from.index] == c
  }

  lemma {:induction false} BringsStep(s: State, u: Turn)
    requires Enabled(s, u.t, u.a)
    ensures u.t < |Step(s, u.t, u.a).threads| && (!u.a.Unref? ==> Brings(s, u, Step(s, u.t, u.a).threads[u.t]))
    ensures u.a.Unref? ==> Step(s, u.t, u.a).threads[u.t] == Outside
  {
  }

  /** A thread stands where its latest turn brought it. */
  lemma {:induction false} CameBy(run: seq<State>, turns: seq<Turn>, n: nat, k: nat, t: nat) returns (j: nat)
    requires Traced(run, turns, n) && k <= |turns| && t < n
    requires |run[k].threads| == n && run[k].threads[t] != Outside
    ensures Latest(turns, t, j, k) && |run[j].threads| == n && Brings(run[j], turns[j], run[k].threads[t])
    decreases k
  {
    hide Step, Enabled, Brings;
    if k == 0 {
      StartsOutside(n, t);
      assert false;
    }
    ThreadsKept(run, turns, n, k - 1);
    var s, u := run[k - 1], turns[k - 1];
    assert run[k - 1 + 1] == Step(s, u.t, u.a) && Enabled(s, u.t, u.a);
    if u.t == t {
      BringsStep(s, u);
      j := k - 1;
    } else {
      OthersTurn(s, u, t);
      j := CameBy(run, turns, n, k - 1, t);
    }
  }

  lemma {:induction false} StartsOutside(n: nat, t: nat)
    requires t < n
    ensures Init(n).threads[t] == Outside
  {
  }

  lemma {:induction false} OthersTurn(s: State, u: Turn, t: nat)
    requires Enabled(s, u.t, u.a) && u.t != t && t < |s.threads|
    ensures t < |Step(s, u.t, u.a).threads| && Step(s, u.t, u.a).threads[t] == s.threads[t]
  {
  }

  /** A lookup answers for the index it was asked for: the connection that stood in its slot
      when it looked, if that was referable, and nothing otherwise. */
  lemma {:induction false} LookupExact(run: seq<State>, turns: seq<Turn>, n: nat, k: nat, t: nat) returns (asked: nat, look: nat)
    requires Traced(run, turns, n) && k <= |turns| && t < n
    requires |run[k].threads| == n && run[k].threads[t].Leaving?
    ensures asked < look < k && turns[asked].t == t && turns[look] == Turn(t, Look)
    ensures turns[asked].a.Ask? && turns[asked].a.wish.ToLook?
    ensures run[k].threads[t].result == Findable(run[look], turns[asked].a.wish.index)
    ensures forall e :: asked < e < k && turns[e].t == t ==> turns[e].a.Enter? || turns[e].a.Look? || turns[e].a.Ref?
  {
    hide Findable, Step, Enabled;
    look := CameBy(run, turns, n, k, t);
    if run[k].threads[t].result.Some? {
      look := CameBy(run, turns, n, look, t);
    }
    var enter := CameBy(run, turns, n, look, t);
    asked := CameBy(run, turns, n, enter, t);
  }

  /* ---------- a whole life ---------- */

  function Solo(pc: Pc, held: multiset<nat>, slots: map<nat, nat>, refable: set<nat>, refs: map<nat, nat>, freed: set<nat>): State {
    State([pc], [held], slots, refable, refs, freed)
  }

  /** A connection is inserted, found, held and dropped, closed and not found any more,
      removed and freed. */
  function Scene(): seq<State> {
    var none, one := multiset{}, multiset{7};
    [ Solo(Outside, none, map[], {}, map[], {}),
      Solo(Blocked(ToInsert(1, 7)), none, map[], {}, map[], {}),
      Solo(Outside, none, map[1 := 7], {7}, map[7 := 0], {}),
      Solo(Blocked(ToLook(1)), none, map[1 := 7], {7}, map[7 := 0], {}),
      Solo(Looking(1), none, map[1 := 7], {7}, map[7 := 0], {}),
      Solo(Found(7), none, map[1 := 7], {7}, map[7 := 0], {}),
      Solo(Leaving(Some(7)), one, map[1 := 7], {7}, map[7 := 1], {}),
      Solo(Outside, one, map[1 := 7], {7}, map[7 := 1], {}),
      Solo(Outside, none, map[1 := 7], {7}, map[7 := 0], {}),
      Solo(Blocked(ToClose(7)), none, map[1 := 7], {7}, map[7 := 0], {}),
      Solo(Outside, none, map[1 := 7], {}, map[7 := 0], {}),
      Solo(Blocked(ToLook(1)), none, map[1 := 7], {}, map[7 := 0], {}),
      Solo(Looking(1), none, map[1 := 7], {}, map[7 := 0], {}),
      Solo(Leaving(None), none, map[1 := 7], {}, map[7 := 0], {}),
      Solo(Outside, none, map[1 := 7], {}, map[7 := 0], {}),
      Solo(Blocked(ToRemove(1)), none, map[1 := 7], {}, map[7 := 0], {}),
      Solo(Removing(1), none, map[1 := 7], {}, map[7 := 0], {}),
      Solo(Waiting(7), none, map[], {}, map[7 := 0], {}),
      Solo(Outside, none, map[], {}, map[], {7}) ]
  }

  function Script(): seq<Action> {
    [ Ask(ToInsert(1, 7)), Enter, Ask(ToLook(1)), Enter, Look, Ref, EndIndex, Unref(7), Ask(ToClose(7)), Enter,
      Ask(ToLook(1)), Enter, Look, EndIndex, Ask(ToRemove(1)), Enter, Clear, Free ]
  }

  predicate Plays(k: nat)
    requires k < 18
  {
    Enabled(Scene()[k], 0, Script()[k]) && Step(Scene()[k], 0, Script()[k]) == Scene()[k + 1]
  }

  lemma {:induction false} AsksToInsert()
    ensures Plays(0)
  {
  }

  lemma {:induction false} Inserted()
    ensures Plays(1)
  {
    assert map[][1 := 7] == map[1 := 7] && map[][7 := 0] == map[7 := 0] && {} + {7} == {7};
  }

  lemma {:induction false} AsksToLook()
    ensures Plays(2)
  {
  }

  lemma {:induction false} MayLook()
    ensures Plays(3)
  {
  }

  lemma {:induction false} LookedUp()
    ensures Plays(4)
  {
  }

  lemma {:induction false} Referenced()
    ensures Plays(5)
  {
    assert map[7 := 0][7 := 1] == map[7 := 1] && multiset{} + multiset{7} == multiset{7};
  }

  lemma {:induction false} Returned()
    ensures Plays(6)
  {
  }

  lemma {:induction false} Released()
    ensures Plays(7)
  {
    assert map[7 := 1][7 := 0] == map[7 := 0] && multiset{7} - multiset{7} == multiset{};
  }

  lemma {:induction false} AsksToClose()
    ensures Plays(8)
  {
  }

  lemma {:induction false} Closed()
    ensures Plays(9)
  {
    assert {7} - {7} == {};
  }

  lemma {:induction false} AsksAgain()
    ensures Plays(10)
  {
  }

  lemma {:induction false} MayLookAgain()
    ensures Plays(11)
  {
  }

  lemma {:induction false} NoLongerFound()
    ensures Plays(12)
  {
  }

  lemma {:induction false} NothingReturned()
    ensures Plays(13)
  {
  }

  lemma {:induction false} AsksToRemove()
    ensures Plays(14)
  {
  }

  lemma {:induction false} MayRemove()
    ensures Plays(15)
  {
  }

  lemma {:induction false} IsCleared()
    ensures Plays(16)
  {
    assert map[1 := 7] - {1} == map[];
  }

  lemma {:induction false} IsFreed()
    ensures Plays(17)
  {
    assert map[7 := 0] - {7} == map[] && {} + {7} == {7};
  }

  lemma {:induction false} AllPlay(k: nat)
    requires k < 18
    ensures Plays(k)
  {
    hide Plays;
    AsksToInsert();
    Inserted();
    AsksToLook();
    MayLook();
    LookedUp();
    Referenced();
    Returned();
    Released();
    AsksToClose();
    Closed();
    AsksAgain();
    MayLookAgain();
    NoLongerFound();
    NothingReturned();
    AsksToRemove();
    MayRemove();
    IsCleared();
    IsFreed();
  }

  lemma {:induction false} SceneMoments()
    ensures |Scene()| == 19 && |Script()| == 18 && Scene()[0] == Init(1)
    ensures Scene()[6].threads == [Leaving(Some(7))] && Scene()[7].held == [multiset{7}]
    ensures Scene()[13].threads == [Leaving(None)]
    ensures 7 in Scene()[18].freed && Scene()[18].slots == map[]
  {
    assert Scene()[0].threads == Init(1).threads && Scene()[0].held == Init(1).held;
  }

  /** One run through it all. */
  lemma {:induction false} WholeLife() returns (run: seq<State>, turns: seq<Turn>)
    ensures Traced(run, turns, 1) && |run| == 19
    ensures run[6].threads == [Leaving(Some(7))] && run[7].held == [multiset{7}]
    ensures run[13].threads == [Leaving(None)]
    ensures 7 in run[18].freed && run[18].slots == map[]
  {
    hide Step, Enabled, Scene, Script;
    SceneMoments();
    run, turns := Scene(), seq(18, k requires 0 <= k < 18 => Turn(0, Script()[k]));
    forall k | 0 <= k < 18
      ensures Enabled(run[k], turns[k].t, turns[k].a) && run[k + 1] == Step(run[k], turns[k].t, turns[k].a)
    {
      AllPlay(k);
    }
  }
}
