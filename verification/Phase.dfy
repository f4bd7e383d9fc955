/** One worker of `bench_event.c` within a phase: the connections it drives, what it counts,
    and when it tells the main thread that it is done. */
module Phase {
  import opened Counting

  /** A connection with that many requests answered; one whose last answer came; one closed
      before that, and one closed after it. */
  datatype Link = Busy(requests: nat) | Done | Gone | Late

  datatype Work = Work(links: seq<Link>, close: nat, complete: nat, sent: nat)

  datatype Event = Answer(link: nat) | Close(link: nat)

  predicate Possible(w: Work, e: Event) {
    && e.link < |w.links|
    && (e.Answer? ==> w.links[e.link].Busy?)
    && (e.Close? ==> w.links[e.link].Busy? || w.links[e.link].Done?)
  }

  /** The equality test after each count. */
  function Tested(w: Work): Work {
    if w.close + w.complete == |w.links| then w.(sent := w.sent + 1) else w
  }

  /** An answer sends the next request until `perConn` are answered; a close is counted. */
  function React(w: Work, e: Event, perConn: nat): Work
    requires Possible(w, e)
  {
    var link := w.links[e.link];
    match e
    case Answer(i) =>
      if link.requests + 1 < perConn then w.(links := w.links[i := Busy(link.requests + 1)])
      else Tested(w.(links := w.links[i := Done], complete := w.complete + 1))
    case Close(i) =>
      Tested(w.(links := w.links[i := if link.Done? then Late else Gone], close := w.close + 1))
  }

  predicate IsBusy(l: Link) { l.Busy? }

  predicate IsClosed(l: Link) { l.Gone? || l.Late? }

  predicate IsComplete(l: Link) { l.Done? || l.Late? }

  predicate IsLate(l: Link) { l.Late? }

  /** The begin byte: every open connection starts over with its first request. */
  predicate Begun(w: Work) {
    && (forall i :: 0 <= i < |w.links| ==> w.links[i] == Gone || w.links[i] == Busy(0))
    && w.close == Count(w.links, IsClosed) && w.complete == 0
    && w.sent == if w.close == |w.links| then 1 else 0
  }

  ghost predicate Inv(w: Work) {
    && w.close == Count(w.links, IsClosed)
    && w.complete == Count(w.links, IsComplete)
    && Count(w.links, IsClosed) + Count(w.links, IsComplete) + Count(w.links, IsBusy) ==
       |w.links| + Count(w.links, IsLate)
    && w.sent == if w.close + w.complete >= |w.links| then 1 else 0
  }

  lemma {:induction false} Partition(links: seq<Link>)
    ensures Count(links, IsClosed) + Count(links, IsComplete) + Count(links, IsBusy) == |links| + Count(links, IsLate)
    decreases |links|
  {
    if links != [] {
      Partition(links[1..]);
    }
  }

  lemma {:induction false} BegunInv(w: Work)
    requires Begun(w)
    ensures Inv(w) && Count(w.links, IsLate) == 0
  {
    hide Count;
    Partition(w.links);
    CountNone(w.links, IsComplete);
    CountNone(w.links, IsLate);
  }

  lemma {:induction false} ReactInv(w: Work, e: Event, perConn: nat)
    requires Inv(w) && Possible(w, e)
    ensures Inv(React(w, e, perConn))
  {
    hide Count;
    var link := React(w, e, perConn).links[e.link];
    CountUpdate(w.links, e.link, link, IsClosed);
    CountUpdate(w.links, e.link, link, IsComplete);
    Partition(React(w, e, perConn).links);
  }

  predicate AllPossible(w: Work, events: seq<Event>, perConn: nat)
    decreases |events|
  {
    events == [] || (Possible(w, events[0]) && AllPossible(React(w, events[0], perConn), events[1..], perConn))
  }

  function Run(w: Work, events: seq<Event>, perConn: nat): Work
    requires AllPossible(w, events, perConn)
    decreases |events|
  {
    if events == [] then w else Run(React(w, events[0], perConn), events[1..], perConn)
  }

  lemma {:induction false} RunInv(w: Work, events: seq<Event>, perConn: nat)
    requires Inv(w) && AllPossible(w, events, perConn)
    ensures Inv(Run(w, events, perConn)) && |Run(w, events, perConn).links| == |w.links|
    decreases |events|
  {
    hide Inv;
    if events != [] {
      ReactInv(w, events[0], perConn);
      RunInv(React(w, events[0], perConn), events[1..], perConn);
    }
  }

  /** Whatever happens in a phase, the worker has told the main thread exactly when at least
      as many connections closed after completing as are still busy; so it has told, once,
      if no connection is busy, and if none closed after completing, only then. */
  lemma {:induction false} TellsWhenDone(w: Work, events: seq<Event>, perConn: nat)
    requires Begun(w) && AllPossible(w, events, perConn)
    ensures var v := Run(w, events, perConn);
            && v.sent <= 1
            && (v.sent == 1 <==> Count(v.links, IsBusy) <= Count(v.links, IsLate))
            && (Count(v.links, IsLate) == 0 ==>
                  (v.sent == 1 <==> forall i :: 0 <= i < |v.links| ==> !v.links[i].Busy?))
  {
    hide Count;
    BegunInv(w);
    RunInv(w, events, perConn);
    var v := Run(w, events, perConn);
    if Count(v.links, IsLate) == 0 {
      if Count(v.links, IsBusy) > 0 {
        var i := CountWitness(v.links, IsBusy);
        assert v.links[i].Busy?;
      } else {
        forall i | 0 <= i < |v.links|
          ensures !v.links[i].Busy?
        {
          if v.links[i].Busy? { CountMember(v.links, i, IsBusy); }
        }
      }
    }
  }

  /** The byte that is written finds every connection finished exactly when none has closed
      after completing. */
  lemma {:induction false} ByteMeansFinished(w: Work, events: seq<Event>, perConn: nat, e: Event)
    requires Begun(w) && AllPossible(w, events, perConn)
    requires Possible(Run(w, events, perConn), e)
    requires Run(w, events, perConn).sent == 0 && React(Run(w, events, perConn), e, perConn).sent == 1
    ensures var v := React(Run(w, events, perConn), e, perConn);
            && Count(v.links, IsBusy) == Count(v.links, IsLate)
            && ((forall i :: 0 <= i < |v.links| ==> !v.links[i].Busy?) <==> Count(v.links, IsLate) == 0)
  {
    hide Count;
    BegunInv(w);
    RunInv(w, events, perConn);
    ReactInv(Run(w, events, perConn), e, perConn);
    var v := React(Run(w, events, perConn), e, perConn);
    if Count(v.links, IsBusy) > 0 {
      var i := CountWitness(v.links, IsBusy);
      assert v.links[i].Busy?;
    }
    forall i | 0 <= i < |v.links| && v.links[i].Busy?
      ensures Count(v.links, IsBusy) > 0
    {
      CountMember(v.links, i, IsBusy);
    }
  }

  /** How often a connection is answered in a phase. */
  function Answers(events: seq<Event>, i: nat): nat {
    if events == [] then 0 else (if events[0] == Answer(i) then 1 else 0) + Answers(events[1..], i)
  }

  /** The answers a connection takes to complete; the first request is sent in any case. */
  function Quota(perConn: nat): nat { if perConn < 1 then 1 else perConn }

  /** A connection from any point of the phase on: it takes answers up to its quota, is done
      exactly with the last of them, and a close leaves it closed after completing or before. */
  lemma {:induction false} LinkRun(w: Work, events: seq<Event>, perConn: nat, i: nat)
    requires AllPossible(w, events, perConn) && i < |w.links|
    requires w.links[i].Busy? ==> w.links[i].requests < Quota(perConn)
    ensures var v := Run(w, events, perConn);
            && |v.links| == |w.links|
            && match w.links[i]
               case Busy(r) =>
                 var answered := r + Answers(events, i);
                 && answered <= Quota(perConn)
                 && v.links[i] == if Close(i) in events then (if answered == Quota(perConn) then Late else Gone)
                                  else if answered == Quota(perConn) then Done else Busy(answered)
               case Done => Answers(events, i) == 0 && v.links[i] == if Close(i) in events then Late else Done
               case _ => Answers(events, i) == 0 && Close(i) !in events && v.links[i] == w.links[i]
    decreases |events|
  {
    if events != [] {
      LinkRun(React(w, events[0], perConn), events[1..], perConn, i);
      assert Close(i) in events <==> events[0] == Close(i) || Close(i) in events[1..];
    }
  }

  /** After any events of a phase a connection that has not closed is done if and only if it
      was answered as often as the phase asks for, and otherwise waits with exactly its
      answers counted. */
  lemma {:induction false} AnsweredExactly(w: Work, events: seq<Event>, perConn: nat, i: nat)
    requires Begun(w) && AllPossible(w, events, perConn) && i < |w.links| && w.links[i] != Gone && Close(i) !in events
    ensures var v := Run(w, events, perConn);
            && |v.links| == |w.links|
            && Answers(events, i) <= Quota(perConn)
            && (v.links[i] == Done <==> Answers(events, i) == Quota(perConn))
            && (v.links[i] != Done ==> v.links[i] == Busy(Answers(events, i)))
  {
    hide Run, AllPossible;
    LinkRun(w, events, perConn, i);
  }

  /** So a phase comes to its end: once every connection is answered that often or closed
      before, the worker has written its byte, once. */
  lemma {:induction false} AllAnswered(w: Work, events: seq<Event>, perConn: nat)
    requires Begun(w) && AllPossible(w, events, perConn)
    requires forall i :: 0 <= i < |w.links| && w.links[i] != Gone ==> Answers(events, i) == Quota(perConn) || Close(i) in events
    ensures Run(w, events, perConn).sent == 1
  {
    hide Run, AllPossible, Count;
    var v := Run(w, events, perConn);
    forall i | 0 <= i < |w.links| ensures |v.links| == |w.links| && !v.links[i].Busy? { LinkRun(w, events, perConn, i); }
    BegunInv(w);
    RunInv(w, events, perConn);
    CountNone(v.links, IsBusy);
  }

  /** A connection that closes after completing is counted twice: the worker reports with
      the other connection still waiting for its answer. */
  lemma {:induction false} CountedTwice()
    ensures var w := Work([Busy(0), Busy(0)], 0, 0, 0);
            && Begun(w)
            && AllPossible(w, [Answer(0), Close(0)], 1)
            && Run(w, [Answer(0), Close(0)], 1) == Work([Late, Busy(0)], 1, 1, 1)
  {
    var w := Work([Busy(0), Busy(0)], 0, 0, 0);
    CountNone(w.links, IsClosed);
    var events := [Answer(0), Close(0)];
    assert events[1..] == [Close(0)] && [Close(0)][1..] == [];
    var w1 := React(w, Answer(0), 1);
    assert w1 == Work([Done, Busy(0)], 0, 1, 0);
    assert AllPossible(w1, [Close(0)], 1);
    assert React(w1, Close(0), 1) == Work([Late, Busy(0)], 1, 1, 1);
    assert Run(w1, [Close(0)], 1) == Work([Late, Busy(0)], 1, 1, 1);
  }

  /** The worker's fields and its connection table, updated in place. */
  class Worker {
    const conns: array<Link>
    var closeNum: nat
    var completeNum: nat
    var sent: nat

    constructor (made: nat)
      ensures conns.Length == made && fresh(conns) && closeNum == 0 && completeNum == 0 && sent == 0
      ensures forall i :: 0 <= i < made ==> conns[i] == Done
    {
      conns := new Link[made](_ => Done);
      closeNum, completeNum, sent := 0, 0, 0;
    }

    ghost function Model(): Work
      reads this, conns
    {
      Work(conns[..], closeNum, completeNum, sent)
    }

    /** Every open connection is sent its first request. */
    method BeginPhase()
      requires closeNum == Count(conns[..], IsClosed)
      modifies this, conns
      ensures Begun(Model())
      ensures forall i :: 0 <= i < conns.Length ==> IsClosed(conns[i]) == old(IsClosed(conns[i]))
    {
      hide Count;
      completeNum := 0;
      sent := if closeNum == conns.Length then 1 else 0;
      var i := 0;
      while i < conns.Length
        invariant 0 <= i <= conns.Length
        invariant forall j :: 0 <= j < i ==> conns[j] == if IsClosed(old(conns[j])) then Gone else Busy(0)
        invariant forall j :: i <= j < conns.Length ==> conns[j] == old(conns[j])
        invariant closeNum == old(closeNum) && completeNum == 0
        invariant sent == if closeNum == conns.Length then 1 else 0
      {
        conns[i] := if conns[i].Gone? || conns[i].Late? then Gone else Busy(0);
        i := i + 1;
      }
      SameCount(old(conns[..]), conns[..]);
    }

    method OnAnswer(i: nat, perConn: nat)
      requires Possible(Model(), Answer(i))
      modifies this, conns
      ensures Model() == React(old(Model()), Answer(i), perConn)
    {
      var requests := conns[i].requests + 1;
      if requests < perConn {
        conns[i] := Busy(requests);
      } else {
        conns[i] := Done;
        completeNum := completeNum + 1;
        Tell();
      }
    }

    method OnClose(i: nat)
      requires Possible(Model(), Close(i))
      modifies this, conns
      ensures forall perConn: nat :: Model() == React(old(Model()), Close(i), perConn)
    {
      conns[i] := if conns[i].Done? then Late else Gone;
      closeNum := closeNum + 1;
      Tell();
    }

    /** Tells the main thread when all connections are accounted for. */
    method Tell()
      modifies this
      ensures Model() == Tested(old(Model()))
    {
      if closeNum + completeNum == conns.Length {
        sent := sent + 1;
      }
    }
  }

  lemma {:induction false} SameCount(before: seq<Link>, after: seq<Link>)
    requires |before| == |after|
    requires forall i :: 0 <= i < |before| ==> IsClosed(before[i]) == IsClosed(after[i])
    ensures Count(before, IsClosed) == Count(after, IsClosed)
    decreases |before|
  {
    if before != [] {
      SameCount(before[1..], after[1..]);
    }
  }
}
