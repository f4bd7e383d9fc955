/** The sliding counters of `bench_event.c`: a counter drained every second into a ring of
    the last ten samples, with a running sum, minimum and maximum. */
module Statistics {
  const SECONDS: nat := 10
  const UINT: nat := 0x1_0000_0000

  function Sum(s: seq<nat>): nat {
    if s == [] then 0 else s[0] + Sum(s[1..])
  }

  lemma {:induction false} SumConcat(s: seq<nat>, t: seq<nat>)
    ensures Sum(s + t) == Sum(s) + Sum(t)
    decreases |s|
  {
    if s == [] {
      assert s + t == t;
    } else {
      assert (s + t)[1..] == s[1..] + t;
      SumConcat(s[1..], t);
    }
  }

  function Zeros(n: nat): (s: seq<nat>)
    ensures |s| == n && (forall i :: 0 <= i < n ==> s[i] == 0) && Sum(s) == 0
  {
    if n == 0 then [] else [0] + Zeros(n - 1)
  }

  /** The last ten samples, or all when there are fewer. */
  function Recent(samples: seq<nat>): seq<nat> {
    if |samples| <= SECONDS then samples else samples[|samples| - SECONDS..]
  }

  /** The same with zeros for the seconds before the phase. */
  function Window(samples: seq<nat>): (w: seq<nat>)
    ensures |w| == SECONDS && Sum(w) == Sum(Recent(samples))
  {
    if |samples| <= SECONDS then
      SumConcat(Zeros(SECONDS - |samples|), samples);
      Zeros(SECONDS - |samples|) + samples
    else
      samples[|samples| - SECONDS..]
  }

  /** Ten seconds are kept, in 32-bit words. */
  lemma {:induction false} LastTen(samples: seq<nat>)
    ensures Recent(samples) == if |samples| <= 10 then samples else samples[|samples| - 10..]
    ensures |Window(samples)| == 10 && forall i :: 0 <= i < 10 ==>
              Window(samples)[i] == if i + |samples| < 10 then 0 else samples[i + |samples| - 10]
    ensures UINT == 4294967296 && Least([]) == 4294967295 && Greatest([]) == 0
  {
  }

  function Least(samples: seq<nat>): nat {
    if samples == [] then UINT - 1
    else var m, x := Least(samples[..|samples| - 1]), samples[|samples| - 1]; if m < x then m else x
  }

  function Greatest(samples: seq<nat>): nat {
    if samples == [] then 0
    else var m, x := Greatest(samples[..|samples| - 1]), samples[|samples| - 1]; if m > x then m else x
  }

  /** Least and Greatest are bounds, and are reached as soon as there is a sample. */
  lemma {:induction false} Extremes(samples: seq<nat>)
    requires forall i :: 0 <= i < |samples| ==> samples[i] < UINT
    ensures forall i :: 0 <= i < |samples| ==> Least(samples) <= samples[i] <= Greatest(samples)
    ensures samples != [] ==> Least(samples) in samples && Greatest(samples) in samples
    decreases |samples|
  {
    if samples != [] {
      var front, last := samples[..|samples| - 1], samples[|samples| - 1];
      assert forall i :: 0 <= i < |front| ==> samples[i] == front[i];
      Extremes(front);
      if |front| > 0 {
        assert Least(front) in samples && Greatest(front) in samples;
      }
      assert last in samples;
    }
  }

  /** A new sample pushes the oldest one out. */
  lemma {:induction false} Slide(samples: seq<nat>, x: nat)
    ensures Window(samples + [x]) == Window(samples)[1..] + [x]
    ensures Sum(Recent(samples + [x])) == Sum(Recent(samples)) - Window(samples)[0] + x
  {
    var w, w' := Window(samples), Window(samples + [x]);
    if |samples| < SECONDS {
      assert Zeros(SECONDS - |samples|)[1..] == Zeros(SECONDS - |samples| - 1);
    }
    assert w' == w[1..] + [x];
    SumConcat(w[1..], [x]);
  }

  /** The order the ring is written in, oldest sample first. */
  function Unrolled(ring: seq<nat>, index: nat): seq<nat>
    requires index < |ring|
  {
    ring[index..] + ring[..index]
  }

  lemma {:induction false} UnrolledSum(ring: seq<nat>, index: nat)
    requires index < |ring|
    ensures Sum(Unrolled(ring, index)) == Sum(ring)
  {
    SumConcat(ring[index..], ring[..index]);
    SumConcat(ring[..index], ring[index..]);
    assert ring[..index] + ring[index..] == ring;
  }

  lemma {:induction false} Newest(samples: seq<nat>, x: nat)
    ensures Sum(samples + [x]) == Sum(samples) + x
    ensures Least(samples + [x]) == if Least(samples) < x then Least(samples) else x
    ensures Greatest(samples + [x]) == if Greatest(samples) > x then Greatest(samples) else x
  {
    SumConcat(samples, [x]);
    assert (samples + [x])[..|samples|] == samples;
  }

  /** Writing at the index and moving it on drops the oldest entry. */
  lemma {:induction false} Rotate(ring: seq<nat>, index: nat, x: nat)
    requires |ring| == SECONDS && index < SECONDS
    ensures Unrolled(ring[index := x], (index + 1) % SECONDS) == Unrolled(ring, index)[1..] + [x]
  {
  }

  /** Unsigned subtraction and addition stay right modulo the word, though the sum wraps. */
  lemma {:induction false} Subtract(total: nat, oldest: nat, newest: nat)
    requires oldest < UINT && oldest <= total
    ensures ((total % UINT + UINT - oldest) % UINT + newest) % UINT == (total - oldest + newest) % UINT
  {
    var q := total / UINT;
    assert total == q * UINT + total % UINT;
  }

  /** What the fields hold after the samples drained and the increments counted so far. */
  ghost predicate Consistent(ring: seq<nat>, index: nat, requests: nat, sum: nat, min: nat, max: nat,
                             samples: seq<nat>, counted: nat)
  {
    && |ring| == SECONDS && index == |samples| % SECONDS && requests < UINT
    && (forall i :: 0 <= i < |samples| ==> samples[i] < UINT)
    && Unrolled(ring, index) == Window(samples)
    && sum == Sum(Recent(samples)) % UINT
    && min == Least(samples) && max == Greatest(samples)
    && (Sum(samples) + requests) % UINT == counted % UINT
  }

  lemma {:induction false} FreshConsistent(ring: seq<nat>)
    requires ring == Zeros(SECONDS)
    ensures Consistent(ring, 0, 0, 0, UINT - 1, 0, [], 0)
  {
    assert Unrolled(ring, 0) == Window([]);
  }

  lemma {:induction false} IncrementConsistent(ring: seq<nat>, index: nat, requests: nat, sum: nat, min: nat, max: nat,
                                               samples: seq<nat>, counted: nat)
    requires Consistent(ring, index, requests, sum, min, max, samples, counted)
    ensures Consistent(ring, index, (requests + 1) % UINT, sum, min, max, samples, counted + 1)
  {
    hide Unrolled, Window, Sum, Recent, Least, Greatest;
    OneMore(Sum(samples), requests, counted);
  }

  lemma {:induction false} OneMore(total: nat, requests: nat, counted: nat)
    requires (total + requests) % UINT == counted % UINT && requests < UINT
    ensures (total + (requests + 1) % UINT) % UINT == (counted + 1) % UINT
  {
    var q, r := (total + requests) / UINT, counted / UINT;
    assert total + requests == q * UINT + counted % UINT && counted == r * UINT + counted % UINT;
  }

  /** Draining the counter into the ring keeps everything consistent, though the unsigned
      sum wraps. */
  lemma {:induction false} TickConsistent(ring: seq<nat>, index: nat, requests: nat, sum: nat, min: nat, max: nat,
                                          samples: seq<nat>, counted: nat)
    requires Consistent(ring, index, requests, sum, min, max, samples, counted)
    ensures index < |ring|
    ensures Consistent(ring[index := requests], (index + 1) % SECONDS, 0,
                       ((sum + UINT - ring[index]) % UINT + requests) % UINT,
                       if min < requests then min else requests, if max > requests then max else requests,
                       samples + [requests], counted)
  {
    hide Window, Sum, Recent, Least, Greatest;
    Slide(samples, requests);
    Oldest(samples);
    assert Unrolled(ring, index)[0] == ring[index];
    Subtract(Sum(Recent(samples)), ring[index], requests);
    Rotate(ring, index, requests);
    Newest(samples, requests);
  }

  lemma {:induction false} Oldest(samples: seq<nat>)
    requires forall i :: 0 <= i < |samples| ==> samples[i] < UINT
    ensures Window(samples)[0] < UINT && Window(samples)[0] <= Sum(Recent(samples))
  {
    var w := Window(samples);
    assert w == [w[0]] + w[1..];
  }

  /** One of the two counters with its statistics. */
  class Counter {
    const ring: array<nat>
    var index: nat
    var requests: nat
    var sum: nat
    var min: nat
    var max: nat
    ghost var samples: seq<nat> // drained since the phase began
    ghost var counted: nat      // increments since the phase began

    ghost predicate Valid()
      reads this, ring
    {
      Consistent(ring[..], index, requests, sum, min, max, samples, counted)
    }

    constructor ()
      ensures Valid() && fresh(ring) && samples == [] && counted == 0
    {
      ring := new nat[SECONDS](_ => 0);
      index, requests, sum, min, max := 0, 0, 0, UINT - 1, 0;
      samples, counted := [], 0;
      new;
      FreshConsistent(ring[..]);
    }

    /** A new phase. */
    method Reset()
      requires Valid()
      modifies this, ring
      ensures Valid() && samples == [] && counted == 0
    {
      assert ring.Length == SECONDS;
      hide Consistent;
      requests, sum, min, max, index := 0, 0, UINT - 1, 0, 0;
      forall i | 0 <= i < ring.Length { ring[i] := 0; }
      samples, counted := [], 0;
      FreshConsistent(ring[..]);
    }

    /** An answer, counted atomically. */
    method Increment()
      requires Valid()
      modifies this
      ensures Valid() && samples == old(samples) && counted == old(counted) + 1
    {
      hide Consistent;
      IncrementConsistent(ring[..], index, requests, sum, min, max, samples, counted);
      requests := (requests + 1) % UINT;
      counted := counted + 1;
    }

    /** One second: the counter is drained and becomes the newest sample. */
    method Tick() returns (drained: nat)
      requires Valid()
      modifies this, ring
      ensures Valid() && drained == old(requests) && requests == 0 && counted == old(counted)
      ensures samples == old(samples) + [drained]
    {
      hide Consistent;
      TickConsistent(ring[..], index, requests, sum, min, max, samples, counted);
      drained := requests;
      requests := 0;
      sum := (sum + UINT - ring[index]) % UINT;
      sum := (sum + drained) % UINT;
      min := if min < drained then min else drained;
      max := if max > drained then max else drained;
      ring[index] := drained;
      assert ring[..] == old(ring[..])[index := drained];
      index := (index + 1) % SECONDS;
      samples := samples + [drained];
    }

    /** What the display line is made of: the sum of the ring and of the last ten samples,
        and the bounds of all samples of the phase; nothing counted is lost. */
    method Report() returns (total: nat, least: nat, greatest: nat)
      requires Valid()
      ensures total == Sum(Recent(samples)) % UINT == Sum(ring[..]) % UINT
      ensures forall i :: 0 <= i < |samples| ==> least <= samples[i] <= greatest
      ensures samples != [] ==> least in samples && greatest in samples
      ensures samples == [] ==> least == UINT - 1 && greatest == 0
      ensures (Sum(samples) + requests) % UINT == counted % UINT
    {
      total, least, greatest := sum, min, max;
      UnrolledSum(ring[..], index);
      Extremes(samples);
    }
  }
}
