/** The index table of `conn.c`: connections get the index that was freed first, or one
    past the live count when none is free. */
module Allocator {
  import opened Wrappers
  import opened Queues

  /** The live count, the freed indices in order, and the connection at each live index. */
  datatype Alloc<C> = Alloc(connNum: nat, free: seq<nat>, table: map<nat, C>)

  function Empty<C>(): Alloc<C> { Alloc(0, [], map[]) }

  /** The index the next connection gets. */
  function NextIndex<C>(a: Alloc<C>): nat {
    if a.free != [] then a.free[0] else a.connNum + 1
  }

  function Insert<C>(a: Alloc<C>, c: C): Alloc<C> {
    Alloc(a.connNum + 1, if a.free != [] then a.free[1..] else [], a.table[NextIndex(a) := c])
  }

  function Remove<C>(a: Alloc<C>, index: nat): Alloc<C>
    requires a.connNum > 0
  {
    Alloc(a.connNum - 1, a.free + [index], a.table - {index})
  }

  /** The number of indices ever handed out. */
  function High<C>(a: Alloc<C>): nat { |a.table| + |a.free| }

  /** Live and free indices are disjoint, free ones appear once, both together are exactly
      1..High, and the live count is right. */
  ghost predicate Inv<C>(a: Alloc<C>) {
    && a.connNum == |a.table|
    && (forall j, k :: 0 <= j < k < |a.free| ==> a.free[j] != a.free[k])
    && (forall i :: i in a.free ==> i !in a.table)
    && (forall i: nat :: i in a.table || i in a.free <==> 1 <= i <= High(a))
  }

  /** The index handed out is live for nobody else, even the one computed from the count. */
  lemma {:induction false} FreshIndex<C>(a: Alloc<C>)
    requires Inv(a)
    ensures NextIndex(a) !in a.table && NextIndex(a) >= 1
    ensures NextIndex(a) <= High(a) <==> a.free != []
  {
    if a.free == [] {
      assert !(NextIndex(a) <= High(a));
    } else {
      assert a.free[0] in a.free;
    }
  }

  lemma {:induction false} InsertInv<C>(a: Alloc<C>, c: C)
    requires Inv(a)
    ensures Inv(Insert(a, c))
    ensures High(Insert(a, c)) == if a.free == [] then a.connNum + 1 else High(a)
  {
    FreshIndex(a);
    var b := Insert(a, c);
    assert |b.table| == |a.table| + 1;
    if a.free != [] {
      assert a.free == [a.free[0]] + a.free[1..];
      assert forall i :: i in a.free <==> i == a.free[0] || i in b.free;
    }
  }

  lemma {:induction false} RemoveInv<C>(a: Alloc<C>, index: nat)
    requires Inv(a) && index in a.table
    ensures a.connNum > 0
    ensures Inv(Remove(a, index)) && High(Remove(a, index)) == High(a)
  {
    var t := a.table - {index};
    assert t[index := a.table[index]] == a.table;
    var b := Remove(a, index);
    assert forall i :: i in b.free <==> i in a.free || i == index;
  }

  datatype Op<C> = Ins(conn: C) | Rem(index: nat)

  /** Removal is asked for live connections only. */
  predicate Legal<C>(a: Alloc<C>, op: Op<C>) {
    op.Rem? ==> op.index in a.table && a.connNum > 0
  }

  function Apply<C>(a: Alloc<C>, op: Op<C>): Alloc<C>
    requires Legal(a, op)
  {
    if op.Ins? then Insert(a, op.conn) else Remove(a, op.index)
  }

  predicate AllLegal<C>(a: Alloc<C>, ops: seq<Op<C>>)
    decreases |ops|
  {
    ops == [] || (Legal(a, ops[0]) && AllLegal(Apply(a, ops[0]), ops[1..]))
  }

  function Run<C>(a: Alloc<C>, ops: seq<Op<C>>): Alloc<C>
    requires AllLegal(a, ops)
    decreases |ops|
  {
    if ops == [] then a else Run(Apply(a, ops[0]), ops[1..])
  }

  function Max(x: nat, y: nat): nat { if x < y then y else x }

  /** The most connections that were live at one time. */
  function Peak<C>(a: Alloc<C>, ops: seq<Op<C>>): nat
    requires AllLegal(a, ops)
    decreases |ops|
  {
    if ops == [] then a.connNum else Max(a.connNum, Peak(Apply(a, ops[0]), ops[1..]))
  }

  /** After any run the invariant holds, and the indices in use are no more than the most
      connections that were ever live together. */
  lemma {:induction false} HighWater<C>(a: Alloc<C>, ops: seq<Op<C>>)
    requires Inv(a) && AllLegal(a, ops)
    ensures Inv(Run(a, ops))
    ensures High(Run(a, ops)) == Max(High(a), Peak(a, ops))
    decreases |ops|
  {
    if ops != [] {
      hide Inv;
      ApplyInv(a, ops[0]);
      HighWater(Apply(a, ops[0]), ops[1..]);
    }
  }

  lemma {:induction false} ApplyInv<C>(a: Alloc<C>, op: Op<C>)
    requires Inv(a) && Legal(a, op)
    ensures Inv(Apply(a, op)) && a.connNum <= High(a)
    ensures High(Apply(a, op)) == Max(High(a), Apply(a, op).connNum)
  {
    if op.Ins? {
      InsertInv(a, op.conn);
    } else {
      RemoveInv(a, op.index);
    }
  }

  /** Of a table of `slots` entries numbered from 1, every run that keeps at most `slots`
      connections live uses no other entry, and uses the last one exactly when that many
      connections were live together. */
  lemma {:induction false} SlotsUsed<C>(ops: seq<Op<C>>, slots: nat)
    requires AllLegal(Empty<C>(), ops) && Peak(Empty<C>(), ops) <= slots
    ensures var a := Run(Empty<C>(), ops);
            && (forall i :: i in a.table || i in a.free ==> 1 <= i <= slots)
            && (slots > 0 ==> (slots in a.table || slots in a.free <==> Peak(Empty<C>(), ops) == slots))
  {
    hide Run, Peak, AllLegal;
    HighWater(Empty<C>(), ops);
  }

  /** The indices freed, and those taken back from the queue, in order. */
  function Freed<C>(ops: seq<Op<C>>): seq<nat> {
    if ops == [] then [] else (if ops[0].Rem? then [ops[0].index] else []) + Freed(ops[1..])
  }

  function Reused<C>(a: Alloc<C>, ops: seq<Op<C>>): seq<nat>
    requires AllLegal(a, ops)
    decreases |ops|
  {
    if ops == [] then []
    else (if ops[0].Ins? && a.free != [] then [NextIndex(a)] else []) + Reused(Apply(a, ops[0]), ops[1..])
  }

  /** Indices are reused in the order they were freed; none is lost or doubled. */
  lemma {:induction false} FirstFreedFirst<C>(a: Alloc<C>, ops: seq<Op<C>>)
    requires AllLegal(a, ops)
    ensures a.free + Freed(ops) == Reused(a, ops) + Run(a, ops).free
    decreases |ops|
  {
    if ops != [] {
      var b := Apply(a, ops[0]);
      FirstFreedFirst(b, ops[1..]);
      var rest, reused, left := Freed(ops[1..]), Reused(b, ops[1..]), Run(b, ops[1..]).free;
      hide Freed, Reused, Run, AllLegal, Legal;
      if ops[0].Rem? {
        Regroup([], [ops[0].index], a.free, rest, reused, left);
      } else if a.free != [] {
        Regroup([NextIndex(a)], [], b.free, rest, reused, left);
      } else {
        Regroup([], [], [], rest, reused, left);
      }
      FreedReusedStep(a, ops);
    }
  }

  lemma {:induction false} FreedReusedStep<C>(a: Alloc<C>, ops: seq<Op<C>>)
    requires ops != [] && AllLegal(a, ops)
    ensures Freed(ops) == (if ops[0].Rem? then [ops[0].index] else []) + Freed(ops[1..])
    ensures Reused(a, ops) ==
            (if ops[0].Ins? && a.free != [] then [NextIndex(a)] else []) + Reused(Apply(a, ops[0]), ops[1..])
    ensures Run(a, ops) == Run(Apply(a, ops[0]), ops[1..])
  {
  }

  lemma {:induction false} Regroup(taken: seq<nat>, freed: seq<nat>, free: seq<nat>, rest: seq<nat>, reused: seq<nat>, left: seq<nat>)
    requires free + freed + rest == reused + left
    ensures (taken + free) + (freed + rest) == (taken + reused) + left
  {
    assert (taken + free) + (freed + rest) == taken + (free + freed + rest);
  }

  /** The connections in a slot array, by index. */
  ghost function Entries(slots: seq<Conn?>): map<nat, Conn> {
    map i: nat | i < |slots| && slots[i] != null :: slots[i]
  }

  lemma {:induction false} EntriesSet(slots: seq<Conn?>, i: nat, c: Conn)
    requires i < |slots|
    ensures Entries(slots[i := c]) == Entries(slots)[i := c]
    ensures Entries(slots[i := null]) == Entries(slots) - {i}
    ensures slots[i] != null ==> i in Entries(slots) && Entries(slots)[i] == slots[i]
  {
  }

  lemma {:induction false} InsideSlots<C>(a: Alloc<C>, c: C, slots: nat)
    requires Inv(a) && High(a) < slots && a.connNum + 1 < slots
    ensures NextIndex(a) < slots && High(Insert(a, c)) < slots && Inv(Insert(a, c))
  {
    InsertInv(a, c);
    if a.free != [] {
      assert a.free[0] in a.free;
    }
  }

  class Conn {
    var index: nat
    var refable: bool
    var refs: nat

    constructor ()
      ensures refs == 0 && !refable
    {
      index, refable, refs := 0, false, 0;
    }
  }

  /** The globals `iconns`, `conn_num` and `iqueue`, one call at a time. */
  class Table {
    const slots: array<Conn?>
    var connNum: nat
    const iqueue: Queue<nat>

    ghost function Model(): Alloc<Conn>
      reads this, slots, iqueue, iqueue.spine
    {
      Alloc(connNum, iqueue.Contents(), Entries(slots[..]))
    }

    ghost predicate Indexed()
      reads slots, set i | 0 <= i < slots.Length && slots[i] != null :: slots[i]
    {
      forall i :: 0 <= i < slots.Length && slots[i] != null ==> slots[i].index == i
    }

    ghost predicate Valid()
      reads this, slots, iqueue, iqueue.spine, set i | 0 <= i < slots.Length && slots[i] != null :: slots[i]
    {
      iqueue.Valid() && Inv(Model()) && High(Model()) < slots.Length && Indexed()
    }

    /** Slots 1..maxclients are usable. */
    constructor (maxclients: nat)
      ensures Valid() && Model() == Empty() && slots.Length == maxclients + 1
      ensures fresh(slots) && fresh(iqueue) && fresh(iqueue.spine)
    {
      slots := new Conn?[maxclients + 1](_ => null);
      connNum := 0;
      iqueue := new Queue();
      new;
      assert Model().table == map[];
    }

    /** Counts the connection and picks its index. */
    method NewIndex() returns (i: nat)
      requires iqueue.Valid()
      modifies this`connNum, iqueue
      ensures connNum == old(connNum) + 1 && iqueue.Valid() && (forall n :: n in iqueue.spine ==> n in old(iqueue.spine))
      ensures i == if old(iqueue.Contents()) != [] then old(iqueue.Contents())[0] else connNum
      ensures iqueue.Contents() == if old(iqueue.Contents()) != [] then old(iqueue.Contents())[1..] else []
    {
      hide Queue.Valid, Queue.Contents;
      connNum := connNum + 1;
      var index := iqueue.Pop();
      i := if index.Some? then index.value else connNum;
    }

    /** Enters the connection under its index. */
    method Place(ptr: Conn, i: nat)
      requires Indexed() && i < slots.Length && ptr !in slots[..]
      modifies slots, ptr
      ensures Indexed() && slots[..] == old(slots[..])[i := ptr]
      ensures ptr.index == i && ptr.refable && ptr.refs == old(ptr.refs)
    {
      ptr.index := i;
      slots[i] := ptr;
      ptr.refable := true;
      assert forall k :: 0 <= k < slots.Length && k != i ==> slots[k] == old(slots[..])[k];
    }

    method InsertConn(ptr: Conn)
      requires Valid() && ptr !in slots[..]
      requires connNum + 1 < slots.Length
      modifies this, slots, iqueue, ptr
      ensures Valid()
      ensures Model() == Insert(old(Model()), ptr)
      ensures ptr.index == NextIndex(old(Model())) && ptr.refable && ptr.refs == old(ptr.refs)
    {
      hide Inv, High, Entries, Data, Queue.Valid, Queue.Contents, Indexed;
      ghost var a := Model();
      InsideSlots(a, ptr, slots.Length);
      var i := NewIndex();
      EntriesSet(slots[..], i, ptr);
      Place(ptr, i);
    }

    /** The part before the wait for the reference count. */
    method RemoveConn(ptr: Conn)
      requires Valid() && ptr in slots[..]
      modifies this, slots, iqueue, iqueue.spine
      ensures ptr.index in old(Model()).table && old(connNum) > 0
      ensures Valid()
      ensures Model() == Remove(old(Model()), ptr.index)
    {
      hide Inv, High, Entries, Data, Queue.Valid, Queue.Contents;
      ghost var a := Model();
      assert slots[ptr.index] == ptr;
      EntriesSet(slots[..], ptr.index, ptr);
      RemoveInv(a, ptr.index);
      connNum := connNum - 1;
      slots[ptr.index] := null;
      assert slots[..] == old(slots[..])[ptr.index := null];
      iqueue.Push(ptr.index);
    }

    /** A referenced connection, or nothing when the slot is empty or closing. */
    method IndexConn(index: nat) returns (found: Option<Conn>)
      requires Valid() && index < slots.Length
      modifies set i | 0 <= i < slots.Length && slots[i] != null :: slots[i]
      ensures Valid() && Model() == old(Model())
      ensures found == if index in old(Model()).table && old(Model().table[index].refable)
                       then Some(old(Model()).table[index]) else None
      ensures found.Some? ==> found.value.refs == old(found.value.refs) + 1
      ensures forall i :: i in Model().table && Some(Model().table[i]) != found ==>
                Model().table[i].refs == old(Model().table[i].refs)
    {
      found := None;
      var ptr := slots[index];
      if ptr != null && ptr.refable {
        assert Model().table[index] == ptr;
        ptr.refs := ptr.refs + 1;
        found := Some(ptr);
      }
    }
  }
}
