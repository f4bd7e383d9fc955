/** The serializer's central law: what is printed is parsed back, byte for byte. */
module RoundTrip {
  import opened Wrappers
  import opened Bytes
  import opened Schema
  import opened Wire
  import opened Skipper
  import opened Parser
  import opened Decoder
  import opened Printer

  /** Zeroed memory is ready for any contents. */
  lemma {:induction false} ReadyZero(f: Format, v: Value)
    requires Typed(f, v)
    ensures Ready(f, v, Zero(f))
    decreases f
  {
    match (f, v)
    case (FObj(fields), VObj(vs)) =>
      forall i | 0 <= i < |vs| ensures Ready(fields[i].fmt, vs[i], Members(Zero(f), |fields|)[i]) {
        ReadyZero(fields[i].fmt, vs[i]);
      }
    case (FFixArr(cap, elem), VFixArr(len, slots)) =>
      forall i | 0 <= i < len ensures Ready(elem, slots[i], Zero(elem)) {
        ReadyZero(elem, slots[i]);
      }
    case _ =>
  }

  /** Decoding the tree of some contents over ready memory rebuilds them, without a byte
      charged to unknown fields. */
  lemma {:induction false} DecodePrint(zeroed: bool, f: Format, v: Value, t: Value)
    requires Readable(f) && Storable(zeroed, f, v) && Ready(f, v, t)
    ensures Decode(zeroed, f, ToWire(f, v), t) == Good(Normal(f, v), 0)
    decreases f, 5
  {
    hide DecodeElems, DecodeMembers, DecodeEntries, ElemWires, EntryPairs, MemberPairs, Zero, GoodKey, Members, Slots, Live, StoreString;
    match (f, v)
    case (FObj(_), VObj(vs)) => DecodePrintObject(zeroed, f, vs, t);
    case (FArr(elem), VArr(es)) => DecodePrintArr(zeroed, elem, es);
    case (FFixArr(cap, elem), VFixArr(len, slots)) => DecodePrintFixArr(zeroed, cap, elem, len, slots, t);
    case (FTable(isint, elem), _) => DecodePrintTable(zeroed, isint, elem, v);
    case _ => DecodePrintLeaf(zeroed, f, v, t);
  }

  lemma {:induction false} DecodePrintLeaf(zeroed: bool, f: Format, v: Value, t: Value)
    requires f.IsLeaf() && Readable(f) && Storable(zeroed, f, v) && Ready(f, v, t)
    ensures Decode(zeroed, f, ToWire(f, v), t) == Good(Normal(f, v), 0)
  {
    hide DecodeElems, DecodeMembers, DecodeEntries, ElemWires, EntryPairs, MemberPairs, Zero, Members, Slots, Live;
    hide IntKind.Store, IntKind.Tag;
  }

  lemma {:induction false} DecodePrintObject(zeroed: bool, f: Format, vs: seq<Value>, t: Value)
    requires f.FObj? && Readable(f) && |vs| == |f.fields|
    requires forall i :: 0 <= i < |vs| ==> Storable(zeroed, f.fields[i].fmt, vs[i])
    requires forall i :: 0 <= i < |vs| ==> Ready(f.fields[i].fmt, vs[i], Members(t, |f.fields|)[i])
    ensures Decode(zeroed, f, ToWire(f, VObj(vs)), t) == Good(Normal(f, VObj(vs)), 0)
    decreases f, 1
  {
    hide DecodeMembers, Storable, Ready;
    DecodePrintMembers(zeroed, f, vs, Members(t, |f.fields|), 0);
    assert DecodeMembers(zeroed, f, MemberPairs(f, vs, 0), Members(t, |f.fields|)).v == Normal(f, VObj(vs)).vs;
  }

  /** What an array's tree means, given its elements. */
  lemma {:induction false} ArrayDecodes(zeroed: bool, f: Format, ws: seq<Wire>, t: Value)
    requires f.FArr? || (f.FFixArr? && |ws| <= f.cap)
    ensures var d := Decode(zeroed, f, WArr(f.FFixArr?, ws), t);
            if ws == [] then d == Good(t, 0)
            else if f.FArr? && t != VArr([]) then d.Bad?
            else
              var slots := if f.FArr? then Blank(|ws|, Zero(f.elem)) else Slots(t, f.cap);
              var r := DecodeElems(zeroed, f.elem, ws, slots, 0);
              if r.Bad? then d.Bad?
              else d == Good(if f.FArr? then VArr(r.v) else VFixArr(|ws|, r.v), r.extra)
  {
    hide DecodeElems, DecodeMembers, DecodeEntries, Slots, Zero, Blank;
  }

  /** The parts of a dynamic array: its tree, its normal form, its elements. */
  lemma {:induction false} ArrParts(elem: Format, es: seq<Value>)
    ensures ToWire(FArr(elem), VArr(es)) == WArr(false, ElemWires(elem, es))
    ensures var n := Normal(FArr(elem), VArr(es));
            n.VArr? && |n.es| == |es| && forall i :: 0 <= i < |es| ==> n.es[i] == Normal(elem, es[i])
    ensures Typed(FArr(elem), VArr(es)) ==> |es| < TWO32 && forall i :: 0 <= i < |es| ==> Typed(elem, es[i])
  {
  }

  lemma {:induction false} ArrStorable(zeroed: bool, elem: Format, es: seq<Value>, t: Value)
    ensures Ready(FArr(elem), VArr(es), t) <==> t == VArr([])
    ensures Storable(zeroed, FArr(elem), VArr(es)) <==>
            |es| < TWO32 && forall i :: 0 <= i < |es| ==> Storable(zeroed, elem, es[i])
  {
  }

  /** The parts of a fixed array. */
  lemma {:induction false} FixArrParts(cap: nat, elem: Format, len: nat, slots: seq<Value>)
    requires len <= cap == |slots|
    ensures ToWire(FFixArr(cap, elem), VFixArr(len, slots)) == WArr(true, ElemWires(elem, slots[..len]))
    ensures var n := Normal(FFixArr(cap, elem), VFixArr(len, slots));
            && n.VFixArr? && n.len == len && |n.slots| == cap
            && forall i :: 0 <= i < cap ==> n.slots[i] == if i < len then Normal(elem, slots[i]) else Zero(elem)
    ensures len == 0 ==> Normal(FFixArr(cap, elem), VFixArr(len, slots)) == Zero(FFixArr(cap, elem))
    ensures Typed(FFixArr(cap, elem), VFixArr(len, slots)) ==> len < TWO32 && forall i :: 0 <= i < len ==> Typed(elem, slots[i])
  {
    if len == 0 {
      assert Normal(FFixArr(cap, elem), VFixArr(len, slots)).slots == Blank(cap, Zero(elem));
    }
  }

  lemma {:induction false} DecodePrintArr(zeroed: bool, elem: Format, es: seq<Value>)
    requires Readable(elem) && |es| < TWO32 && forall i :: 0 <= i < |es| ==> Storable(zeroed, elem, es[i])
    ensures var f := FArr(elem);
            Decode(zeroed, f, ToWire(f, VArr(es)), VArr([])) == Good(Normal(f, VArr(es)), 0)
    decreases elem, 8
  {
    hide Decode, DecodeElems, Storable, Ready, Zero, ElemWires, Normal, ToWire, Typed;
    ArrParts(elem, es);
    ArrayDecodes(zeroed, FArr(elem), ElemWires(elem, es), VArr([]));
    if es != [] {
      forall i | 0 <= i < |es| ensures Ready(elem, es[i], Zero(elem)) {
        StorableTyped(zeroed, elem, es[i]);
        ReadyZero(elem, es[i]);
      }
      var slots := Blank(|es|, Zero(elem));
      DecodePrintElems(zeroed, elem, es, slots, 0);
      assert DecodeElems(zeroed, elem, ElemWires(elem, es), slots, 0).v == Normal(FArr(elem), VArr(es)).es;
    }
  }

  lemma {:induction false} DecodePrintFixArr(zeroed: bool, cap: nat, elem: Format, len: nat, slots: seq<Value>, t: Value)
    requires Readable(elem) && len <= cap == |slots|
    requires forall i :: 0 <= i < len ==> Storable(zeroed, elem, slots[i])
    requires len == 0 ==> t == Zero(FFixArr(cap, elem))
    requires len > 0 ==> forall i :: 0 <= i < cap ==>
      if i < len then Ready(elem, slots[i], Slots(t, cap)[i]) else Slots(t, cap)[i] == Zero(elem)
    ensures var f := FFixArr(cap, elem);
            Decode(zeroed, f, ToWire(f, VFixArr(len, slots)), t) == Good(Normal(f, VFixArr(len, slots)), 0)
    decreases elem, 8
  {
    hide Decode, DecodeElems, Storable, Ready, Readable, Slots, ElemWires, Normal, ToWire, Typed, Zero;
    FixArrParts(cap, elem, len, slots);
    var f, v, ts := FFixArr(cap, elem), VFixArr(len, slots), Slots(t, cap);
    ArrayDecodes(zeroed, f, ElemWires(elem, slots[..len]), t);
    if len != 0 {
      DecodePrintElems(zeroed, elem, slots[..len], ts, 0);
      assert DecodeElems(zeroed, elem, ElemWires(elem, slots[..len]), ts, 0).v == Normal(f, v).slots;
    }
  }

  lemma {:induction false} DecodePrintElems(zeroed: bool, e: Format, es: seq<Value>, slots: seq<Value>, i: nat)
    requires i + |es| <= |slots| && Readable(e)
    requires forall j :: 0 <= j < |es| ==> Storable(zeroed, e, es[j])
    requires forall j :: 0 <= j < |es| ==> Ready(e, es[j], slots[i + j])
    ensures var r := DecodeElems(zeroed, e, ElemWires(e, es), slots, i);
            && r.Good? && r.extra == 0
            && (forall j :: 0 <= j < |es| ==> r.v[i + j] == Normal(e, es[j]))
            && (forall k :: 0 <= k < i || i + |es| <= k < |slots| ==> r.v[k] == slots[k])
    decreases e, 7, |es|
  {
    hide Decode, DecodeElems, ElemWires, ToWire, Storable, Ready, Normal, Readable;
    if es == [] {
      NoElems(zeroed, e, slots, i);
    } else {
      assert slots[i] == slots[i + 0];
      DecodePrint(zeroed, e, es[0], slots[i]);
      var rest, slots' := es[1..], slots[i := Normal(e, es[0])];
      forall j | 0 <= j < |rest|
        ensures Ready(e, rest[j], slots'[i + 1 + j])
      {
        assert rest[j] == es[j + 1] && slots'[i + 1 + j] == slots[i + (j + 1)];
      }
      DecodePrintElems(zeroed, e, rest, slots', i + 1);
      FirstElem(zeroed, e, es, slots, i, Normal(e, es[0]));
      var r := DecodeElems(zeroed, e, ElemWires(e, es), slots, i);
      forall j | 0 <= j < |es|
        ensures r.v[i + j] == Normal(e, es[j])
      {
        if j > 0 {
          assert r.v[i + 1 + (j - 1)] == Normal(e, rest[j - 1]);
        }
      }
    }
  }

  lemma {:induction false} NoElems(zeroed: bool, e: Format, slots: seq<Value>, i: nat)
    requires i <= |slots|
    ensures DecodeElems(zeroed, e, ElemWires(e, []), slots, i) == Good(slots, 0)
  {
  }

  lemma {:induction false} FirstElem(zeroed: bool, e: Format, es: seq<Value>, slots: seq<Value>, i: nat, v: Value)
    requires es != [] && i + |es| <= |slots|
    requires Decode(zeroed, e, ToWire(e, es[0]), slots[i]) == Good(v, 0)
    ensures DecodeElems(zeroed, e, ElemWires(e, es), slots, i) ==
            DecodeElems(zeroed, e, ElemWires(e, es[1..]), slots[i := v], i + 1)
  {
    hide Decode, ToWire;
    assert ElemWires(e, es)[1..] == ElemWires(e, es[1..]);
  }

  lemma {:induction false} DecodePrintMembers(zeroed: bool, f: Format, vs: seq<Value>, ts: seq<Value>, i: nat)
    requires f.FObj? && |vs| == |f.fields| == |ts| && i <= |vs| && Readable(f)
    requires forall j :: 0 <= j < |vs| ==> Storable(zeroed, f.fields[j].fmt, vs[j])
    requires forall j :: i <= j < |vs| ==> Ready(f.fields[j].fmt, vs[j], ts[j])
    ensures var r := DecodeMembers(zeroed, f, MemberPairs(f, vs, i), ts);
            && r.Good? && r.extra == 0
            && forall k :: 0 <= k < |ts| ==> r.v[k] == if i <= k then Normal(f.fields[k].fmt, vs[k]) else ts[k]
    decreases f, 0, |vs| - i
  {
    hide DecodeMember, Storable, Ready, Normal, ToWire;
    if i < |vs| {
      var pr := MemberPair(f, vs, i);
      DecodePrintMember(zeroed, f, vs, ts, i);
      DecodePrintMembers(zeroed, f, vs, ts[i := Normal(f.fields[i].fmt, vs[i])], i + 1);
      var ps := MemberPairs(f, vs, i);
      assert ps[0] == pr && ps[1..] == MemberPairs(f, vs, i + 1);
    }
  }

  lemma {:induction false} DecodePrintMember(zeroed: bool, f: Format, vs: seq<Value>, ts: seq<Value>, i: nat)
    requires f.FObj? && |vs| == |f.fields| == |ts| && i < |vs|
    requires CKeys(f) && KeyFits(f.fields[i].key) && Readable(f.fields[i].fmt)
    requires Storable(zeroed, f.fields[i].fmt, vs[i]) && Ready(f.fields[i].fmt, vs[i], ts[i])
    ensures FieldOf(f, MemberPair(f, vs, i)) == i
    ensures DecodeMember(zeroed, f, MemberPair(f, vs, i), ts) == Good(ts[i := Normal(f.fields[i].fmt, vs[i])], 0)
    decreases f, 0, 0
  {
    hide Storable, Ready, Normal, Decode, ToWire, Readable;
    DecodePrint(zeroed, f.fields[i].fmt, vs[i], ts[i]);
  }

  lemma {:induction false} DecodePrintTable(zeroed: bool, isint: bool, elem: Format, v: Value)
    requires Readable(elem) && Storable(zeroed, FTable(isint, elem), v)
    ensures var f := FTable(isint, elem);
            Decode(zeroed, f, ToWire(f, v), VNull) == Good(Normal(f, v), 0)
    decreases elem, 8
  {
    hide Ready, Readable, DecodeEntries, EntryPairs, Normal;
    var f := FTable(isint, elem);
    var entries := if v.VTable? then v.entries else [];
    DecodePrintEntries(zeroed, f, entries, []);
    NormalTable(f, v);
    assert [] + Normal(f, v).entries == Normal(f, v).entries;
  }

  lemma {:induction false} NormalTable(f: Format, v: Value)
    requires f.FTable? && (v.VTable? || v == VNull)
    ensures Normal(f, v).VTable? && Normal(f, v) == Normal(f, VTable(if v.VTable? then v.entries else []))
    ensures v == VNull ==> EntryPairs(f, []) == []
  {
    if v == VNull {
      assert Normal(f, VTable([])).entries == [];
    }
  }

  lemma {:induction false} NormalEntries(f: Format, entries: seq<Entry>)
    requires f.FTable?
    ensures Normal(f, VTable(entries)).VTable?
    ensures Normal(f, VTable(entries)).entries ==
            if entries == [] then []
            else [Entry(entries[0].key, Normal(f.elem, entries[0].val))] + Normal(f, VTable(entries[1..])).entries
  {
  }

  /** The keys of `entries` differ from each other and from those of `done`. */
  predicate KeysApart(done: seq<Entry>, entries: seq<Entry>) {
    (forall i, j :: 0 <= i < j < |entries| ==> entries[i].key != entries[j].key)
    && forall d <- done, e <- entries :: d.key != e.key
  }

  lemma {:induction false} DecodePrintEntries(zeroed: bool, f: Format, entries: seq<Entry>, done: seq<Entry>)
    requires f.FTable? && Readable(f.elem)
    requires KeysApart(done, entries)
    requires forall i :: 0 <= i < |entries| ==>
      GoodKey(f.isint, entries[i].key)
      && Storable(zeroed, f.elem, entries[i].val)
      && Ready(f.elem, entries[i].val, HashInit(zeroed, f.elem))
    requires !f.isint ==> |done| + |entries| <= 1
    ensures DecodeEntries(zeroed, f, EntryPairs(f, entries), done)
         == Good(done + Normal(f, VTable(entries)).entries, 0)
    decreases f.elem, 7, |entries|
  {
    hide *;
    NormalEntries(f, entries);
    if entries == [] {
      NoEntries(zeroed, f, done);
      assert done + [] == done;
    } else {
      var e, rest := entries[0], entries[1..];
      var e' := Entry(e.key, Normal(f.elem, e.val));
      EnterApart(entries, done, e');
      DecodePrintEntry(zeroed, f, e, done);
      FirstEntry(zeroed, f, entries, done);
      NormalEntries(f, rest);
      assert forall i :: 0 <= i < |rest| ==> rest[i] == entries[i + 1];
      DecodePrintEntries(zeroed, f, rest, done + [e']);
      OneBehind(done, e', Normal(f, VTable(rest)).entries);
    }
  }

  lemma {:induction false} OneBehind(done: seq<Entry>, e: Entry, rest: seq<Entry>)
    ensures done + ([e] + rest) == (done + [e]) + rest
  {
  }

  lemma {:induction false} NoEntries(zeroed: bool, f: Format, done: seq<Entry>)
    requires f.FTable?
    ensures EntryPairs(f, []) == [] && DecodeEntries(zeroed, f, EntryPairs(f, []), done) == Good(done, 0)
  {
  }

  lemma {:induction false} FirstEntry(zeroed: bool, f: Format, entries: seq<Entry>, done: seq<Entry>)
    requires f.FTable? && entries != []
    requires var r := DecodeEntry(zeroed, f, EntryPair(f, entries[0]), done); r.Good? && r.extra == 0
    ensures DecodeEntries(zeroed, f, EntryPairs(f, entries), done) ==
            DecodeEntries(zeroed, f, EntryPairs(f, entries[1..]), DecodeEntry(zeroed, f, EntryPair(f, entries[0]), done).v)
  {
    hide DecodeEntry, EntryPair;
    var ps := EntryPairs(f, entries);
    assert ps[0] == EntryPair(f, entries[0]) && ps[1..] == EntryPairs(f, entries[1..]);
  }

  lemma {:induction false} EnterApart(entries: seq<Entry>, done: seq<Entry>, e: Entry)
    requires KeysApart(done, entries) && entries != [] && e.key == entries[0].key
    ensures KeysApart(done + [e], entries[1..])
    ensures forall d <- done :: d.key != e.key
  {
    forall d, x | d in done + [e] && x in entries[1..] ensures d.key != x.key {
      var i :| 0 <= i < |entries[1..]| && entries[1..][i] == x;
      assert entries[i + 1] == x && x in entries;
    }
  }

  lemma {:induction false} DecodePrintEntry(zeroed: bool, f: Format, e: Entry, done: seq<Entry>)
    requires f.FTable? && Readable(f.elem) && GoodKey(f.isint, e.key)
    requires Storable(zeroed, f.elem, e.val) && Ready(f.elem, e.val, HashInit(zeroed, f.elem))
    requires forall d <- done :: d.key != e.key
    requires !f.isint ==> done == []
    ensures DecodeEntry(zeroed, f, EntryPair(f, e), done) == Good(done + [Entry(e.key, Normal(f.elem, e.val))], 0)
    decreases f.elem, 6
  {
    hide Decode, Ready, Readable, Storable, ToWire, Normal, Insert, HashInit;
    DecodePrint(zeroed, f.elem, e.val, HashInit(zeroed, f.elem));
    assert EntryKey(f.isint, KeyWire(e.key), done) == Some(e.key);
  }

  /** Round trip anywhere: parsing a printed value, over memory that is ready for it and
      with any announced length that covers it, rebuilds it, consumes its bytes and
      skips nothing. */
  lemma {:induction false} RoundTripAt(zeroed: bool, s: seq<byte>, f: Format, v: Value, t: Value, p: nat, b: nat)
    requires Readable(f) && Storable(zeroed, f, v) && Ready(f, v, t)
    requires At(s, p, Print(f, v)) && |Print(f, v)| <= b < TWO32
    ensures ParseVal(zeroed, s, f, t, p, b) == Done(|Print(f, v)|, Normal(f, v), 0)
  {
    hide *;
    StorableTyped(zeroed, f, v);
    PrintSpells(f, v);
    DecodePrint(zeroed, f, v, t);
    ParseText(zeroed, s, f, ToWire(f, v), t, p, b);
  }

  /** Round trip: `serialize_parse` on a printed value followed by anything, into zeroed
      memory. */
  lemma {:induction false} RoundTrip(zeroed: bool, f: Format, v: Value, rest: seq<byte>)
    requires Readable(f) && Storable(zeroed, f, v) && |Print(f, v) + rest| < TWO32
    ensures ParseVal(zeroed, Print(f, v) + rest, f, Zero(f), 0, |Print(f, v) + rest|)
         == Done(|Print(f, v)|, Normal(f, v), 0)
  {
    hide Print, Readable, Storable, Zero, Normal, ParseVal;
    StorableTyped(zeroed, f, v);
    ReadyZero(f, v);
    assert At(Print(f, v) + rest, 0, Print(f, v));
    RoundTripAt(zeroed, Print(f, v) + rest, f, v, Zero(f), 0, |Print(f, v) + rest|);
  }

  /** Printing is injective and prefix-free under each schema: if one text begins with
      another, they are the same text and stand for the same contents. */
  lemma {:induction false} PrefixFree(zeroed: bool, f: Format, v: Value, w: Value)
    requires Readable(f) && Storable(zeroed, f, v) && Storable(zeroed, f, w)
    requires Print(f, v) <= Print(f, w) && |Print(f, w)| < TWO32
    ensures Print(f, v) == Print(f, w) && Normal(f, v) == Normal(f, w)
  {
    hide Print, Readable, Storable, Zero, Normal, ParseVal;
    var rest := Print(f, w)[|Print(f, v)|..];
    assert Print(f, w) == Print(f, v) + rest && Print(f, w) == Print(f, w) + [];
    RoundTrip(zeroed, f, v, rest);
    RoundTrip(zeroed, f, w, []);
  }

  /** `serialize_parse_object` on `serialize_string_object`'s output: the fields are
      rebuilt and all bytes consumed, provided what follows does not look like a key. */
  lemma {:induction false} ObjectRoundTrip(zeroed: bool, f: Format, vs: seq<Value>, rest: seq<byte>)
    requires f.FObj? && Readable(f) && Storable(zeroed, f, VObj(vs))
    requires |PrintMembers(f, vs, 0) + rest| < TWO32
    requires |rest| <= 2 || rest[0] != 115 || rest[1] != COLON
    ensures var text := PrintMembers(f, vs, 0) + rest;
            ParseObject(zeroed, text, f, Zero(f).vs, 0, |text|) ==
            Reached(|PrintMembers(f, vs, 0)|, Normal(f, VObj(vs)).vs, 0)
  {
    hide ParseObject, PrintMembers, DecodeMembers, Readable, Ready;
    var text, ps, ts := PrintMembers(f, vs, 0) + rest, MemberPairs(f, vs, 0), Zero(f).vs;
    StorableTyped(zeroed, f, VObj(vs));
    PrintSpellsMembers(f, vs, 0);
    ReadyZero(f, VObj(vs));
    ReadyMembers(f, vs, Zero(f));
    DecodePrintMembers(zeroed, f, vs, ts, 0);
    assert DecodeMembers(zeroed, f, ps, ts).v == Normal(f, VObj(vs)).vs;
    assert At(text, 0, PairsText(ps));
    ParseMembersText(zeroed, text, f, ps, ts, 0, |text|);
    ParseObjectStops(zeroed, text, f, DecodeMembers(zeroed, f, ps, ts).v, |PairsText(ps)|, |rest|);
  }

  lemma {:induction false} ReadyMembers(f: Format, vs: seq<Value>, t: Value)
    requires f.FObj? && |vs| == |f.fields| && Ready(f, VObj(vs), t)
    ensures forall i :: 0 <= i < |vs| ==> Ready(f.fields[i].fmt, vs[i], Members(t, |f.fields|)[i])
  {
  }

  /** The skipper steps over a printed value exactly when no char in it is a semicolon,
      whatever brackets and semicolons its strings hold. */
  lemma {:induction false} SkipPrinted(f: Format, v: Value, rest: seq<byte>)
    requires Typed(f, v) && |Print(f, v) + rest| < TWO32
    ensures Skip(Print(f, v) + rest, 0, |Print(f, v) + rest|) == |Print(f, v)| <==> NoSemiChar(ToWire(f, v))
  {
    hide Print, Typed, ToWire, Skip;
    PrintSpells(f, v);
    assert At(Print(f, v) + rest, 0, Print(f, v));
    SkipText(Print(f, v) + rest, ToWire(f, v), 0, |Print(f, v) + rest|);
  }
}
