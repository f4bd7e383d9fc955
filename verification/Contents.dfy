/** The round trip up to the unused slots of fixed arrays: which contents come back from
    their print, over which memory, where what an array holds beyond its length does not
    count. */
module Contents {
  import opened Bytes
  import opened Schema
  import opened Parser
  import opened Decoder
  import opened Printer
  import opened RoundTrip
  import opened Exact
  import opened Canonical
  import Limits

  /** The same contents: equal but for unused slots. */
  predicate Same(f: Format, x: Value, v: Value) {
    Normal(f, x) == Normal(f, v)
  }

  /** What a reader of the print of `v` over the memory `t` needs to end with the same
      contents: strings and dynamic arrays find a null pointer, an empty fixed string or
      array finds itself, and so for each part the parser writes. */
  predicate Regained(zeroed: bool, f: Format, v: Value, t: Value)
    decreases f
  {
    match (f, v)
    case (FStr, _) => t == VStr([])
    case (FFixStr(_), VFixStr(bytes)) => bytes == [] ==> t == VFixStr([])
    case (FObj(fields), VObj(vs)) =>
      |vs| == |fields| ==>
        forall i :: 0 <= i < |vs| ==> Regained(zeroed, fields[i].fmt, vs[i], Members(t, |fields|)[i])
    case (FArr(elem), VArr(es)) =>
      t == VArr([]) && forall i :: 0 <= i < |es| ==> Regained(zeroed, elem, es[i], Zero(elem))
    case (FFixArr(cap, elem), VFixArr(len, slots)) =>
      if len == 0 then t.VFixArr? && t.len == 0
      else len <= cap == |slots| ==> forall i :: 0 <= i < len ==> Regained(zeroed, elem, slots[i], Slots(t, cap)[i])
    case (FTable(isint, elem), VTable(entries)) =>
      && t == VNull && (!isint ==> |entries| <= 1)
      && forall i :: 0 <= i < |entries| ==>
           GoodKey(isint, entries[i].key) && Regained(zeroed, elem, entries[i].val, HashInit(zeroed, elem))
    case (FTable(_, _), _) => t == VNull
    case _ => true
  }

  /* ---------- the same contents, part by part ---------- */

  lemma {:induction false} SameObject(f: Format, xs: seq<Value>, vs: seq<Value>)
    requires f.FObj? && |xs| == |vs| == |f.fields|
    ensures Same(f, VObj(xs), VObj(vs)) <==> forall i :: 0 <= i < |vs| ==> Same(f.fields[i].fmt, xs[i], vs[i])
  {
    var ns, ms := Normal(f, VObj(xs)).vs, Normal(f, VObj(vs)).vs;
    assert forall i :: 0 <= i < |vs| ==> ns[i] == Normal(f.fields[i].fmt, xs[i]) && ms[i] == Normal(f.fields[i].fmt, vs[i]);
    if forall i :: 0 <= i < |vs| ==> Same(f.fields[i].fmt, xs[i], vs[i]) {
      assert ns == ms;
    }
  }

  lemma {:induction false} SameArr(elem: Format, xs: seq<Value>, es: seq<Value>)
    requires |xs| == |es|
    ensures Same(FArr(elem), VArr(xs), VArr(es)) <==> forall i :: 0 <= i < |es| ==> Same(elem, xs[i], es[i])
  {
    hide Normal;
    ArrParts(elem, xs);
    ArrParts(elem, es);
    var ns, ms := Normal(FArr(elem), VArr(xs)).es, Normal(FArr(elem), VArr(es)).es;
    if forall i :: 0 <= i < |es| ==> Same(elem, xs[i], es[i]) {
      assert ns == ms;
    }
  }

  lemma {:induction false} SameFixArr(cap: nat, elem: Format, len: nat, xs: seq<Value>, slots: seq<Value>)
    requires len <= cap == |slots| == |xs|
    ensures Same(FFixArr(cap, elem), VFixArr(len, xs), VFixArr(len, slots)) <==>
            forall i :: 0 <= i < len ==> Same(elem, xs[i], slots[i])
  {
    hide Normal, Zero;
    FixArrParts(cap, elem, len, xs);
    FixArrParts(cap, elem, len, slots);
    var ns, ms := Normal(FFixArr(cap, elem), VFixArr(len, xs)).slots, Normal(FFixArr(cap, elem), VFixArr(len, slots)).slots;
    if forall i :: 0 <= i < len ==> Same(elem, xs[i], slots[i]) {
      assert ns == ms;
    }
  }

  /** The same entries in the same order. */
  predicate SameEntries(elem: Format, xs: seq<Entry>, entries: seq<Entry>) {
    |xs| == |entries| && forall i :: 0 <= i < |entries| ==> xs[i].key == entries[i].key && Same(elem, xs[i].val, entries[i].val)
  }

  lemma {:induction false} SameTable(f: Format, xs: seq<Entry>, entries: seq<Entry>)
    requires f.FTable?
    ensures Same(f, VTable(xs), VTable(entries)) <==> SameEntries(f.elem, xs, entries)
  {
    var ns, ms := Normal(f, VTable(xs)).entries, Normal(f, VTable(entries)).entries;
    assert forall i :: 0 <= i < |xs| ==> ns[i] == Entry(xs[i].key, Normal(f.elem, xs[i].val));
    assert forall i :: 0 <= i < |entries| ==> ms[i] == Entry(entries[i].key, Normal(f.elem, entries[i].val));
    if SameEntries(f.elem, xs, entries) {
      assert ns == ms;
    }
  }

  /* ---------- what is decoded is the same exactly when it is regained ---------- */

  /** The tree of typed contents is read to the same contents, with nothing charged to
      unknown fields, exactly over memory from which they are regained. */
  lemma {:induction false} DecodesSame(zeroed: bool, f: Format, v: Value, t: Value)
    requires Readable(f) && Typed(f, v)
    ensures var r := Decode(zeroed, f, ToWire(f, v), t);
            r.Good? && r.extra == 0 && Same(f, r.v, v) <==> Regained(zeroed, f, v, t)
    decreases f, 5
  {
    hide Decode, Regained, ToWire, Same, Normal, GoodKey, TypedKey;
    match (f, v)
    case (FObj(_), VObj(vs)) => ObjectSame(zeroed, f, vs, t);
    case (FArr(elem), VArr(es)) => ArrSame(zeroed, elem, es, t);
    case (FFixArr(cap, elem), VFixArr(len, slots)) => FixArrSame(zeroed, cap, elem, len, slots, t);
    case (FTable(_, _), VTable(entries)) => TableSame(zeroed, f, entries, t);
    case (FTable(_, _), VNull) => NullSame(zeroed, f, t);
    case _ => LeafSame(zeroed, f, v, t);
  }

  lemma {:induction false} NullSame(zeroed: bool, f: Format, t: Value)
    requires f.FTable?
    ensures var r := Decode(zeroed, f, ToWire(f, VNull), t);
            r.Good? && r.extra == 0 && Same(f, r.v, VNull) <==> Regained(zeroed, f, VNull, t)
  {
    hide EntryPairs, GoodKey;
    SameTable(f, [], []);
  }

  lemma {:induction false} LeafSame(zeroed: bool, f: Format, v: Value, t: Value)
    requires f.IsLeaf() && Typed(f, v)
    ensures var r := Decode(zeroed, f, ToWire(f, v), t);
            r.Good? && r.extra == 0 && Same(f, r.v, v) <==> Regained(zeroed, f, v, t)
  {
    hide DecodeElems, DecodeMembers, DecodeEntries, ElemWires, MemberPairs, EntryPairs, Zero, HashInit, Slots, Members;
    hide GoodKey, TypedKey, Normal;
    forall x ensures Same(f, x, v) <==> x == v { SameLeaf(f, x, v); }
  }

  lemma {:induction false} SameLeaf(f: Format, x: Value, v: Value)
    requires f.IsLeaf()
    ensures Same(f, x, v) <==> x == v
  {
  }

  lemma {:induction false} ObjectSame(zeroed: bool, f: Format, vs: seq<Value>, t: Value)
    requires f.FObj? && Readable(f) && Typed(f, VObj(vs))
    ensures var r := Decode(zeroed, f, ToWire(f, VObj(vs)), t);
            r.Good? && r.extra == 0 && Same(f, r.v, VObj(vs)) <==> Regained(zeroed, f, VObj(vs), t)
    decreases f, 4
  {
    hide *;
    ObjectRegained(zeroed, f, vs, t);
    ObjectDecodes(zeroed, f, vs, t);
    var ts := Members(t, |f.fields|);
    MembersSame(zeroed, f, vs, ts, 0);
    var r := DecodeMembers(zeroed, f, MemberPairs(f, vs, 0), ts);
    if r.Good? {
      SameObject(f, r.v, vs);
    }
  }

  lemma {:induction false} ObjectRegained(zeroed: bool, f: Format, vs: seq<Value>, t: Value)
    requires f.FObj? && Typed(f, VObj(vs))
    ensures |vs| == |f.fields| && forall i :: 0 <= i < |vs| ==> Typed(f.fields[i].fmt, vs[i])
    ensures Regained(zeroed, f, VObj(vs), t) <==>
            forall i :: 0 <= i < |vs| ==> Regained(zeroed, f.fields[i].fmt, vs[i], Members(t, |f.fields|)[i])
  {
    hide Members;
  }

  lemma {:induction false} ObjectDecodes(zeroed: bool, f: Format, vs: seq<Value>, t: Value)
    requires f.FObj? && Readable(f) && |vs| == |f.fields|
    ensures var r := DecodeMembers(zeroed, f, MemberPairs(f, vs, 0), Members(t, |f.fields|));
            Decode(zeroed, f, ToWire(f, VObj(vs)), t) == if r.Bad? then Bad else Good(VObj(r.v), r.extra)
  {
    hide DecodeMembers, Members;
  }

  lemma {:induction false} MembersSame(zeroed: bool, f: Format, vs: seq<Value>, ts: seq<Value>, i: nat)
    requires f.FObj? && Readable(f) && |vs| == |f.fields| == |ts| && i <= |vs|
    requires forall j :: 0 <= j < |vs| ==> Typed(f.fields[j].fmt, vs[j])
    ensures var r := DecodeMembers(zeroed, f, MemberPairs(f, vs, i), ts);
            && (r.Good? ==> forall k :: 0 <= k < i ==> r.v[k] == ts[k])
            && (r.Good? && r.extra == 0 && (forall k :: i <= k < |vs| ==> Same(f.fields[k].fmt, r.v[k], vs[k])) <==>
                  forall k :: i <= k < |vs| ==> Regained(zeroed, f.fields[k].fmt, vs[k], ts[k]))
    decreases f, 3, |vs| - i
  {
    hide Decode, DecodeMember, Regained, Same, Normal, ToWire, Typed, Readable;
    if i < |vs| {
      var pr, ps := MemberPair(f, vs, i), MemberPairs(f, vs, i);
      assert ps[0] == pr && ps[1..] == MemberPairs(f, vs, i + 1);
      MemberDecodes(zeroed, f, vs, ts, i);
      MemberField(f, vs, i);
      DecodesSame(zeroed, f.fields[i].fmt, vs[i], ts[i]);
      var d := Decode(zeroed, f.fields[i].fmt, pr.val, ts[i]);
      if d.Good? {
        MembersSame(zeroed, f, vs, ts[i := d.v], i + 1);
      }
    }
  }

  lemma {:induction false} ArrSame(zeroed: bool, elem: Format, es: seq<Value>, t: Value)
    requires Readable(elem) && Typed(FArr(elem), VArr(es))
    ensures var f, v := FArr(elem), VArr(es);
            var r := Decode(zeroed, f, ToWire(f, v), t);
            r.Good? && r.extra == 0 && Same(f, r.v, v) <==> Regained(zeroed, f, v, t)
    decreases elem, 8
  {
    ArrRegained(zeroed, elem, es, t);
    hide Decode, DecodeElems, Zero, ElemWires, Readable, Regained, Typed, Normal, ToWire, Same;
    ArrParts(elem, es);
    ArrayDecodes(zeroed, FArr(elem), ElemWires(elem, es), t);
    if es == [] {
      OnlyEmpty(elem, t);
    } else if t == VArr([]) {
      var slots := Blank(|es|, Zero(elem));
      AllSame(zeroed, elem, es, slots);
      var r := DecodeElems(zeroed, elem, ElemWires(elem, es), slots, 0);
      if r.Good? {
        SameArr(elem, r.v, es);
      }
    }
  }

  lemma {:induction false} ArrRegained(zeroed: bool, elem: Format, es: seq<Value>, t: Value)
    ensures Regained(zeroed, FArr(elem), VArr(es), t) <==>
            t == VArr([]) && forall i :: 0 <= i < |es| ==> Regained(zeroed, elem, es[i], Zero(elem))
  {
  }

  lemma {:induction false} OnlyEmpty(elem: Format, t: Value)
    ensures Same(FArr(elem), t, VArr([])) <==> t == VArr([])
  {
    if t.VArr? { assert |Normal(FArr(elem), t).es| == |t.es|; }
  }

  lemma {:induction false} FixArrSame(zeroed: bool, cap: nat, elem: Format, len: nat, slots: seq<Value>, t: Value)
    requires len <= cap == |slots| && Readable(elem) && Typed(FFixArr(cap, elem), VFixArr(len, slots))
    ensures var f, v := FFixArr(cap, elem), VFixArr(len, slots);
            var r := Decode(zeroed, f, ToWire(f, v), t);
            r.Good? && r.extra == 0 && Same(f, r.v, v) <==> Regained(zeroed, f, v, t)
    decreases elem, 8
  {
    hide *;
    FixArrRegained(zeroed, cap, elem, len, slots, t);
    FixArrParts(cap, elem, len, slots);
    var f, es, ts := FFixArr(cap, elem), slots[..len], Slots(t, cap);
    ArrayDecodes(zeroed, f, ElemWires(elem, es), t);
    if len > 0 {
      AllSame(zeroed, elem, es, ts);
      var r := DecodeElems(zeroed, elem, ElemWires(elem, es), ts, 0);
      if r.Good? {
        SameFixArr(cap, elem, len, r.v, slots);
        assert forall i :: 0 <= i < len ==> slots[..len][i] == slots[i];
      }
    } else {
      NoneHeld(cap, elem, slots, t);
    }
  }

  lemma {:induction false} FixArrRegained(zeroed: bool, cap: nat, elem: Format, len: nat, slots: seq<Value>, t: Value)
    requires len <= cap == |slots|
    ensures Regained(zeroed, FFixArr(cap, elem), VFixArr(len, slots), t) <==>
            if len == 0 then t.VFixArr? && t.len == 0
            else forall i :: 0 <= i < len ==> Regained(zeroed, elem, slots[..len][i], Slots(t, cap)[i])
  {
    hide Slots;
    assert forall i :: 0 <= i < len ==> slots[..len][i] == slots[i];
  }

  lemma {:induction false} NoneHeld(cap: nat, elem: Format, slots: seq<Value>, t: Value)
    requires |slots| == cap
    ensures Same(FFixArr(cap, elem), t, VFixArr(0, slots)) <==> t.VFixArr? && t.len == 0
  {
    var f := FFixArr(cap, elem);
    if t.VFixArr? && t.len == 0 {
      assert Normal(f, t).slots == Normal(f, VFixArr(0, slots)).slots;
    }
  }

  lemma {:induction false} AllSame(zeroed: bool, e: Format, es: seq<Value>, slots: seq<Value>)
    requires |es| <= |slots| && Readable(e) && forall j :: 0 <= j < |es| ==> Typed(e, es[j])
    ensures var r := DecodeElems(zeroed, e, ElemWires(e, es), slots, 0);
            r.Good? && r.extra == 0 && (forall j :: 0 <= j < |es| ==> Same(e, r.v[j], es[j])) <==>
              forall j :: 0 <= j < |es| ==> Regained(zeroed, e, es[j], slots[j])
    decreases e, 7, |es| + 1
  {
    hide Decode, DecodeElems, ElemWires, Regained, Same, Readable, Typed;
    ElemsSame(zeroed, e, es, slots, 0);
    assert forall j :: 0 <= j < |es| ==> es[0 + j] == es[j] && slots[0 + j] == slots[j];
  }

  lemma {:induction false} ElemsSame(zeroed: bool, e: Format, es: seq<Value>, slots: seq<Value>, i: nat)
    requires i + |es| <= |slots| && Readable(e) && forall j :: 0 <= j < |es| ==> Typed(e, es[j])
    ensures var r := DecodeElems(zeroed, e, ElemWires(e, es), slots, i);
            && (r.Good? ==> forall k :: 0 <= k < i || i + |es| <= k < |slots| ==> r.v[k] == slots[k])
            && (r.Good? && r.extra == 0 && (forall j :: 0 <= j < |es| ==> Same(e, r.v[i + j], es[j])) <==>
                  forall j :: 0 <= j < |es| ==> Regained(zeroed, e, es[j], slots[i + j]))
    decreases e, 7, |es|
  {
    hide Decode, DecodeElems, ElemWires, ToWire, Regained, Same, Normal, Readable, Typed;
    if es == [] {
      NoElems(zeroed, e, slots, i);
    } else {
      FirstDecodes(zeroed, e, es, slots, i);
      DecodesSame(zeroed, e, es[0], slots[i]);
      var d, rest := Decode(zeroed, e, ToWire(e, es[0]), slots[i]), es[1..];
      if d.Good? {
        var slots' := slots[i := d.v];
        ElemsSame(zeroed, e, rest, slots', i + 1);
        ElemsCons(zeroed, e, es, slots, i, d.v, DecodeElems(zeroed, e, ElemWires(e, rest), slots', i + 1));
      } else {
        assert es[0] == es[0] && slots[i + 0] == slots[i];
      }
    }
  }

  /** One element more. */
  lemma {:induction false} ElemsCons(zeroed: bool, e: Format, es: seq<Value>, slots: seq<Value>, i: nat, x: Value, r: Decoded<seq<Value>>)
    requires es != [] && i + |es| <= |slots| && (r.Good? ==> |r.v| == |slots| && r.v[i] == x)
    ensures (forall j :: 0 <= j < |es| ==> Regained(zeroed, e, es[j], slots[i + j])) <==>
            Regained(zeroed, e, es[0], slots[i])
            && forall j :: 0 <= j < |es[1..]| ==> Regained(zeroed, e, es[1..][j], slots[i := x][i + 1 + j])
    ensures r.Good? ==>
            ((forall j :: 0 <= j < |es| ==> Same(e, r.v[i + j], es[j])) <==>
              Same(e, x, es[0]) && forall j :: 0 <= j < |es[1..]| ==> Same(e, r.v[i + 1 + j], es[1..][j]))
  {
    hide Regained, Same;
    var rest := es[1..];
    assert es[0 + 0] == es[0] && slots[i + 0] == slots[i];
    assert forall j :: 1 <= j < |es| ==> es[j] == rest[j - 1] && slots[i + j] == slots[i := x][i + 1 + (j - 1)];
    assert forall j :: 0 <= j < |rest| ==> rest[j] == es[j + 1] && slots[i := x][i + 1 + j] == slots[i + (j + 1)];
    if r.Good? && forall j :: 0 <= j < |es| ==> Same(e, r.v[i + j], es[j]) {
      assert Same(e, r.v[i + 0], es[0]);
      forall j | 0 <= j < |rest| ensures Same(e, r.v[i + 1 + j], rest[j]) {
        assert Same(e, r.v[i + (j + 1)], es[j + 1]);
      }
    }
    if r.Good? && Same(e, x, es[0]) && forall j :: 0 <= j < |rest| ==> Same(e, r.v[i + 1 + j], rest[j]) {
      forall j | 0 <= j < |es| ensures Same(e, r.v[i + j], es[j]) {
        if j > 0 { assert Same(e, r.v[i + 1 + (j - 1)], rest[j - 1]); }
      }
    }
  }

  lemma {:induction false} TableSame(zeroed: bool, f: Format, entries: seq<Entry>, t: Value)
    requires f.FTable? && Readable(f) && Typed(f, VTable(entries))
    ensures var r := Decode(zeroed, f, ToWire(f, VTable(entries)), t);
            r.Good? && r.extra == 0 && Same(f, r.v, VTable(entries)) <==> Regained(zeroed, f, VTable(entries), t)
    decreases f, 4
  {
    hide DecodeEntries, Normal, EntryPairs, TypedKey, GoodKey, Same, HashInit;
    EntriesSame(zeroed, f, entries, []);
    var r := DecodeEntries(zeroed, f, EntryPairs(f, entries), []);
    if r.Good? {
      assert r.v[0..] == r.v;
      SameTable(f, r.v, entries);
    }
  }

  /** Entries are regained under fresh memory and a good key, a string key alone. */
  predicate EntriesRegained(zeroed: bool, f: Format, entries: seq<Entry>, done: nat)
    requires f.FTable?
  {
    && (!f.isint && entries != [] ==> done + |entries| <= 1)
    && forall i :: 0 <= i < |entries| ==>
         GoodKey(f.isint, entries[i].key) && Regained(zeroed, f.elem, entries[i].val, HashInit(zeroed, f.elem))
  }

  lemma {:induction false} EntriesSame(zeroed: bool, f: Format, entries: seq<Entry>, done: seq<Entry>)
    requires f.FTable? && Readable(f.elem) && KeysApart(done, entries)
    requires forall i :: 0 <= i < |entries| ==> TypedKey(f.isint, entries[i].key) && Typed(f.elem, entries[i].val)
    ensures var r := DecodeEntries(zeroed, f, EntryPairs(f, entries), done);
            && (r.Good? ==> done <= r.v)
            && (r.Good? && r.extra == 0 && SameEntries(f.elem, r.v[|done|..], entries) <==>
                  EntriesRegained(zeroed, f, entries, |done|))
    decreases f, 3, |entries|
  {
    hide Decode, DecodeEntries, EntryPairs, Regained, Readable, HashInit, TypedKey, Typed, ToWire, Same;
    hide SameEntries, EntriesRegained, KeysApart;
    EntriesCons(zeroed, f, entries, |done|);
    if entries == [] {
      NoEntries(zeroed, f, done);
      assert done[|done|..] == [];
      SameCons(f.elem, [], []);
    } else {
      var e, rest := entries[0], entries[1..];
      var memory := HashInit(zeroed, f.elem);
      EnterApart(entries, done, e);
      EntryDecodes(zeroed, f, entries, done);
      DecodesSame(zeroed, f.elem, e.val, memory);
      var d := Decode(zeroed, f.elem, ToWire(f.elem, e.val), memory);
      if d.Good? && (f.isint || (done == [] && e.key != StrKey([]))) {
        var x := Entry(e.key, d.v);
        EnterApart(entries, done, x);
        assert forall i :: 0 <= i < |rest| ==> rest[i] == entries[i + 1];
        EntriesSame(zeroed, f, rest, done + [x]);
        var r := DecodeEntries(zeroed, f, EntryPairs(f, entries), done);
        if r.Good? {
          assert r.v[|done|..] == [x] + r.v[|done| + 1..] by { assert (done + [x])[|done|] == x; }
          SameCons(f.elem, r.v[|done|..], entries);
        }
      }
    }
  }

  lemma {:induction false} EntriesCons(zeroed: bool, f: Format, entries: seq<Entry>, done: nat)
    requires f.FTable?
    ensures EntriesRegained(zeroed, f, entries, done) <==>
            entries == [] ||
            (&& (!f.isint ==> done == 0)
             && GoodKey(f.isint, entries[0].key) && Regained(zeroed, f.elem, entries[0].val, HashInit(zeroed, f.elem))
             && EntriesRegained(zeroed, f, entries[1..], done + 1))
  {
    hide GoodKey, Regained, HashInit;
    if entries != [] {
      assert forall i :: 0 <= i < |entries[1..]| ==> entries[1..][i] == entries[i + 1];
      assert forall i :: 1 <= i < |entries| ==> entries[i] == entries[1..][i - 1];
    }
  }

  lemma {:induction false} SameCons(elem: Format, xs: seq<Entry>, entries: seq<Entry>)
    ensures SameEntries(elem, xs, entries) <==>
            if entries == [] then xs == []
            else xs != [] && xs[0].key == entries[0].key && Same(elem, xs[0].val, entries[0].val)
                 && SameEntries(elem, xs[1..], entries[1..])
  {
    hide Same;
    if entries != [] && xs != [] {
      assert forall i :: 0 <= i < |entries[1..]| ==> entries[1..][i] == entries[i + 1];
      assert forall i :: 1 <= i < |entries| ==> entries[i] == entries[1..][i - 1];
      assert forall i :: 0 <= i < |xs[1..]| ==> xs[1..][i] == xs[i + 1];
      assert forall i :: 1 <= i < |xs| ==> xs[i] == xs[1..][i - 1];
    }
  }

  /* ---------- the byte-level parser ---------- */

  /** The round trip of contents exactly: the print is read in full, with nothing skipped,
      to the same contents if and only if the memory lets them be regained. */
  lemma {:induction false} ContentsExact(zeroed: bool, s: seq<byte>, f: Format, v: Value, t: Value, p: nat, b: nat)
    requires Readable(f) && Typed(f, v)
    requires At(s, p, Print(f, v)) && |Print(f, v)| <= b < TWO32
    ensures var r := ParseVal(zeroed, s, f, t, p, b);
            r.Done? && r.n == |Print(f, v)| && r.skipped == 0 && Same(f, r.v, v) <==> Regained(zeroed, f, v, t)
  {
    hide *;
    PrintSpells(f, v);
    DecodesSame(zeroed, f, v, t);
    if Decode(zeroed, f, ToWire(f, v), t).Bad? {
      ParseBad(zeroed, s, f, v, t, p, b);
    } else {
      ParseText(zeroed, s, f, ToWire(f, v), t, p, b);
    }
  }

  /** Contents rebuilt in full are regained. */
  lemma {:induction false} StorableRegained(zeroed: bool, f: Format, v: Value, t: Value)
    requires Readable(f) && Storable(zeroed, f, v) && Ready(f, v, t)
    ensures Regained(zeroed, f, v, t)
  {
    DecodePrint(zeroed, f, v, t);
    StorableTyped(zeroed, f, v);
    NormalPrints(f, v);
    hide Decode, Storable, Ready, Regained, Normal, ToWire, Typed;
    DecodesSame(zeroed, f, v, t);
  }

  /* ---------- hash-table values over unset memory ---------- */

  /** Values of which every part in use is written whatever `malloc` returned: no pointers,
      no empty fixed string or array. */
  predicate Kept(f: Format, v: Value)
    decreases f
  {
    match (f, v)
    case (FStr, _) => false
    case (FFixStr(_), VFixStr(bytes)) => bytes != []
    case (FObj(fields), VObj(vs)) => |vs| == |fields| ==> forall i :: 0 <= i < |vs| ==> Kept(fields[i].fmt, vs[i])
    case (FArr(_), _) => false
    case (FFixArr(cap, elem), VFixArr(len, slots)) => 0 < len <= |slots| && forall i :: 0 <= i < len ==> Kept(elem, slots[i])
    case (FTable(_, _), _) => false
    case _ => true
  }

  /** Over memory that is not zeroed exactly these are regained. */
  lemma {:induction false} KeptExact(zeroed: bool, f: Format, v: Value)
    requires Typed(f, v)
    ensures Regained(zeroed, f, v, VUninit) <==> Kept(f, v)
    decreases f
  {
    match (f, v)
    case (FObj(fields), VObj(vs)) =>
      assert forall i :: 0 <= i < |fields| ==> Members(VUninit, |fields|)[i] == VUninit;
      forall i | 0 <= i < |vs| ensures Regained(zeroed, fields[i].fmt, vs[i], VUninit) <==> Kept(fields[i].fmt, vs[i]) {
        KeptExact(zeroed, fields[i].fmt, vs[i]);
      }
    case (FFixArr(cap, elem), VFixArr(len, slots)) =>
      assert forall i :: 0 <= i < cap ==> Slots(VUninit, cap)[i] == VUninit;
      forall i | 0 <= i < len ensures Regained(zeroed, elem, slots[i], VUninit) <==> Kept(elem, slots[i]) {
        KeptExact(zeroed, elem, slots[i]);
      }
    case _ =>
  }

  /** An int-keyed table of any element format is read back to the same contents exactly
      when the allocator zeroes the memory of its values or every part in use is written. */
  lemma {:induction false} TableContentsLimit(zeroed: bool, s: seq<byte>, elem: Format, entries: seq<Entry>, p: nat, b: nat)
    requires Readable(elem) && forall i, j :: 0 <= i < j < |entries| ==> entries[i].key != entries[j].key
    requires forall i :: 0 <= i < |entries| ==> GoodKey(true, entries[i].key) && Storable(true, elem, entries[i].val)
    requires var f := FTable(true, elem);
             At(s, p, Print(f, VTable(entries))) && |Print(f, VTable(entries))| <= b < TWO32
    ensures var f, v := FTable(true, elem), VTable(entries);
            var r := ParseVal(zeroed, s, f, VNull, p, b);
            r.Done? && r.n == |Print(f, v)| && r.skipped == 0 && Same(f, r.v, v) <==>
            zeroed || forall i :: 0 <= i < |entries| ==> Kept(elem, entries[i].val)
  {
    hide *;
    Limits.TableStorable(zeroed, elem, entries);
    Limits.TableReadable(elem, VTable(entries));
    ContentsExact(zeroed, s, FTable(true, elem), VTable(entries), VNull, p, b);
    TableRegained(zeroed, elem, entries);
  }

  lemma {:induction false} TableRegained(zeroed: bool, elem: Format, entries: seq<Entry>)
    requires Readable(elem)
    requires forall i :: 0 <= i < |entries| ==> GoodKey(true, entries[i].key) && Storable(true, elem, entries[i].val)
    ensures Regained(zeroed, FTable(true, elem), VTable(entries), VNull) <==>
            zeroed || forall i :: 0 <= i < |entries| ==> Kept(elem, entries[i].val)
  {
    hide Kept, Storable, Readable, GoodKey;
    forall i | 0 <= i < |entries|
      ensures Regained(zeroed, elem, entries[i].val, HashInit(zeroed, elem)) <==> zeroed || Kept(elem, entries[i].val)
    {
      hide Regained;
      StorableTyped(true, elem, entries[i].val);
      ReadyZero(elem, entries[i].val);
      if zeroed {
        StorableRegained(true, elem, entries[i].val, Zero(elem));
      } else {
        KeptExact(false, elem, entries[i].val);
      }
    }
  }
}
