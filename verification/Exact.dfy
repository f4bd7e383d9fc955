/** The round trip as an equivalence: exactly which contents are rebuilt from their print,
    over which memory. */
module Exact {
  import opened Wrappers
  import opened Bytes
  import opened Schema
  import opened Wire
  import opened Skipper
  import opened Parser
  import opened Decoder
  import opened Printer
  import opened RoundTrip

  /* ---------- what the tree does not mean, the parser refuses ---------- */

  /** On the text of typed contents the parser fails wherever the tree cannot be stored. */
  lemma {:induction false} ParseBad(zeroed: bool, s: seq<byte>, f: Format, v: Value, t: Value, p: nat, b: nat)
    requires Readable(f) && Typed(f, v) && Decode(zeroed, f, ToWire(f, v), t).Bad?
    requires At(s, p, Text(ToWire(f, v))) && |Text(ToWire(f, v))| <= b < TWO32
    ensures ParseVal(zeroed, s, f, t, p, b) == Fail
    decreases f, 6
  {
    hide At, ParseVal, Text, DecodeElems, DecodeMembers, DecodeEntries, MemberPairs, EntryPairs, ElemWires, Live, Slots;
    match (f, v)
    case (FObj(_), VObj(vs)) => ObjectBad(zeroed, s, f, vs, t, p, b);
    case (FArr(_), VArr(es)) => ArrayBad(zeroed, s, f, es, t, p, b);
    case (FFixArr(_, _), VFixArr(len, slots)) => ArrayBad(zeroed, s, f, slots[..len], t, p, b);
    case (FTable(_, _), _) => TableBad(zeroed, s, f, v, t, p, b);
    case (FStr, VStr(bytes)) => StringBad(zeroed, s, bytes, t, p, b);
    case _ =>
  }

  /** A string pointer that is set already. */
  lemma {:induction false} StringBad(zeroed: bool, s: seq<byte>, bytes: seq<byte>, t: Value, p: nat, b: nat)
    requires bytes != [] && t != VStr([]) && |bytes| < TWO32
    requires At(s, p, Text(WStr(false, bytes))) && |Text(WStr(false, bytes))| <= b < TWO32
    ensures ParseVal(zeroed, s, FStr, t, p, b) == Fail
  {
    hide At, StrHead, StrToUl, StrChr, ParseVal;
    StrHeadScan(s, false, |bytes|, bytes + [SEMI], p);
    StrChrHere(s, p + |StrHead(false, |bytes|)| - 1, COLON);
    ParseHeader(zeroed, s, FStr, t, p, b);
  }

  lemma {:induction false} ObjectBad(zeroed: bool, s: seq<byte>, f: Format, vs: seq<Value>, t: Value, p: nat, b: nat)
    requires f.FObj? && Readable(f) && Typed(f, VObj(vs)) && Decode(zeroed, f, ToWire(f, VObj(vs)), t).Bad?
    requires At(s, p, Text(ToWire(f, VObj(vs)))) && |Text(ToWire(f, VObj(vs)))| <= b < TWO32
    ensures ParseVal(zeroed, s, f, t, p, b) == Fail
    decreases f, 5
  {
    hide ParseVal, ParseObject, At, PairsText, DecodeMembers;
    var ps := MemberPairs(f, vs, 0);
    ObjectOpens(zeroed, s, f, ps, t, p, b);
    MembersBad(zeroed, s, f, vs, Members(t, |f.fields|), 0, p + 3, b);
  }

  /** Nothing but the field loop decides whether an object's text is accepted. */
  lemma {:induction false} ObjectOpens(zeroed: bool, s: seq<byte>, f: Format, ps: seq<Pair>, t: Value, p: nat, b: nat)
    requires f.FObj? && At(s, p, Text(WObj(ps))) && |Text(WObj(ps))| <= b < TWO32
    ensures At(s, p + 3, PairsText(ps)) && |PairsText(ps)| <= b
    ensures ParseObject(zeroed, s, f, Members(t, |f.fields|), p + 3, b).Stop? ==> ParseVal(zeroed, s, f, t, p, b) == Fail
  {
    hide ParseVal, ParseObject, At, PairsText, Members;
    BraceFind(s, 111, LBRACE, PairsText(ps) + [RBRACE], p, b);
    StrChrHere(s, p + 2, LBRACE);
    AtSplit(s, p + 3, PairsText(ps), [RBRACE]);
    ParseHeader(zeroed, s, f, t, p, b);
  }

  lemma {:induction false} MembersBad(zeroed: bool, s: seq<byte>, f: Format, vs: seq<Value>, ts: seq<Value>, i: nat, q: nat, b: nat)
    requires f.FObj? && Readable(f) && |vs| == |f.fields| == |ts| && i <= |vs|
    requires forall j :: 0 <= j < |vs| ==> Typed(f.fields[j].fmt, vs[j])
    requires DecodeMembers(zeroed, f, MemberPairs(f, vs, i), ts).Bad?
    requires At(s, q, PairsText(MemberPairs(f, vs, i))) && |PairsText(MemberPairs(f, vs, i))| <= b < TWO32
    ensures ParseObject(zeroed, s, f, ts, q, b) == Stop
    decreases f, 4, |vs| - i
  {
    hide ParseMember, ParseObject, DecodeMember, ParseKey, Typed, Readable, At, PairText;
    if i < |vs| {
      var ps, pr := MemberPairs(f, vs, i), MemberPair(f, vs, i);
      assert ps[0] == pr && ps[1..] == MemberPairs(f, vs, i + 1);
      AtSplit(s, q, PairText(pr), PairsText(ps[1..]));
      MemberField(f, vs, i);
      PairKey(s, pr, q, b);
      ParseObjectStep(zeroed, s, f, ts, q, b);
      var d := DecodeMember(zeroed, f, pr, ts);
      if d.Good? {
        ParseMemberText(zeroed, s, f, pr, ts, q, b);
        MembersBad(zeroed, s, f, vs, d.v, i + 1, q + |PairText(pr)|, b - |PairText(pr)|);
      } else {
        MemberBad(zeroed, s, f, vs, ts, i, q, b);
      }
    }
  }

  /** A printed field belongs to its own place in the schema. */
  lemma {:induction false} MemberField(f: Format, vs: seq<Value>, i: nat)
    requires f.FObj? && Readable(f) && |vs| == |f.fields| && i < |vs|
    ensures KeyText(MemberPair(f, vs, i).key) && FieldOf(f, MemberPair(f, vs, i)) == i && Readable(f.fields[i].fmt)
  {
  }

  lemma {:induction false} PairKey(s: seq<byte>, pr: Pair, q: nat, b: nat)
    requires KeyText(pr.key) && At(s, q, PairText(pr)) && |PairText(pr)| <= b < TWO32
    ensures b > 2 && Peek(s, q) == 115 && Peek(s, q + 1) == COLON
    ensures At(s, q + |Text(pr.key)|, Text(pr.val)) && |PairText(pr)| == |Text(pr.key)| + |Text(pr.val)|
    ensures ParseKey(s, q, b) == Some((CStr(pr.key.bytes), q + |Text(pr.key)|))
  {
    hide At, Text, CStr, ParseKey;
    AtSplit(s, q, Text(pr.key), Text(pr.val));
    TextTag(pr.val);
    ParseKeyText(s, pr.key, q, b);
  }

  lemma {:induction false} MemberBad(zeroed: bool, s: seq<byte>, f: Format, vs: seq<Value>, ts: seq<Value>, i: nat, q: nat, b: nat)
    requires f.FObj? && Readable(f) && |vs| == |f.fields| == |ts| && i < |vs|
    requires Typed(f.fields[i].fmt, vs[i]) && DecodeMember(zeroed, f, MemberPair(f, vs, i), ts).Bad?
    requires var pr := MemberPair(f, vs, i); At(s, q, PairText(pr)) && |PairText(pr)| <= b < TWO32
    ensures ParseMember(zeroed, s, f, ts, q, b) == Stop
    decreases f, 3
  {
    hide At, ParseVal, Decode, Text, CStr, ParseKey, Typed, ToWire, PairText, Skip;
    var pr := MemberPair(f, vs, i);
    MemberField(f, vs, i);
    PairKey(s, pr, q, b);
    ParseBad(zeroed, s, f.fields[i].fmt, vs[i], ts[i], q + |Text(pr.key)|, b - |Text(pr.key)|);
  }

  lemma {:induction false} ArrayBad(zeroed: bool, s: seq<byte>, f: Format, es: seq<Value>, t: Value, p: nat, b: nat)
    requires (f.FArr? || f.FFixArr?) && Readable(f) && (f.FFixArr? ==> |es| <= f.cap)
    requires forall i :: 0 <= i < |es| ==> Typed(f.elem, es[i])
    requires var w := WArr(f.FFixArr?, ElemWires(f.elem, es));
             Decode(zeroed, f, w, t).Bad? && At(s, p, Text(w)) && |Text(w)| <= b < TWO32
    ensures ParseVal(zeroed, s, f, t, p, b) == Fail
    decreases f, 5
  {
    hide At, ParseElems, ParseArray, ParseVal, DecodeElems, ArrHead, ElemsText, StrToUl, StrChr, Text, Zero, Typed;
    hide ParseObject, ParseEntries, Slots, Blank, ParseLeaf;
    var ws := ElemWires(f.elem, es);
    var h := |ArrHead(f.FFixArr?, |ws|)|;
    ArrayShape(s, f.FFixArr?, ws, p, b);
    ParseHeader(zeroed, s, f, t, p, b);
    ParseArrayHead(zeroed, s, f, t, p, p + 2, b, |ws|, p + h - 1);
    if f.FFixArr? || t == VArr([]) {
      var slots := if f.FArr? then Blank(|ws|, Zero(f.elem)) else Slots(t, f.cap);
      ElemsBad(zeroed, s, f.elem, es, slots, 0, p + h, b);
    }
  }

  lemma {:induction false} ElemsBad(zeroed: bool, s: seq<byte>, e: Format, es: seq<Value>, slots: seq<Value>, i: nat, q: nat, b: nat)
    requires i + |es| <= |slots| && Readable(e) && forall j :: 0 <= j < |es| ==> Typed(e, es[j])
    requires DecodeElems(zeroed, e, ElemWires(e, es), slots, i).Bad?
    requires At(s, q, ElemsText(ElemWires(e, es))) && |ElemsText(ElemWires(e, es))| <= b < TWO32
    ensures ParseElems(zeroed, s, e, slots, i, i + |es|, q, b) == Stop
    decreases e, 7, |es|
  {
    hide At, ParseVal, ParseElems, Decode, DecodeElems, Text, Typed, ToWire, Readable, Plus, More;
    if es == [] {
      NoElems(zeroed, e, slots, i);
    } else {
      var w, ws := ToWire(e, es[0]), ElemWires(e, es);
      assert ws[0] == w && ws[1..] == ElemWires(e, es[1..]);
      DecodeElemsStep(zeroed, e, ws, slots, i);
      ParseElemsStep(zeroed, s, e, slots, i, i + |es|, q, b);
      AtSplit(s, q, Text(w), ElemsText(ws[1..]));
      var d := Decode(zeroed, e, w, slots[i]);
      if d.Good? {
        ParseText(zeroed, s, e, w, slots[i], q, b);
        ElemsBad(zeroed, s, e, es[1..], slots[i := d.v], i + 1, q + |Text(w)|, b - |Text(w)|);
      } else {
        ParseBad(zeroed, s, e, es[0], slots[i], q, b);
      }
    }
  }

  lemma {:induction false} TableBad(zeroed: bool, s: seq<byte>, f: Format, v: Value, t: Value, p: nat, b: nat)
    requires f.FTable? && Readable(f) && Typed(f, v) && Decode(zeroed, f, ToWire(f, v), t).Bad?
    requires At(s, p, Text(ToWire(f, v))) && |Text(ToWire(f, v))| <= b < TWO32
    ensures ParseVal(zeroed, s, f, t, p, b) == Fail
    decreases f, 5
  {
    hide ParseVal, ParseEntries, At, PairsText, DecodeEntries, EntryPairs;
    var entries := if v.VTable? then v.entries else [];
    var ps := if v.VTable? then EntryPairs(f, entries) else [];
    TableOpens(zeroed, s, f, ps, t, p, b);
    if t == VNull {
      NoEntries(zeroed, f, []);
      EntriesBad(zeroed, s, f, entries, [], p + 3, b);
    }
  }

  /** Nothing but a set pointer and the entry loop decide whether a table's text is accepted. */
  lemma {:induction false} TableOpens(zeroed: bool, s: seq<byte>, f: Format, ps: seq<Pair>, t: Value, p: nat, b: nat)
    requires f.FTable? && At(s, p, Text(WTab(ps))) && |Text(WTab(ps))| <= b < TWO32
    ensures At(s, p + 3, PairsText(ps)) && |PairsText(ps)| <= b
    ensures t != VNull || ParseEntries(zeroed, s, f, [], p + 3, b).Stop? ==> ParseVal(zeroed, s, f, t, p, b) == Fail
  {
    hide ParseVal, ParseEntries, At, PairsText;
    BraceFind(s, 104, LPAREN, PairsText(ps) + [RPAREN], p, b);
    StrChrHere(s, p + 2, LPAREN);
    AtSplit(s, p + 3, PairsText(ps), [RPAREN]);
    ParseHeader(zeroed, s, f, t, p, b);
  }

  lemma {:induction false} EntriesBad(zeroed: bool, s: seq<byte>, f: Format, entries: seq<Entry>, done: seq<Entry>, q: nat, b: nat)
    requires f.FTable? && Readable(f.elem)
    requires forall i :: 0 <= i < |entries| ==> TypedKey(f.isint, entries[i].key) && Typed(f.elem, entries[i].val)
    requires DecodeEntries(zeroed, f, EntryPairs(f, entries), done).Bad?
    requires At(s, q, PairsText(EntryPairs(f, entries))) && |PairsText(EntryPairs(f, entries))| <= b < TWO32
    ensures ParseEntries(zeroed, s, f, done, q, b) == Stop
    decreases f, 4, |entries|
  {
    hide ParseEntry, ParseEntries, DecodeEntry, TypedKey, Typed, Readable, At, PairText, EntryPair;
    if entries != [] {
      var ps, pr := EntryPairs(f, entries), EntryPair(f, entries[0]);
      assert ps[0] == pr && ps[1..] == EntryPairs(f, entries[1..]);
      AtSplit(s, q, PairText(pr), PairsText(ps[1..]));
      EntryOpens(s, f, pr, q, b);
      ParseEntriesStep(zeroed, s, f, done, q, b);
      var d := DecodeEntry(zeroed, f, pr, done);
      if d.Good? {
        ParseEntryText(zeroed, s, f, pr, done, q, b);
        EntriesBad(zeroed, s, f, entries[1..], d.v, q + |PairText(pr)|, b - |PairText(pr)|);
      } else {
        EntryBad(zeroed, s, f, entries[0], done, q, b);
      }
    }
  }

  lemma {:induction false} EntryOpens(s: seq<byte>, f: Format, pr: Pair, q: nat, b: nat)
    requires At(s, q, PairText(pr)) && |PairText(pr)| <= b
    ensures b > 0 && Peek(s, q) != RPAREN
    ensures At(s, q, Text(pr.key)) && At(s, q + |Text(pr.key)|, Text(pr.val))
    ensures |PairText(pr)| == |Text(pr.key)| + |Text(pr.val)|
  {
    hide At, Text;
    AtSplit(s, q, Text(pr.key), Text(pr.val));
    TextTag(pr.key);
    AtPeek(s, q, Text(pr.key), 0);
  }

  lemma {:induction false} EntryBad(zeroed: bool, s: seq<byte>, f: Format, e: Entry, done: seq<Entry>, q: nat, b: nat)
    requires f.FTable? && Readable(f.elem) && TypedKey(f.isint, e.key) && Typed(f.elem, e.val)
    requires var pr := EntryPair(f, e); DecodeEntry(zeroed, f, pr, done).Bad? && At(s, q, PairText(pr)) && |PairText(pr)| <= b < TWO32
    ensures ParseEntry(zeroed, s, f, done, q, b) == Stop
    decreases f, 3
  {
    hide At, ParseVal, Decode, Text, Typed, ToWire, PairText, ParseEntryKey, Insert, HashInit, Readable, EntryKey, KeyWire;
    var pr := EntryPair(f, e);
    EntryOpens(s, f, pr, q, b);
    if EntryKey(f.isint, pr.key, done).Some? {
      ParseEntryKeyText(s, f.isint, pr.key, done, q, b);
      ParseBad(zeroed, s, f.elem, e.val, HashInit(zeroed, f.elem), q + |Text(pr.key)|, b - |Text(pr.key)|);
    } else {
      KeyRefused(s, f.isint, e.key, done, q, b);
    }
  }

  /** A second string key, or an empty one. */
  lemma {:induction false} KeyRefused(s: seq<byte>, isint: bool, key: Key, done: seq<Entry>, q: nat, b: nat)
    requires TypedKey(isint, key) && EntryKey(isint, KeyWire(key), done).None?
    requires At(s, q, Text(KeyWire(key))) && |Text(KeyWire(key))| <= b < TWO32
    ensures ParseEntryKey(s, isint, done, q, b) == None
  {
    hide At, ParseLeaf, Text, CStr, Skip;
    assert !isint;
    if done == [] {
      assert CStr(key.s) == key.s;
      ParseLeafText(s, FStr, KeyWire(key), VStr([]), q, b);
    } else {
      TextTag(KeyWire(key));
      AtPeek(s, q, Text(KeyWire(key)), 0);
    }
  }

  /* ---------- what is rebuilt was storable over that memory ---------- */

  /** The converse of the round trip: contents rebuilt from their tree were storable, and
      the memory was ready for them. */
  lemma {:induction false} OnlyReady(zeroed: bool, f: Format, v: Value, t: Value)
    requires Readable(f) && Typed(f, v) && Decode(zeroed, f, ToWire(f, v), t) == Good(Normal(f, v), 0)
    ensures Storable(zeroed, f, v) && Ready(f, v, t)
    decreases f, 5
  {
    match (f, v)
    case (FObj(_), VObj(vs)) => OnlyReadyObject(zeroed, f, vs, t);
    case (FArr(elem), VArr(es)) => OnlyReadyArr(zeroed, elem, es, t);
    case (FFixArr(cap, elem), VFixArr(len, slots)) => OnlyReadyFixArr(zeroed, cap, elem, len, slots, t);
    case (FTable(_, _), _) => OnlyReadyTable(zeroed, f, v, t);
    case _ =>
  }

  lemma {:induction false} OnlyReadyObject(zeroed: bool, f: Format, vs: seq<Value>, t: Value)
    requires f.FObj? && Readable(f) && Typed(f, VObj(vs))
    requires Decode(zeroed, f, ToWire(f, VObj(vs)), t) == Good(Normal(f, VObj(vs)), 0)
    ensures Storable(zeroed, f, VObj(vs)) && Ready(f, VObj(vs), t)
    decreases f, 4
  {
    hide DecodeMembers, Members;
    OnlyReadyMembers(zeroed, f, vs, Members(t, |f.fields|), 0);
  }

  lemma {:induction false} OnlyReadyMembers(zeroed: bool, f: Format, vs: seq<Value>, ts: seq<Value>, i: nat)
    requires f.FObj? && Readable(f) && |vs| == |f.fields| == |ts| && i <= |vs|
    requires forall j :: 0 <= j < |vs| ==> Typed(f.fields[j].fmt, vs[j])
    ensures var r := DecodeMembers(zeroed, f, MemberPairs(f, vs, i), ts);
            && (r.Good? ==> forall k :: 0 <= k < i ==> r.v[k] == ts[k])
            && (r.Good? && r.extra == 0 && (forall k :: i <= k < |vs| ==> r.v[k] == Normal(f.fields[k].fmt, vs[k])) ==>
                  forall k :: i <= k < |vs| ==>
                    Storable(zeroed, f.fields[k].fmt, vs[k]) && Ready(f.fields[k].fmt, vs[k], ts[k]))
    decreases f, 3, |vs| - i
  {
    hide Decode, DecodeMember, Storable, Ready, Normal, ToWire, Typed, Readable;
    if i < |vs| {
      var pr, ps := MemberPair(f, vs, i), MemberPairs(f, vs, i);
      assert ps[0] == pr && ps[1..] == MemberPairs(f, vs, i + 1);
      MemberDecodes(zeroed, f, vs, ts, i);
      var d := Decode(zeroed, f.fields[i].fmt, pr.val, ts[i]);
      if d.Good? {
        OnlyReadyMembers(zeroed, f, vs, ts[i := d.v], i + 1);
        if d == Good(Normal(f.fields[i].fmt, vs[i]), 0) {
          MemberField(f, vs, i);
          OnlyReady(zeroed, f.fields[i].fmt, vs[i], ts[i]);
        }
      }
    }
  }

  lemma {:induction false} MemberDecodes(zeroed: bool, f: Format, vs: seq<Value>, ts: seq<Value>, i: nat)
    requires f.FObj? && Readable(f) && |vs| == |f.fields| == |ts| && i < |vs|
    ensures var d := Decode(zeroed, f.fields[i].fmt, ToWire(f.fields[i].fmt, vs[i]), ts[i]);
            DecodeMember(zeroed, f, MemberPair(f, vs, i), ts) == if d.Bad? then Bad else Good(ts[i := d.v], d.extra)
  {
    hide Decode, ToWire;
    MemberField(f, vs, i);
  }

  lemma {:induction false} OnlyReadyArr(zeroed: bool, elem: Format, es: seq<Value>, t: Value)
    requires Readable(elem) && Typed(FArr(elem), VArr(es))
    requires Decode(zeroed, FArr(elem), ToWire(FArr(elem), VArr(es)), t) == Good(Normal(FArr(elem), VArr(es)), 0)
    ensures Storable(zeroed, FArr(elem), VArr(es)) && Ready(FArr(elem), VArr(es), t)
    decreases elem, 8
  {
    hide Decode, DecodeElems, Zero, ElemWires, Readable, Storable, Typed, Normal, ToWire, Ready;
    ArrParts(elem, es);
    ArrayDecodes(zeroed, FArr(elem), ElemWires(elem, es), t);
    if es != [] {
      OnlyReadyElems(zeroed, elem, es, Blank(|es|, Zero(elem)), 0);
    }
    ArrStorable(zeroed, elem, es, t);
  }

  lemma {:induction false} OnlyReadyFixArr(zeroed: bool, cap: nat, elem: Format, len: nat, slots: seq<Value>, t: Value)
    requires len <= cap == |slots| && Readable(elem) && Typed(FFixArr(cap, elem), VFixArr(len, slots))
    requires var f, v := FFixArr(cap, elem), VFixArr(len, slots); Decode(zeroed, f, ToWire(f, v), t) == Good(Normal(f, v), 0)
    ensures var f, v := FFixArr(cap, elem), VFixArr(len, slots); Storable(zeroed, f, v) && Ready(f, v, t)
    decreases elem, 8
  {
    hide Decode, DecodeElems, Slots, ElemWires, Readable, Normal, Storable, Typed, Ready, Zero, ToWire;
    FixArrParts(cap, elem, len, slots);
    var f, es, ts := FFixArr(cap, elem), slots[..len], Slots(t, cap);
    ArrayDecodes(zeroed, f, ElemWires(elem, es), t);
    if len > 0 {
      OnlyReadyElems(zeroed, elem, es, ts, 0);
    }
    FixArrReady(zeroed, cap, elem, len, slots, t);
  }

  lemma {:induction false} FixArrReady(zeroed: bool, cap: nat, elem: Format, len: nat, slots: seq<Value>, t: Value)
    requires len <= cap == |slots| && len < TWO32
    requires forall i :: 0 <= i < len ==> Storable(zeroed, elem, slots[i]) && Ready(elem, slots[i], Slots(t, cap)[i])
    requires if len == 0 then t == Zero(FFixArr(cap, elem)) else forall i :: len <= i < cap ==> Slots(t, cap)[i] == Zero(elem)
    ensures var f, v := FFixArr(cap, elem), VFixArr(len, slots); Storable(zeroed, f, v) && Ready(f, v, t)
  {
    hide Slots, Zero;
  }

  lemma {:induction false} OnlyReadyElems(zeroed: bool, e: Format, es: seq<Value>, slots: seq<Value>, i: nat)
    requires i + |es| <= |slots| && Readable(e) && forall j :: 0 <= j < |es| ==> Typed(e, es[j])
    ensures var r := DecodeElems(zeroed, e, ElemWires(e, es), slots, i);
            && (r.Good? ==> forall k :: 0 <= k < i || i + |es| <= k < |slots| ==> r.v[k] == slots[k])
            && (r.Good? && r.extra == 0 && (forall j :: 0 <= j < |es| ==> r.v[i + j] == Normal(e, es[j])) ==>
                  forall j :: 0 <= j < |es| ==> Storable(zeroed, e, es[j]) && Ready(e, es[j], slots[i + j]))
    decreases e, 7, |es|
  {
    hide Decode, DecodeElems, ElemWires, ToWire, Storable, Ready, Normal, Readable, Typed;
    if es == [] {
      NoElems(zeroed, e, slots, i);
    } else {
      FirstDecodes(zeroed, e, es, slots, i);
      var d, rest := Decode(zeroed, e, ToWire(e, es[0]), slots[i]), es[1..];
      if d.Good? {
        var slots' := slots[i := d.v];
        OnlyReadyElems(zeroed, e, rest, slots', i + 1);
        var r := DecodeElems(zeroed, e, ElemWires(e, es), slots, i);
        if r.Good? && r.extra == 0 && forall j :: 0 <= j < |es| ==> r.v[i + j] == Normal(e, es[j]) {
          assert r.v[i] == r.v[i + 0];
          OnlyReady(zeroed, e, es[0], slots[i]);
          forall j | 0 <= j < |rest| ensures r.v[i + 1 + j] == Normal(e, rest[j]) {
            assert r.v[i + (j + 1)] == Normal(e, es[j + 1]);
          }
          forall j | 0 <= j < |es| ensures Storable(zeroed, e, es[j]) && Ready(e, es[j], slots[i + j]) {
            if j > 0 {
              assert rest[j - 1] == es[j] && slots'[i + 1 + (j - 1)] == slots[i + j];
            }
          }
        }
      }
    }
  }

  lemma {:induction false} FirstDecodes(zeroed: bool, e: Format, es: seq<Value>, slots: seq<Value>, i: nat)
    requires es != [] && i + |es| <= |slots|
    ensures var d := Decode(zeroed, e, ToWire(e, es[0]), slots[i]);
            DecodeElems(zeroed, e, ElemWires(e, es), slots, i) ==
            if d.Bad? then Bad else Plus(d.extra, DecodeElems(zeroed, e, ElemWires(e, es[1..]), slots[i := d.v], i + 1))
  {
    hide Decode, ToWire, DecodeElems, Plus;
    var ws := ElemWires(e, es);
    assert ws[0] == ToWire(e, es[0]) && ws[1..] == ElemWires(e, es[1..]);
    DecodeElemsStep(zeroed, e, ws, slots, i);
  }

  lemma {:induction false} OnlyReadyTable(zeroed: bool, f: Format, v: Value, t: Value)
    requires f.FTable? && Readable(f) && Typed(f, v) && Decode(zeroed, f, ToWire(f, v), t) == Good(Normal(f, v), 0)
    ensures Storable(zeroed, f, v) && Ready(f, v, t)
    decreases f, 4
  {
    hide DecodeEntries, Normal, EntryPairs, TypedKey, GoodKey;
    if v.VTable? {
      NormalEntries(f, v.entries);
      assert [] + Normal(f, v).entries == Normal(f, v).entries;
      OnlyReadyEntries(zeroed, f, v.entries, []);
    }
  }

  lemma {:induction false} OnlyReadyEntries(zeroed: bool, f: Format, entries: seq<Entry>, done: seq<Entry>)
    requires f.FTable? && Readable(f.elem)
    requires forall i, j :: 0 <= i < j < |entries| ==> entries[i].key != entries[j].key
    requires forall i :: 0 <= i < |entries| ==> TypedKey(f.isint, entries[i].key) && Typed(f.elem, entries[i].val)
    requires forall d <- done, e <- entries :: d.key != e.key
    ensures var r := DecodeEntries(zeroed, f, EntryPairs(f, entries), done);
            && (r.Good? ==> done <= r.v)
            && (Normal(f, VTable(entries)).VTable? && r == Good(done + Normal(f, VTable(entries)).entries, 0) ==>
                  && (forall i :: 0 <= i < |entries| ==>
                        GoodKey(f.isint, entries[i].key) && Storable(zeroed, f.elem, entries[i].val)
                        && Ready(f.elem, entries[i].val, HashInit(zeroed, f.elem)))
                  && (!f.isint && entries != [] ==> |done| + |entries| <= 1))
    decreases f, 3, |entries|
  {
    hide Decode, DecodeEntries, EntryPairs, Ready, Readable, Storable, HashInit, TypedKey, GoodKey, Normal, Typed, ToWire;
    if entries == [] {
      NoEntries(zeroed, f, done);
    } else {
      var e, rest := entries[0], entries[1..];
      var ps := EntryPairs(f, entries);
      EntryDecodes(zeroed, f, entries, done);
      var d := Decode(zeroed, f.elem, ToWire(f.elem, e.val), HashInit(zeroed, f.elem));
      if d.Good? && (f.isint || (done == [] && e.key != StrKey([]))) {
        var done' := done + [Entry(e.key, d.v)];
        OnlyReadyEntries(zeroed, f, rest, done');
        var r := DecodeEntries(zeroed, f, ps, done);
        NormalEntries(f, entries);
        NormalEntries(f, rest);
        var e' := Entry(e.key, Normal(f.elem, e.val));
        assert (done + ([e'] + Normal(f, VTable(rest)).entries)) == (done + [e']) + Normal(f, VTable(rest)).entries;
        if r == Good(done + Normal(f, VTable(entries)).entries, 0) {
          assert done'[|done|] == r.v[|done|] == e';
          OnlyReady(zeroed, f.elem, e.val, HashInit(zeroed, f.elem));
        }
      }
    }
  }

  lemma {:induction false} EntryDecodes(zeroed: bool, f: Format, entries: seq<Entry>, done: seq<Entry>)
    requires f.FTable? && entries != [] && TypedKey(f.isint, entries[0].key) && forall d <- done :: d.key != entries[0].key
    ensures var e := entries[0];
            var d := Decode(zeroed, f.elem, ToWire(f.elem, e.val), HashInit(zeroed, f.elem));
            var r := DecodeEntries(zeroed, f, EntryPairs(f, entries), done);
            if d.Bad? || (!f.isint && (done != [] || e.key == StrKey([]))) then r.Bad?
            else
              && GoodKey(f.isint, e.key)
              && r == Plus(d.extra, DecodeEntries(zeroed, f, EntryPairs(f, entries[1..]), done + [Entry(e.key, d.v)]))
  {
    hide Decode, ToWire, Insert, HashInit, Plus;
    var e, ps := entries[0], EntryPairs(f, entries);
    assert ps[0] == EntryPair(f, e) && ps[1..] == EntryPairs(f, entries[1..]);
    if !f.isint {
      assert CStr(e.key.s) == e.key.s && CStr(CStr(e.key.s)) == e.key.s;
    }
  }

  /* ---------- the equivalence ---------- */

  /** The round trip exactly: typed contents are rebuilt from their print if and only if
      they are storable and the memory is ready for them. */
  lemma {:induction false} RoundTripExact(zeroed: bool, s: seq<byte>, f: Format, v: Value, t: Value, p: nat, b: nat)
    requires Readable(f) && Typed(f, v)
    requires At(s, p, Print(f, v)) && |Print(f, v)| <= b < TWO32
    ensures ParseVal(zeroed, s, f, t, p, b) == Done(|Print(f, v)|, Normal(f, v), 0) <==>
            Storable(zeroed, f, v) && Ready(f, v, t)
    ensures ParseVal(zeroed, s, f, t, p, b) == Fail <==> Decode(zeroed, f, ToWire(f, v), t) == Bad
  {
    hide *;
    PrintSpells(f, v);
    DecodeExact(zeroed, f, v, t);
    if Decode(zeroed, f, ToWire(f, v), t).Bad? {
      ParseBad(zeroed, s, f, v, t, p, b);
    } else {
      ParseText(zeroed, s, f, ToWire(f, v), t, p, b);
    }
  }

  lemma {:induction false} DecodeExact(zeroed: bool, f: Format, v: Value, t: Value)
    requires Readable(f) && Typed(f, v)
    ensures Decode(zeroed, f, ToWire(f, v), t) == Good(Normal(f, v), 0) <==> Storable(zeroed, f, v) && Ready(f, v, t)
  {
    hide *;
    var rebuilt := Decode(zeroed, f, ToWire(f, v), t) == Good(Normal(f, v), 0);
    var storable := Storable(zeroed, f, v) && Ready(f, v, t);
    if rebuilt {
      OnlyReady(zeroed, f, v, t);
    }
    if storable {
      DecodePrint(zeroed, f, v, t);
    }
  }
}
