/** Where the serializer's round trip ends: the exact conditions under which a printed
    object or table can be read back. */
module Limits {
  import opened Wrappers
  import opened Bytes
  import opened Schema
  import opened Wire
  import opened Skipper
  import opened Parser
  import opened Decoder
  import opened Printer
  import opened RoundTrip
  import opened Exact

  /** A printed object is read back exactly when it has a field and every key fits the
      parser's buffer; otherwise the parse fails. */
  lemma {:induction false} ObjectLimit(zeroed: bool, s: seq<byte>, f: Format, vs: seq<Value>, p: nat, b: nat)
    requires f.FObj? && |vs| == |f.fields| && CKeys(f)
    requires forall i :: 0 <= i < |vs| ==> Readable(f.fields[i].fmt) && Storable(zeroed, f.fields[i].fmt, vs[i])
    requires At(s, p, Print(f, VObj(vs))) && |Print(f, VObj(vs))| <= b < TWO32
    ensures ParseVal(zeroed, s, f, Zero(f), p, b) ==
            if f.fields != [] && LongKey(f, 0) == |f.fields| then Done(|Print(f, VObj(vs))|, Normal(f, VObj(vs)), 0) else Fail
  {
    hide ParseVal, ParseObject, Storable, Readable, Ready, Print, At, Zero, Normal;
    ObjectIsStorable(zeroed, f, vs);
    StorableTyped(zeroed, f, VObj(vs));
    ReadyZero(f, VObj(vs));
    if f.fields != [] && LongKey(f, 0) == |f.fields| {
      ObjectIsReadable(f);
      RoundTripAt(zeroed, s, f, VObj(vs), Zero(f), p, b);
    } else {
      PrintSpells(f, VObj(vs));
      ObjectFails(zeroed, s, f, vs, p, b);
    }
  }

  /** The first field from `i` on whose key does not fit, or the number of fields. */
  function LongKey(f: Format, i: nat): (r: nat)
    requires f.FObj? && i <= |f.fields|
    ensures i <= r <= |f.fields|
    ensures forall j :: i <= j < r ==> KeyFits(f.fields[j].key)
    ensures r < |f.fields| ==> !KeyFits(f.fields[r].key)
    decreases |f.fields| - i
  {
    if i == |f.fields| || !KeyFits(f.fields[i].key) then i else LongKey(f, i + 1)
  }

  lemma {:induction false} ObjectIsStorable(zeroed: bool, f: Format, vs: seq<Value>)
    requires f.FObj? && |vs| == |f.fields|
    requires forall i :: 0 <= i < |vs| ==> Storable(zeroed, f.fields[i].fmt, vs[i])
    ensures Storable(zeroed, f, VObj(vs))
  {
  }

  lemma {:induction false} ObjectIsReadable(f: Format)
    requires f.FObj? && f.fields != [] && CKeys(f) && LongKey(f, 0) == |f.fields|
    requires forall i :: 0 <= i < |f.fields| ==> Readable(f.fields[i].fmt)
    ensures Readable(f)
  {
  }

  lemma {:induction false} ObjectFails(zeroed: bool, s: seq<byte>, f: Format, vs: seq<Value>, p: nat, b: nat)
    requires f.FObj? && |vs| == |f.fields| && CKeys(f) && (f.fields == [] || LongKey(f, 0) < |f.fields|)
    requires forall i :: 0 <= i < |vs| ==> Readable(f.fields[i].fmt) && Storable(zeroed, f.fields[i].fmt, vs[i])
    requires Ready(f, VObj(vs), Zero(f))
    requires At(s, p, Text(ToWire(f, VObj(vs)))) && |Text(ToWire(f, VObj(vs)))| <= b < TWO32
    ensures ParseVal(zeroed, s, f, Zero(f), p, b) == Fail
  {
    hide ParseVal, ParseObject, Storable, Readable, Ready, At, Zero;
    var ps, ts := MemberPairs(f, vs, 0), Members(Zero(f), |f.fields|);
    BraceFind(s, 111, LBRACE, PairsText(ps) + [RBRACE], p, b);
    StrChrHere(s, p + 2, LBRACE);
    AtSplit(s, p + 3, PairsText(ps), [RBRACE]);
    AtPeek(s, p + 3, PairsText(ps) + [RBRACE], 0);
    if f.fields == [] {
      ParseObjectStops(zeroed, s, f, ts, p + 3, b);
    } else {
      ReadyMembers(f, vs, Zero(f));
      MembersStuck(zeroed, s, f, vs, ts, 0, p + 3, b);
    }
    ParseHeader(zeroed, s, f, Zero(f), p, b);
  }

  /** The object loop gets through the fields before the key that does not fit, and
      fails there. */
  lemma {:induction false} MembersStuck(zeroed: bool, s: seq<byte>, f: Format, vs: seq<Value>, ts: seq<Value>, i: nat, q: nat, b: nat)
    requires f.FObj? && |vs| == |f.fields| == |ts| && CKeys(f) && i < |vs| && LongKey(f, i) < |vs|
    requires forall j :: 0 <= j < |vs| ==> Readable(f.fields[j].fmt) && Storable(zeroed, f.fields[j].fmt, vs[j])
    requires forall j :: i <= j < |vs| ==> Ready(f.fields[j].fmt, vs[j], ts[j])
    requires At(s, q, PairsText(MemberPairs(f, vs, i))) && |PairsText(MemberPairs(f, vs, i))| <= b < TWO32
    ensures ParseObject(zeroed, s, f, ts, q, b) == Stop
    decreases |vs| - i
  {
    hide ParseMember, ParseObject, DecodeMember, ParseKey, Storable, Readable, Ready, At, CKeys, Text, Normal, More;
    var ps, pr := MemberPairs(f, vs, i), MemberPair(f, vs, i);
    assert ps[0] == pr && ps[1..] == MemberPairs(f, vs, i + 1);
    AtSplit(s, q, PairText(pr), PairsText(ps[1..]));
    if KeyFits(f.fields[i].key) {
      DecodePrintMember(zeroed, f, vs, ts, i);
      ParseMemberText(zeroed, s, f, pr, ts, q, b);
      ParseObjectStep(zeroed, s, f, ts, q, b);
      MembersStuck(zeroed, s, f, vs, ts[i := Normal(f.fields[i].fmt, vs[i])], i + 1, q + |PairText(pr)|, b - |PairText(pr)|);
    } else {
      AtSplit(s, q, Text(pr.key), Text(pr.val));
      KeyStuck(s, f.fields[i].key, q, b);
      ParseObjectStep(zeroed, s, f, ts, q, b);
      NoKeyNoMember(zeroed, s, f, ts, q, b);
    }
  }

  lemma {:induction false} NoKeyNoMember(zeroed: bool, s: seq<byte>, f: Format, ts: seq<Value>, q: nat, b: nat)
    requires f.FObj? && |ts| == |f.fields| && ParseKey(s, q, b) == None
    ensures ParseMember(zeroed, s, f, ts, q, b) == Stop
  {
  }

  lemma {:induction false} KeyStuck(s: seq<byte>, key: seq<byte>, q: nat, b: nat)
    requires !KeyFits(key) && At(s, q, Text(WStr(false, key))) && |Text(WStr(false, key))| <= b < TWO32
    ensures b > 2 && Peek(s, q) == 115 && Peek(s, q + 1) == COLON && ParseKey(s, q, b) == None
  {
    hide At, StrHead, CStr;
    StrHeadScan(s, false, |key|, key + [SEMI], q);
  }

  /* ---------- hash tables ---------- */

  /** A string-keyed table is read back exactly when it has at most one entry: the key
      pointer is not reset, so a second key counts as a duplicate. */
  lemma {:induction false} StringTableLimit(zeroed: bool, s: seq<byte>, elem: Format, entries: seq<Entry>, p: nat, b: nat)
    requires Readable(elem) && forall i :: 0 <= i < |entries| ==>
      GoodKey(false, entries[i].key)
      && Storable(zeroed, elem, entries[i].val)
      && Ready(elem, entries[i].val, HashInit(zeroed, elem))
    requires var f := FTable(false, elem);
             At(s, p, Print(f, VTable(entries))) && |Print(f, VTable(entries))| <= b < TWO32
    ensures var f := FTable(false, elem);
            ParseVal(zeroed, s, f, VNull, p, b) ==
            if |entries| <= 1 then Done(|Print(f, VTable(entries))|, Normal(f, VTable(entries)), 0) else Fail
  {
    hide ParseVal, ParseEntries, Print, Ready, At, Readable, Normal, Storable;
    var f := FTable(false, elem);
    if |entries| <= 1 {
      SmallTable(zeroed, elem, entries);
      RoundTripAt(zeroed, s, f, VTable(entries), VNull, p, b);
    } else {
      SecondKeyFails(zeroed, s, elem, entries, p, b);
    }
  }

  lemma {:induction false} SmallTable(zeroed: bool, elem: Format, entries: seq<Entry>)
    requires |entries| <= 1 && Readable(elem) && forall i :: 0 <= i < |entries| ==>
      GoodKey(false, entries[i].key)
      && Storable(zeroed, elem, entries[i].val)
      && Ready(elem, entries[i].val, HashInit(zeroed, elem))
    ensures var f, v := FTable(false, elem), VTable(entries);
            Readable(f) && Storable(zeroed, f, v) && Ready(f, v, VNull)
  {
  }

  /** Two string keys fail, whatever the values. */
  lemma {:induction false} SecondKeyFails(zeroed: bool, s: seq<byte>, elem: Format, entries: seq<Entry>, p: nat, b: nat)
    requires |entries| > 1 && Readable(elem)
    requires forall i :: 0 <= i < |entries| ==> GoodKey(false, entries[i].key) && Storable(zeroed, elem, entries[i].val)
    requires var f := FTable(false, elem);
             At(s, p, Print(f, VTable(entries))) && |Print(f, VTable(entries))| <= b < TWO32
    ensures ParseVal(zeroed, s, FTable(false, elem), VNull, p, b) == Fail
  {
    hide ParseVal, ParseEntries, DecodeEntries, PrintEntries, EntryPairs, Storable, Typed, Readable, At, PairsText;
    var f := FTable(false, elem);
    forall i | 0 <= i < |entries| ensures Typed(elem, entries[i].val) { StorableTyped(zeroed, elem, entries[i].val); }
    PrintSpellsEntries(f, entries);
    assert Print(f, VTable(entries)) == Text(WTab(EntryPairs(f, entries)));
    TableOpens(zeroed, s, f, EntryPairs(f, entries), VNull, p, b);
    SecondKeyBad(zeroed, f, entries);
    EntriesBad(zeroed, s, f, entries, [], p + 3, b);
  }

  lemma {:induction false} SecondKeyBad(zeroed: bool, f: Format, entries: seq<Entry>)
    requires f.FTable? && !f.isint && |entries| > 1
    ensures DecodeEntries(zeroed, f, EntryPairs(f, entries), []).Bad?
  {
    hide Decode, ToWire, HashInit, CStr;
    var ps, rest := EntryPairs(f, entries), entries[1..];
    assert ps[1..] == EntryPairs(f, rest);
    assert EntryPairs(f, rest)[0] == EntryPair(f, rest[0]);
    var d := DecodeEntry(zeroed, f, ps[0], []);
    if d.Good? {
      assert d.v != [] && DecodeEntry(zeroed, f, ps[1..][0], d.v).Bad?;
      assert DecodeEntries(zeroed, f, ps[1..], d.v).Bad?;
    }
  }

  /** Values that are written in full whatever `malloc` returned: no pointers, no empty
      fixed string, every fixed array full. */
  predicate Filled(f: Format, v: Value)
    decreases f
  {
    match (f, v)
    case (FStr, _) => false
    case (FFixStr(_), VFixStr(bytes)) => bytes != []
    case (FObj(fields), VObj(vs)) => |vs| == |fields| ==> forall i :: 0 <= i < |vs| ==> Filled(fields[i].fmt, vs[i])
    case (FArr(_), _) => false
    case (FFixArr(cap, elem), VFixArr(len, slots)) => 0 < len == cap == |slots| && forall i :: 0 <= i < len ==> Filled(elem, slots[i])
    case (FTable(_, _), _) => false
    case _ => true
  }

  /** Memory that is not zeroed is ready for exactly these. */
  lemma {:induction false} ReadyUninit(f: Format, v: Value)
    requires Typed(f, v)
    ensures Ready(f, v, VUninit) <==> Filled(f, v)
    decreases f
  {
    match (f, v)
    case (FObj(fields), VObj(vs)) =>
      assert forall i :: 0 <= i < |fields| ==> Members(VUninit, |fields|)[i] == VUninit;
      forall i | 0 <= i < |vs| ensures Ready(fields[i].fmt, vs[i], VUninit) <==> Filled(fields[i].fmt, vs[i]) {
        ReadyUninit(fields[i].fmt, vs[i]);
      }
    case (FFixArr(cap, elem), VFixArr(len, slots)) =>
      var ts := Slots(VUninit, cap);
      assert forall i :: 0 <= i < cap ==> ts[i] == VUninit && ts[i] != Zero(elem);
      forall i | 0 <= i < len ensures Ready(elem, slots[i], VUninit) <==> Filled(elem, slots[i]) {
        ReadyUninit(elem, slots[i]);
      }
      if len < cap { assert ts[len] != Zero(elem); }
    case _ =>
  }

  lemma {:induction false} FilledStorable(zeroed: bool, f: Format, v: Value)
    requires Typed(f, v) && Filled(f, v)
    ensures Storable(zeroed, f, v)
    decreases f
  {
    hide Ready;
    match (f, v)
    case (FObj(fields), VObj(vs)) =>
      forall i | 0 <= i < |vs| ensures Storable(zeroed, fields[i].fmt, vs[i]) { FilledStorable(zeroed, fields[i].fmt, vs[i]); }
    case (FFixArr(_, elem), VFixArr(len, slots)) =>
      forall i | 0 <= i < len ensures Storable(zeroed, elem, slots[i]) { FilledStorable(zeroed, elem, slots[i]); }
    case _ =>
  }

  /** Which int-keyed tables are storable, over zeroed memory and over any. */
  lemma {:induction false} TableStorable(zeroed: bool, elem: Format, entries: seq<Entry>)
    requires forall i, j :: 0 <= i < j < |entries| ==> entries[i].key != entries[j].key
    requires forall i :: 0 <= i < |entries| ==> GoodKey(true, entries[i].key) && Storable(true, elem, entries[i].val)
    ensures Storable(zeroed, FTable(true, elem), VTable(entries)) <==>
            zeroed || forall i :: 0 <= i < |entries| ==> Filled(elem, entries[i].val)
    ensures Typed(FTable(true, elem), VTable(entries))
  {
    hide Ready, Filled;
    forall i | 0 <= i < |entries|
      ensures Typed(elem, entries[i].val) && Ready(elem, entries[i].val, Zero(elem))
      ensures Ready(elem, entries[i].val, VUninit) <==> Filled(elem, entries[i].val)
      ensures Filled(elem, entries[i].val) ==> Storable(false, elem, entries[i].val)
    {
      StorableTyped(true, elem, entries[i].val);
      ReadyZero(elem, entries[i].val);
      ReadyUninit(elem, entries[i].val);
      if Filled(elem, entries[i].val) { FilledStorable(false, elem, entries[i].val); }
    }
  }

  /** An int-keyed table of any element format is read back exactly when its values are
      written in full, or the allocator happens to zero their memory. */
  lemma {:induction false} TableValueLimit(zeroed: bool, s: seq<byte>, elem: Format, entries: seq<Entry>, p: nat, b: nat)
    requires Readable(elem) && forall i, j :: 0 <= i < j < |entries| ==> entries[i].key != entries[j].key
    requires forall i :: 0 <= i < |entries| ==> GoodKey(true, entries[i].key) && Storable(true, elem, entries[i].val)
    requires var f := FTable(true, elem);
             At(s, p, Print(f, VTable(entries))) && |Print(f, VTable(entries))| <= b < TWO32
    ensures var f := FTable(true, elem);
            ParseVal(zeroed, s, f, VNull, p, b) == Done(|Print(f, VTable(entries))|, Normal(f, VTable(entries)), 0) <==>
            zeroed || forall i :: 0 <= i < |entries| ==> Filled(elem, entries[i].val)
  {
    hide *;
    TableStorable(zeroed, elem, entries);
    TableReadable(elem, VTable(entries));
    RoundTripExact(zeroed, s, FTable(true, elem), VTable(entries), VNull, p, b);
  }

  lemma {:induction false} TableReadable(elem: Format, v: Value)
    requires Readable(elem)
    ensures Readable(FTable(true, elem)) && Ready(FTable(true, elem), v, VNull)
  {
  }

  /** Of dynamic strings over memory that is not zeroed: the parser fails exactly when
      some string is not empty; it takes whatever `malloc` returned for a pointer already
      set. */
  lemma {:induction false} StringValueLimit(s: seq<byte>, entries: seq<Entry>, p: nat, b: nat)
    requires Storable(true, FTable(true, FStr), VTable(entries))
    requires var f := FTable(true, FStr);
             At(s, p, Print(f, VTable(entries))) && |Print(f, VTable(entries))| <= b < TWO32
    ensures ParseVal(false, s, FTable(true, FStr), VNull, p, b) == Fail <==>
            exists i :: 0 <= i < |entries| && entries[i].val != VStr([])
  {
    hide *;
    StorableTyped(true, FTable(true, FStr), VTable(entries));
    StringsReadable();
    TableReadable(FStr, VTable(entries));
    RoundTripExact(false, s, FTable(true, FStr), VTable(entries), VNull, p, b);
    StringTable(entries);
  }

  lemma {:induction false} StringsReadable()
    ensures Readable(FStr)
  {
  }

  lemma {:induction false} StringTable(entries: seq<Entry>)
    requires Storable(true, FTable(true, FStr), VTable(entries))
    ensures var f := FTable(true, FStr);
            Decode(false, f, ToWire(f, VTable(entries)), VNull).Bad? <==>
            exists i :: 0 <= i < |entries| && entries[i].val != VStr([])
  {
    hide DecodeEntries, EntryPairs;
    StringValues(entries, []);
  }

  lemma {:induction false} StringValues(entries: seq<Entry>, done: seq<Entry>)
    requires forall i :: 0 <= i < |entries| ==> GoodKey(true, entries[i].key) && entries[i].val.VStr?
    ensures DecodeEntries(false, FTable(true, FStr), EntryPairs(FTable(true, FStr), entries), done).Bad? <==>
            exists i :: 0 <= i < |entries| && entries[i].val != VStr([])
    decreases |entries|
  {
    hide Insert, DecodeEntry, EntryPair;
    var f := FTable(true, FStr);
    if entries != [] {
      var e, rest, ps := entries[0], entries[1..], EntryPairs(f, entries);
      assert ps[0] == EntryPair(f, e) && ps[1..] == EntryPairs(f, rest);
      StringValue(e, done);
      if e.val == VStr([]) {
        StringValues(rest, Insert(done, e.key, VUninit));
        if i :| 0 <= i < |entries| && entries[i].val != VStr([]) {
          assert rest[i - 1].val != VStr([]);
        }
        if i :| 0 <= i < |rest| && rest[i].val != VStr([]) {
          assert entries[i + 1].val != VStr([]);
        }
      }
    }
  }

  lemma {:induction false} StringValue(e: Entry, done: seq<Entry>)
    requires GoodKey(true, e.key) && e.val.VStr?
    ensures var d := DecodeEntry(false, FTable(true, FStr), EntryPair(FTable(true, FStr), e), done);
            if e.val == VStr([]) then d == Good(Insert(done, e.key, VUninit), 0) else d.Bad?
  {
    hide Insert;
  }
}
