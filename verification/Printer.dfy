/** The printer, `serialize_string_ex` and `serialize_string_object_ex`, and the wire
    tree its output spells. */
module Printer {
  import opened Bytes
  import opened Schema
  import opened Wire

  /** The text of the contents `v` under a format. */
  function Print(f: Format, v: Value): seq<byte>
    decreases f, 2
  {
    [f.Tag(), COLON] + PrintBody(f, v)
  }

  function PrintBody(f: Format, v: Value): seq<byte>
    decreases f, 1
  {
    match (f, v)
    case (FBool, VBool(b)) => [if b then 49 else 48, SEMI]
    case (FChar, VChar(c)) => [c, SEMI]
    case (FInt(_), VInt(z)) => Decimal(z) + [SEMI]
    case (FStr, VStr(bytes)) => Digits(|bytes|) + [COLON] + bytes + [SEMI]
    case (FFixStr(_), VFixStr(bytes)) => Digits(|bytes|) + [COLON] + bytes + [SEMI]
    case (FObj(fields), VObj(vs)) => [LBRACE] + PrintMembers(f, vs, 0) + [RBRACE]
    case (FArr(elem), VArr(es)) => Digits(|es|) + [LBRACKET] + PrintElems(elem, es) + [RBRACKET]
    case (FFixArr(_, elem), VFixArr(len, slots)) =>
      Digits(len) + [LBRACKET] + PrintElems(elem, Live(len, slots)) + [RBRACKET]
    case (FTable(_, _), VTable(entries)) => [LPAREN] + PrintEntries(f, entries) + [RPAREN]
    case (FTable(_, _), VNull) => [LPAREN, RPAREN]
    case _ => []
  }

  /** The slots a fixed array's length covers. */
  function Live(len: nat, slots: seq<Value>): (r: seq<Value>)
    ensures len <= |slots| ==> r == slots[..len]
  {
    if len <= |slots| then slots[..len] else slots
  }

  function PrintElems(e: Format, es: seq<Value>): seq<byte>
    decreases e, 3, |es|
  {
    if es == [] then [] else Print(e, es[0]) + PrintElems(e, es[1..])
  }

  /** The fields from the `i`-th on, in schema order. */
  function PrintMembers(f: Format, vs: seq<Value>, i: nat): seq<byte>
    requires f.FObj?
    decreases f, 0, |f.fields| - i
  {
    if i >= |f.fields| || i >= |vs| then []
    else PrintKey(f.fields[i].key) + Print(f.fields[i].fmt, vs[i]) + PrintMembers(f, vs, i + 1)
  }

  function PrintKey(key: seq<byte>): seq<byte> {
    [115, COLON] + Digits(|key|) + [COLON] + key + [SEMI]
  }

  function PrintEntries(f: Format, entries: seq<Entry>): seq<byte>
    requires f.FTable?
    decreases f, 0, |entries|
  {
    if entries == [] then []
    else PrintTableKey(entries[0].key) + Print(f.elem, entries[0].val) + PrintEntries(f, entries[1..])
  }

  /** `_serialize_foreach_ht` prints a string key up to its NUL. */
  function PrintTableKey(key: Key): seq<byte> {
    match key
    case IntKey(i) => [73, COLON] + Digits(i) + [SEMI]
    case StrKey(s) => PrintKey(CStr(s))
  }

  /* ---------- which contents the original can hold ---------- */

  /** A schema the object parser can read back: every object has at least one field,
      its keys are distinct C strings of 1 to 100 bytes. */
  predicate Readable(f: Format)
    decreases f
  {
    match f
    case FObj(fields) =>
      && fields != []
      && CKeys(f)
      && forall i :: 0 <= i < |fields| ==> KeyFits(fields[i].key) && Readable(fields[i].fmt)
    case FArr(elem) => Readable(elem)
    case FFixArr(_, elem) => Readable(elem)
    case FTable(_, elem) => Readable(elem)
    case _ => true
  }

  /** An object's keys are distinct C strings. */
  predicate CKeys(f: Format)
    requires f.FObj?
  {
    && (forall i, j :: 0 <= i < j < |f.fields| ==> f.fields[i].key != f.fields[j].key)
    && forall i :: 0 <= i < |f.fields| ==> NUL !in f.fields[i].key
  }

  /** The parser's key buffer holds 100 bytes and a NUL. */
  predicate KeyFits(key: seq<byte>) {
    1 <= |key| <= 100
  }

  /** Memory contents of the format's type. A string-keyed table holds at most one entry,
      under a non-empty key; table values must be such that the parser writes them in
      full over what `malloc` returned. */
  predicate Storable(zeroed: bool, f: Format, v: Value)
    decreases f
  {
    match (f, v)
    case (FBool, VBool(_)) => true
    case (FChar, VChar(_)) => true
    case (FInt(k), VInt(z)) => k.Holds(z)
    case (FStr, VStr(bytes)) => |bytes| < TWO32
    case (FFixStr(cap), VFixStr(bytes)) => |bytes| <= cap && |bytes| < TWO32
    case (FObj(fields), VObj(vs)) =>
      |vs| == |fields| && forall i :: 0 <= i < |vs| ==> Storable(zeroed, fields[i].fmt, vs[i])
    case (FArr(elem), VArr(es)) =>
      |es| < TWO32 && forall i :: 0 <= i < |es| ==> Storable(zeroed, elem, es[i])
    case (FFixArr(cap, elem), VFixArr(len, slots)) =>
      len <= cap == |slots| && len < TWO32 && forall i :: 0 <= i < len ==> Storable(zeroed, elem, slots[i])
    case (FTable(isint, elem), VTable(entries)) =>
      && (forall i, j :: 0 <= i < j < |entries| ==> entries[i].key != entries[j].key)
      && (forall i :: 0 <= i < |entries| ==>
            GoodKey(isint, entries[i].key)
            && Storable(zeroed, elem, entries[i].val)
            && Ready(elem, entries[i].val, HashInit(zeroed, elem)))
      && (!isint ==> |entries| <= 1)
    case (FTable(_, _), VNull) => true
    case _ => false
  }

  /** Contents of the format's type, of any number of table entries and whatever their
      keys and their memory. */
  predicate Typed(f: Format, v: Value)
    decreases f
  {
    match (f, v)
    case (FBool, VBool(_)) => true
    case (FChar, VChar(_)) => true
    case (FInt(k), VInt(z)) => k.Holds(z)
    case (FStr, VStr(bytes)) => |bytes| < TWO32
    case (FFixStr(cap), VFixStr(bytes)) => |bytes| <= cap && |bytes| < TWO32
    case (FObj(fields), VObj(vs)) =>
      |vs| == |fields| && forall i :: 0 <= i < |vs| ==> Typed(fields[i].fmt, vs[i])
    case (FArr(elem), VArr(es)) =>
      |es| < TWO32 && forall i :: 0 <= i < |es| ==> Typed(elem, es[i])
    case (FFixArr(cap, elem), VFixArr(len, slots)) =>
      len <= cap == |slots| && len < TWO32 && forall i :: 0 <= i < len ==> Typed(elem, slots[i])
    case (FTable(isint, elem), VTable(entries)) =>
      && (forall i, j :: 0 <= i < j < |entries| ==> entries[i].key != entries[j].key)
      && (forall i :: 0 <= i < |entries| ==> TypedKey(isint, entries[i].key) && Typed(elem, entries[i].val))
    case (FTable(_, _), VNull) => true
    case _ => false
  }

  predicate TypedKey(isint: bool, key: Key) {
    match key
    case IntKey(i) => isint && i < TWO32
    case StrKey(s) => !isint && NUL !in s
  }

  lemma {:induction false} StorableTyped(zeroed: bool, f: Format, v: Value)
    requires Storable(zeroed, f, v)
    ensures Typed(f, v)
    decreases f
  {
    hide Ready;
    match (f, v)
    case (FObj(fields), VObj(vs)) =>
      forall i | 0 <= i < |vs| ensures Typed(fields[i].fmt, vs[i]) { StorableTyped(zeroed, fields[i].fmt, vs[i]); }
    case (FArr(elem), VArr(es)) =>
      forall i | 0 <= i < |es| ensures Typed(elem, es[i]) { StorableTyped(zeroed, elem, es[i]); }
    case (FFixArr(_, elem), VFixArr(len, slots)) =>
      forall i | 0 <= i < len ensures Typed(elem, slots[i]) { StorableTyped(zeroed, elem, slots[i]); }
    case (FTable(_, elem), VTable(entries)) =>
      forall i | 0 <= i < |entries| ensures Typed(elem, entries[i].val) { StorableTyped(zeroed, elem, entries[i].val); }
    case _ =>
  }

  predicate GoodKey(isint: bool, key: Key) {
    match key
    case IntKey(i) => isint && i < TWO32
    case StrKey(s) => !isint && s != [] && NUL !in s
  }

  /** Storing `v` over the contents `t` leaves nothing of `t` behind. */
  predicate Ready(f: Format, v: Value, t: Value)
    decreases f
  {
    match (f, v)
    case (FStr, _) => t == VStr([])
    case (FFixStr(_), VFixStr(bytes)) => bytes == [] ==> t == VFixStr([])
    case (FObj(fields), VObj(vs)) =>
      |vs| == |fields| ==>
        forall i :: 0 <= i < |vs| ==> Ready(fields[i].fmt, vs[i], Members(t, |fields|)[i])
    case (FArr(_), _) => t == VArr([])
    case (FFixArr(cap, elem), VFixArr(len, slots)) =>
      if len == 0 then t == Zero(f)
      else forall i :: 0 <= i < cap ==>
        if i < len && i < |slots| then Ready(elem, slots[i], Slots(t, cap)[i]) else Slots(t, cap)[i] == Zero(elem)
    case (FTable(_, _), _) => t == VNull
    case _ => true
  }

  /** The contents a reader of the text rebuilds: dead slots of fixed arrays zeroed, an
      unset table empty. */
  function Normal(f: Format, v: Value): Value
    decreases f
  {
    match (f, v)
    case (FObj(fields), VObj(vs)) =>
      VObj(seq(|vs|, i requires 0 <= i < |vs| => if i < |fields| then Normal(fields[i].fmt, vs[i]) else vs[i]))
    case (FArr(elem), VArr(es)) => VArr(seq(|es|, i requires 0 <= i < |es| => Normal(elem, es[i])))
    case (FFixArr(cap, elem), VFixArr(len, slots)) =>
      VFixArr(len, seq(cap, i requires 0 <= i < cap =>
        if i < len && i < |slots| then Normal(elem, slots[i]) else Zero(elem)))
    case (FTable(_, elem), VTable(entries)) =>
      VTable(seq(|entries|, i requires 0 <= i < |entries| =>
        Entry(entries[i].key, Normal(elem, entries[i].val))))
    case (FTable(_, _), VNull) => VTable([])
    case _ => v
  }

  /* ---------- the tree behind the text ---------- */

  function ToWire(f: Format, v: Value): Wire
    decreases f, 2
  {
    match (f, v)
    case (FBool, VBool(b)) => WBool(b)
    case (FChar, VChar(c)) => WChar(c)
    case (FInt(k), VInt(z)) => WNum(k, z)
    case (FStr, VStr(bytes)) => WStr(false, bytes)
    case (FFixStr(_), VFixStr(bytes)) => WStr(true, bytes)
    case (FObj(_), VObj(vs)) => WObj(MemberPairs(f, vs, 0))
    case (FArr(elem), VArr(es)) => WArr(false, ElemWires(elem, es))
    case (FFixArr(_, elem), VFixArr(len, slots)) => WArr(true, ElemWires(elem, Live(len, slots)))
    case (FTable(_, _), VTable(entries)) => WTab(EntryPairs(f, entries))
    case (FTable(_, _), _) => WTab([])
    case _ => WBool(false)
  }

  function ElemWires(e: Format, es: seq<Value>): (r: seq<Wire>)
    ensures |r| == |es|
    decreases e, 3, |es|
  {
    if es == [] then [] else [ToWire(e, es[0])] + ElemWires(e, es[1..])
  }

  function MemberPairs(f: Format, vs: seq<Value>, i: nat): (r: seq<Pair>)
    requires f.FObj?
    ensures i < |f.fields| && i < |vs| ==> r != []
    decreases f, 0, |f.fields| - i
  {
    if i >= |f.fields| || i >= |vs| then []
    else [MemberPair(f, vs, i)] + MemberPairs(f, vs, i + 1)
  }

  function MemberPair(f: Format, vs: seq<Value>, i: nat): Pair
    requires f.FObj? && i < |f.fields| && i < |vs|
    decreases f, 0, 0
  {
    Pair(WStr(false, f.fields[i].key), ToWire(f.fields[i].fmt, vs[i]))
  }

  function EntryPairs(f: Format, entries: seq<Entry>): seq<Pair>
    requires f.FTable?
    decreases f, 1, |entries|
  {
    if entries == [] then []
    else [EntryPair(f, entries[0])] + EntryPairs(f, entries[1..])
  }

  function EntryPair(f: Format, e: Entry): Pair
    requires f.FTable?
    decreases f, 0, 0
  {
    Pair(KeyWire(e.key), ToWire(f.elem, e.val))
  }

  function KeyWire(key: Key): Wire {
    match key
    case IntKey(i) => WNum(UInt, i)
    case StrKey(s) => WStr(false, CStr(s))
  }

  /** The printer spells a wire tree: on typed contents its output is the text of
      `ToWire`. */
  lemma {:induction false} PrintSpells(f: Format, v: Value)
    requires Typed(f, v)
    ensures Print(f, v) == Text(ToWire(f, v))
    decreases f, 2
  {
    hide StrText, Decimal, Digits, PrintElems, ElemsText, PrintMembers, PrintEntries;
    hide ElemWires, EntryPairs, MemberPairs, TypedKey;
    match (f, v)
    case (FArr(elem), VArr(es)) => PrintSpellsElems(elem, es);
    case (FFixArr(_, elem), VFixArr(len, slots)) => PrintSpellsElems(elem, slots[..len]);
    case (FObj(_), VObj(vs)) => PrintSpellsMembers(f, vs, 0);
    case (FTable(_, _), VTable(entries)) => PrintSpellsEntries(f, entries);
    case (FTable(_, _), VNull) =>
    case _ => PrintSpellsLeaf(f, v);
  }

  lemma {:induction false} PrintSpellsLeaf(f: Format, v: Value)
    requires f.IsLeaf() && Typed(f, v)
    ensures Print(f, v) == Text(ToWire(f, v))
  {
    hide Digits, Decimal;
  }

  lemma {:induction false} PrintSpellsElems(e: Format, es: seq<Value>)
    requires forall i :: 0 <= i < |es| ==> Typed(e, es[i])
    ensures PrintElems(e, es) == ElemsText(ElemWires(e, es))
    decreases e, 3, |es|
  {
    hide Print, Text, ToWire, Typed;
    if es != [] {
      PrintSpells(e, es[0]);
      PrintSpellsElems(e, es[1..]);
    }
  }

  lemma {:induction false} PrintSpellsMembers(f: Format, vs: seq<Value>, i: nat)
    requires f.FObj? && |vs| == |f.fields| && i <= |vs|
    requires forall j :: 0 <= j < |vs| ==> Typed(f.fields[j].fmt, vs[j])
    ensures PrintMembers(f, vs, i) == PairsText(MemberPairs(f, vs, i))
    decreases f, 0, |vs| - i
  {
    hide Print, ToWire, Typed, Digits;
    if i < |vs| {
      PrintSpells(f.fields[i].fmt, vs[i]);
      PrintSpellsMembers(f, vs, i + 1);
      assert PrintKey(f.fields[i].key) == Text(WStr(false, f.fields[i].key));
      var ps := MemberPairs(f, vs, i);
      assert ps[0] == MemberPair(f, vs, i) && ps[1..] == MemberPairs(f, vs, i + 1);
    }
  }

  lemma {:induction false} PrintSpellsEntries(f: Format, entries: seq<Entry>)
    requires f.FTable?
    requires forall i :: 0 <= i < |entries| ==> Typed(f.elem, entries[i].val)
    ensures PrintEntries(f, entries) == PairsText(EntryPairs(f, entries))
    decreases f, 0, |entries|
  {
    hide Print, ToWire, Typed, Digits;
    if entries != [] {
      PrintSpells(f.elem, entries[0].val);
      PrintSpellsEntries(f, entries[1..]);
      assert PrintTableKey(entries[0].key) == Text(KeyWire(entries[0].key));
      var ps := EntryPairs(f, entries);
      assert ps[0] == EntryPair(f, entries[0]) && ps[1..] == EntryPairs(f, entries[1..]);
    }
  }
}
