/** Canonicalisation: whatever bytes the parser accepts, the contents it leaves can be
    printed and read back to the same contents. */
module Canonical {
  import opened Bytes
  import opened Schema
  import opened Skipper
  import opened Parser
  import opened Printer
  import opened RoundTrip
  import opened Exact

  /** Contents a run of parses over zeroed memory can leave: storable, dead slots of
      fixed arrays included. */
  predicate Held(f: Format, v: Value)
    decreases f, 1
  {
    match (f, v)
    case (FBool, VBool(_)) => true
    case (FChar, VChar(_)) => true
    case (FInt(k), VInt(z)) => k.Holds(z)
    case (FStr, VStr(bytes)) => |bytes| < TWO32
    case (FFixStr(cap), VFixStr(bytes)) => |bytes| <= cap && |bytes| < TWO32
    case (FObj(fields), VObj(vs)) =>
      |vs| == |fields| && forall i :: 0 <= i < |vs| ==> Held(fields[i].fmt, vs[i])
    case (FArr(elem), VArr(es)) => |es| < TWO32 && HeldAll(elem, es)
    case (FFixArr(cap, elem), VFixArr(len, slots)) => len <= cap == |slots| && len < TWO32 && HeldAll(elem, slots)
    case (FTable(isint, elem), VTable(entries)) => HeldEntries(f, entries)
    case (FTable(_, _), VNull) => true
    case _ => false
  }

  predicate HeldAll(e: Format, es: seq<Value>)
    decreases e, 2
  {
    forall i :: 0 <= i < |es| ==> Held(e, es[i])
  }

  predicate HeldMembers(f: Format, vs: seq<Value>)
    requires f.FObj?
    decreases f, 2
  {
    |vs| == |f.fields| && forall i :: 0 <= i < |vs| ==> Held(f.fields[i].fmt, vs[i])
  }

  predicate HeldEntries(f: Format, entries: seq<Entry>)
    requires f.FTable?
    decreases f, 0
  {
    && (forall i, j :: 0 <= i < j < |entries| ==> entries[i].key != entries[j].key)
    && (forall i :: 0 <= i < |entries| ==> TypedKey(f.isint, entries[i].key) && Held(f.elem, entries[i].val))
    && (!f.isint ==> |entries| <= 1)
  }

  lemma {:induction false} HeldZero(f: Format)
    ensures Held(f, Zero(f))
    decreases f
  {
    match f
    case FObj(fields) =>
      forall i | 0 <= i < |fields| ensures Held(fields[i].fmt, Zero(fields[i].fmt)) { HeldZero(fields[i].fmt); }
    case FFixArr(_, elem) => HeldZero(elem);
    case _ =>
  }

  /** No string key is empty, as one that begins with NUL is once it is stored. */
  predicate KeysKept(f: Format, v: Value)
    decreases f
  {
    match (f, v)
    case (FObj(fields), VObj(vs)) => |vs| == |fields| ==> forall i :: 0 <= i < |vs| ==> KeysKept(fields[i].fmt, vs[i])
    case (FArr(elem), VArr(es)) => forall i :: 0 <= i < |es| ==> KeysKept(elem, es[i])
    case (FFixArr(_, elem), VFixArr(len, slots)) => forall i :: 0 <= i < len && i < |slots| ==> KeysKept(elem, slots[i])
    case (FTable(isint, elem), VTable(entries)) =>
      forall i :: 0 <= i < |entries| ==> (entries[i].key == StrKey([]) ==> isint) && KeysKept(elem, entries[i].val)
    case _ => true
  }

  /** Held contents are typed, and storable exactly when their keys are kept. */
  lemma {:induction false} HeldStorable(f: Format, v: Value)
    requires Held(f, v)
    ensures Typed(f, v) && (Storable(true, f, v) <==> KeysKept(f, v))
    decreases f, 0
  {
    hide Ready;
    match (f, v)
    case (FObj(fields), VObj(vs)) =>
      forall i | 0 <= i < |vs|
        ensures Typed(fields[i].fmt, vs[i]) && (Storable(true, fields[i].fmt, vs[i]) <==> KeysKept(fields[i].fmt, vs[i]))
      {
        HeldStorable(fields[i].fmt, vs[i]);
      }
    case (FArr(elem), VArr(es)) => HeldAllStorable(elem, es);
    case (FFixArr(_, elem), VFixArr(len, slots)) => HeldAllStorable(elem, slots);
    case (FTable(_, elem), VTable(entries)) =>
      forall i | 0 <= i < |entries|
        ensures Typed(elem, entries[i].val) && Ready(elem, entries[i].val, HashInit(true, elem))
        ensures Storable(true, elem, entries[i].val) <==> KeysKept(elem, entries[i].val)
      {
        HeldStorable(elem, entries[i].val);
        ReadyZero(elem, entries[i].val);
      }
    case _ =>
  }

  lemma {:induction false} HeldAllStorable(elem: Format, es: seq<Value>)
    requires HeldAll(elem, es)
    ensures forall i :: 0 <= i < |es| ==> Typed(elem, es[i]) && (Storable(true, elem, es[i]) <==> KeysKept(elem, es[i]))
    decreases elem, 1
  {
    hide Held, Typed, Storable, KeysKept;
    forall i | 0 <= i < |es|
      ensures Typed(elem, es[i]) && (Storable(true, elem, es[i]) <==> KeysKept(elem, es[i]))
    {
      HeldStorable(elem, es[i]);
    }
  }

  /** Whatever the bytes, parsing turns held contents into held contents. */
  lemma {:induction false} ParseHeld(s: seq<byte>, f: Format, t: Value, p: nat, b: nat)
    requires Held(f, t) && ParseVal(true, s, f, t, p, b).Done?
    ensures Held(f, ParseVal(true, s, f, t, p, b).v)
    decreases f, 3
  {
    hide Resync, Skip, ParseLeaf, ParseObject, ParseArray, ParseEntries, StrChr;
    var y := Resync(s, f.Tag(), p, b);
    if f.IsLeaf() {
      LeafHeld(s, f, t, p, y.p + 2, y.b);
    } else if f.FObj? {
      var c := StrChr(s, y.p + 2, LBRACE).value;
      ObjectHeld(s, f, Members(t, |f.fields|), c + 1, y.b);
    } else if f.FTable? {
      var c := StrChr(s, y.p + 2, LPAREN).value;
      EntriesHeld(s, f, [], c + 1, y.b);
    } else {
      ArrayHeld(s, f, t, p, y.p + 2, y.b);
    }
  }

  lemma {:induction false} LeafHeld(s: seq<byte>, f: Format, t: Value, p: nat, q: nat, b: nat)
    requires f.IsLeaf() && Held(f, t) && p < q && ParseLeaf(s, f, t, p, q, b).Done?
    ensures Held(f, ParseLeaf(s, f, t, p, q, b).v)
  {
    hide StrToUl, ScanSigned, StrChr;
  }

  lemma {:induction false} ArrayHeld(s: seq<byte>, f: Format, t: Value, p: nat, q: nat, b: nat)
    requires (f.FArr? || f.FFixArr?) && p < q
    requires Held(f, t) && ParseArray(true, s, f, t, p, q, b).Done?
    ensures Held(f, ParseArray(true, s, f, t, p, q, b).v)
    decreases f, 1
  {
    hide StrToUl, StrChr, ParseElems, Zero;
    var (n64, e) := StrToUl(s, q);
    var n := n64 % 0x1_0000_0000;
    if n != 0 {
      var d := StrChr(s, e, LBRACKET).value + 1;
      var slots := if f.FArr? then Blank(n, Zero(f.elem)) else Slots(t, f.cap);
      HeldZero(f.elem);
      ElemsHeld(s, f.elem, slots, 0, if n < |slots| then n else |slots|, d, b);
    }
  }

  lemma {:induction false} ElemsHeld(s: seq<byte>, e: Format, slots: seq<Value>, i: nat, n: nat, q: nat, b: nat)
    requires i <= n <= |slots| && HeldAll(e, slots)
    requires ParseElems(true, s, e, slots, i, n, q, b).Reached?
    ensures HeldAll(e, ParseElems(true, s, e, slots, i, n, q, b).parts)
    decreases e, 4, n - i
  {
    hide ParseVal, Held;
    if i < n {
      ParseHeld(s, e, slots[i], q, b);
      var r := ParseVal(true, s, e, slots[i], q, b);
      ElemsHeld(s, e, slots[i := r.v], i + 1, n, q + r.n, Sub32(b, r.n));
    }
  }

  lemma {:induction false} ObjectHeld(s: seq<byte>, f: Format, ts: seq<Value>, q: nat, b: nat)
    requires f.FObj? && HeldMembers(f, ts)
    requires ParseObject(true, s, f, ts, q, b).Reached?
    ensures HeldMembers(f, ParseObject(true, s, f, ts, q, b).parts)
    decreases f, 1, Rem(s, q)
  {
    hide ParseMember, Held;
    if b > 2 && Peek(s, q) == 115 && Peek(s, q + 1) == COLON {
      var m := ParseMember(true, s, f, ts, q, b);
      MemberHeld(s, f, ts, q, b);
      ObjectHeld(s, f, m.parts, m.q, Sub32(b, m.q - q));
    }
  }

  lemma {:induction false} MemberHeld(s: seq<byte>, f: Format, ts: seq<Value>, q: nat, b: nat)
    requires f.FObj? && HeldMembers(f, ts)
    requires ParseMember(true, s, f, ts, q, b).Reached?
    ensures HeldMembers(f, ParseMember(true, s, f, ts, q, b).parts)
    decreases f, 0
  {
    hide ParseVal, ParseKey, Skip, Lookup;
    var (key, d) := ParseKey(s, q, b).value;
    var i := Lookup(f.fields, key);
    if i != -1 {
      ParseHeld(s, f.fields[i].fmt, ts[i], d, Sub32(b, d - q));
    }
  }

  lemma {:induction false} EntriesHeld(s: seq<byte>, f: Format, entries: seq<Entry>, q: nat, b: nat)
    requires f.FTable? && HeldEntries(f, entries)
    requires ParseEntries(true, s, f, entries, q, b).Reached?
    ensures HeldEntries(f, ParseEntries(true, s, f, entries, q, b).parts)
    decreases f, 1, Rem(s, q)
  {
    hide ParseEntry, HeldEntries;
    if b > 0 && Peek(s, q) != RPAREN {
      var m := ParseEntry(true, s, f, entries, q, b);
      EntryHeld(s, f, entries, q, b);
      EntriesHeld(s, f, m.parts, m.q, Sub32(b, m.q - q));
    }
  }

  lemma {:induction false} EntryHeld(s: seq<byte>, f: Format, entries: seq<Entry>, q: nat, b: nat)
    requires f.FTable? && HeldEntries(f, entries)
    requires ParseEntry(true, s, f, entries, q, b).Reached?
    ensures HeldEntries(f, ParseEntry(true, s, f, entries, q, b).parts)
    decreases f, 0
  {
    hide ParseVal, ParseEntryKey, Insert, HeldEntries;
    var (key, d, k) := ParseEntryKey(s, f.isint, entries, q, b).value;
    HeldZero(f.elem);
    ParseHeld(s, f.elem, Zero(f.elem), d, Sub32(b, d - q));
    EntryKeyTyped(s, f.isint, entries, q, b);
    InsertHeld(f, entries, key, ParseVal(true, s, f.elem, Zero(f.elem), d, Sub32(b, d - q)).v);
  }

  lemma {:induction false} EntryKeyTyped(s: seq<byte>, isint: bool, entries: seq<Entry>, q: nat, b: nat)
    requires ParseEntryKey(s, isint, entries, q, b).Some?
    ensures TypedKey(isint, ParseEntryKey(s, isint, entries, q, b).value.0) && (!isint ==> entries == [])
  {
    hide Resync, StrChr, ScanSigned, CStr, StrToUl;
  }

  lemma {:induction false} InsertHeld(f: Format, entries: seq<Entry>, key: Key, v: Value)
    requires f.FTable? && HeldEntries(f, entries) && TypedKey(f.isint, key) && Held(f.elem, v) && (!f.isint ==> entries == [])
    ensures HeldEntries(f, Insert(entries, key, v))
    ensures forall e <- Insert(entries, key, v) :: e.key == key || exists d <- entries :: d.key == e.key
    decreases |entries|
  {
    hide Held, TypedKey, Insert;
    InsertOnce(entries, key, v);
    if entries != [] && entries[0].key != key {
      var x, rest := entries[0], entries[1..];
      InsertHeld(f, rest, key, v);
      var r := Insert(rest, key, v);
      forall e <- r
        ensures e.key != x.key && (e.key == key || exists d <- entries :: d.key == e.key)
      {
        if e.key != key {
          var d :| d in rest && d.key == e.key;
          assert d in entries;
        }
      }
      HeldCons(f, x, r);
    }
  }

  /** One step of the insertion. */
  lemma {:induction false} InsertOnce(entries: seq<Entry>, key: Key, v: Value)
    ensures Insert(entries, key, v) ==
            if entries == [] then [Entry(key, v)]
            else if entries[0].key == key then [Entry(key, v)] + entries[1..]
            else [entries[0]] + Insert(entries[1..], key, v)
  {
  }

  lemma {:induction false} HeldCons(f: Format, x: Entry, r: seq<Entry>)
    requires f.FTable? && f.isint && HeldEntries(f, r) && TypedKey(f.isint, x.key) && Held(f.elem, x.val)
    requires forall e <- r :: e.key != x.key
    ensures HeldEntries(f, [x] + r)
  {
    hide Held, TypedKey;
  }

  lemma {:induction false} EmptyEntries(f: Format)
    requires f.FTable?
    ensures PrintEntries(f, []) == []
  {
  }

  /** Normal contents print the same and are their own normal form. */
  lemma {:induction false} NormalPrints(f: Format, v: Value)
    requires Typed(f, v)
    ensures Print(f, Normal(f, v)) == Print(f, v) && Normal(f, Normal(f, v)) == Normal(f, v)
    decreases f, 2
  {
    hide Zero, TypedKey, Digits, PrintElems, PrintMembers, PrintEntries;
    match (f, v)
    case (FArr(elem), VArr(es)) =>
      NormalPrintsElems(elem, es, Normal(f, v).es);
      assert Normal(f, Normal(f, v)).es == Normal(f, v).es;
    case (FFixArr(cap, elem), VFixArr(len, slots)) =>
      NormalPrintsElems(elem, slots[..len], Normal(f, v).slots[..len]);
      assert forall i :: 0 <= i < len ==> Normal(f, v).slots[..len][i] == Normal(f, v).slots[i];
      assert Normal(f, Normal(f, v)).slots == Normal(f, v).slots;
    case (FObj(fields), VObj(vs)) =>
      NormalPrintsMembers(f, vs, Normal(f, v).vs, 0);
      assert Normal(f, Normal(f, v)).vs == Normal(f, v).vs;
    case (FTable(_, _), VTable(entries)) =>
      NormalPrintsEntries(f, entries, Normal(f, v).entries);
      assert Normal(f, Normal(f, v)).entries == Normal(f, v).entries;
    case (FTable(_, _), VNull) => EmptyEntries(f);
    case _ =>
  }

  lemma {:induction false} NormalPrintsElems(e: Format, es: seq<Value>, ns: seq<Value>)
    requires |es| == |ns| && forall i :: 0 <= i < |es| ==> Typed(e, es[i]) && ns[i] == Normal(e, es[i])
    ensures PrintElems(e, ns) == PrintElems(e, es)
    ensures forall i :: 0 <= i < |es| ==> Normal(e, ns[i]) == ns[i]
    decreases e, 3, |es|
  {
    hide Print, Normal, Typed;
    if es != [] {
      NormalPrints(e, es[0]);
      NormalPrintsElems(e, es[1..], ns[1..]);
      forall i | 0 <= i < |es| ensures Normal(e, ns[i]) == ns[i] {
        if i > 0 { assert ns[i] == ns[1..][i - 1]; }
      }
    }
  }

  lemma {:induction false} NormalPrintsMembers(f: Format, vs: seq<Value>, ns: seq<Value>, i: nat)
    requires f.FObj? && |vs| == |ns| == |f.fields| && i <= |vs|
    requires forall j :: 0 <= j < |vs| ==>
      Typed(f.fields[j].fmt, vs[j]) && ns[j] == Normal(f.fields[j].fmt, vs[j])
    ensures PrintMembers(f, ns, i) == PrintMembers(f, vs, i)
    ensures forall j :: i <= j < |vs| ==> Normal(f.fields[j].fmt, ns[j]) == ns[j]
    decreases f, 0, |vs| - i
  {
    hide Print, Normal, Typed;
    if i < |vs| {
      NormalPrints(f.fields[i].fmt, vs[i]);
      NormalPrintsMembers(f, vs, ns, i + 1);
    }
  }

  lemma {:induction false} NormalPrintsEntries(f: Format, entries: seq<Entry>, ns: seq<Entry>)
    requires f.FTable? && |entries| == |ns|
    requires forall i :: 0 <= i < |entries| ==>
      Typed(f.elem, entries[i].val) && ns[i] == Entry(entries[i].key, Normal(f.elem, entries[i].val))
    ensures PrintEntries(f, ns) == PrintEntries(f, entries)
    ensures forall i :: 0 <= i < |entries| ==> Normal(f.elem, ns[i].val) == ns[i].val
    decreases f, 0, |entries|
  {
    hide Print, Normal, Typed, PrintTableKey;
    if entries != [] {
      NormalPrints(f.elem, entries[0].val);
      NormalPrintsEntries(f, entries[1..], ns[1..]);
      forall i | 0 <= i < |entries| ensures Normal(f.elem, ns[i].val) == ns[i].val {
        if i > 0 { assert ns[i] == ns[1..][i - 1]; }
      }
    }
  }

  /** Canonicalisation: take any bytes that are accepted, and contents without unset memory.
      Parsing their print gives them back in normal form if and only if they are storable,
      and the normal form prints the same. From zeroed memory no part is unset, and they
      are storable exactly when no string key is empty. */
  lemma {:induction false} Canonicalise(zeroed: bool, s: seq<byte>, f: Format, p: nat, b: nat, rest: seq<byte>)
    requires Readable(f) && ParseVal(zeroed, s, f, Zero(f), p, b).Done?
    requires var v := ParseVal(zeroed, s, f, Zero(f), p, b).v; (zeroed || Typed(f, v)) && |Print(f, v) + rest| < TWO32
    ensures var v := ParseVal(zeroed, s, f, Zero(f), p, b).v;
            var text := Print(f, v) + rest;
            && Typed(f, v) && Print(f, Normal(f, v)) == Print(f, v)
            && (ParseVal(zeroed, text, f, Zero(f), 0, |text|) == Done(|Print(f, v)|, Normal(f, v), 0) <==> Storable(zeroed, f, v))
            && (zeroed ==> (Storable(zeroed, f, v) <==> KeysKept(f, v)))
  {
    hide ParseVal, Print, Normal, Zero, Readable, Storable, Held, Typed, Ready, KeysKept;
    var v := ParseVal(zeroed, s, f, Zero(f), p, b).v;
    if zeroed {
      HeldZero(f);
      ParseHeld(s, f, Zero(f), p, b);
      HeldStorable(f, v);
    }
    ReadyZero(f, v);
    assert At(Print(f, v) + rest, 0, Print(f, v));
    RoundTripExact(zeroed, Print(f, v) + rest, f, v, Zero(f), 0, |Print(f, v) + rest|);
    NormalPrints(f, v);
  }
}
