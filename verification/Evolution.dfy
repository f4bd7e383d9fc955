/** Schema evolution and field order: what an old reader makes of a newer writer's text,
    and of fields in another order. */
module Evolution {
  import opened Bytes
  import opened Schema
  import opened Wire
  import opened Parser
  import opened Decoder
  import opened Printer
  import opened RoundTrip
  import opened Exact

  /** The tree without the fields the schema does not know, at every depth. */
  function Strip(f: Format, w: Wire): Wire
    decreases w, 0
  {
    match (f, w)
    case (FObj(_), WObj(pairs)) => WObj(StripMembers(f, pairs))
    case (FArr(elem), WArr(fixed, elems)) => WArr(fixed, StripElems(elem, elems))
    case (FFixArr(_, elem), WArr(fixed, elems)) => WArr(fixed, StripElems(elem, elems))
    case (FTable(_, _), WTab(pairs)) => WTab(StripEntries(f, pairs))
    case _ => w
  }

  function StripElems(e: Format, ws: seq<Wire>): (r: seq<Wire>)
    ensures |r| == |ws|
    decreases ws, 0
  {
    if ws == [] then [] else [Strip(e, ws[0])] + StripElems(e, ws[1..])
  }

  /** A field with a key the parser takes and the schema does not know. */
  predicate Foreign(f: Format, pr: Pair)
    requires f.FObj?
  {
    KeyText(pr.key) && FieldOf(f, pr) == -1
  }

  function StripMembers(f: Format, ps: seq<Pair>): seq<Pair>
    requires f.FObj?
    decreases ps, 0
  {
    if ps == [] then []
    else if Foreign(f, ps[0]) then StripMembers(f, ps[1..])
    else [StripMember(f, ps[0])] + StripMembers(f, ps[1..])
  }

  function StripMember(f: Format, pr: Pair): Pair
    requires f.FObj?
    decreases pr, 0
  {
    if !KeyText(pr.key) || Foreign(f, pr) then pr
    else Pair(pr.key, Strip(f.fields[FieldOf(f, pr)].fmt, pr.val))
  }

  function StripEntries(f: Format, ps: seq<Pair>): seq<Pair>
    requires f.FTable?
    decreases ps, 0
  {
    if ps == [] then [] else [StripEntry(f, ps[0])] + StripEntries(f, ps[1..])
  }

  function StripEntry(f: Format, pr: Pair): Pair
    requires f.FTable?
    decreases pr, 0
  {
    Pair(pr.key, Strip(f.elem, pr.val))
  }

  /** Every foreign field the reader will meet holds a value its skipper can pass. */
  predicate ForeignOk(f: Format, w: Wire)
    decreases w, 0
  {
    match (f, w)
    case (FObj(_), WObj(pairs)) => ForeignOkMembers(f, pairs)
    case (FArr(elem), WArr(_, elems)) => ForeignOkElems(elem, elems)
    case (FFixArr(_, elem), WArr(_, elems)) => ForeignOkElems(elem, elems)
    case (FTable(_, _), WTab(pairs)) => ForeignOkEntries(f, pairs)
    case _ => true
  }

  predicate ForeignOkElems(e: Format, ws: seq<Wire>)
    decreases ws, 0
  {
    ws == [] || (ForeignOk(e, ws[0]) && ForeignOkElems(e, ws[1..]))
  }

  predicate ForeignOkMembers(f: Format, ps: seq<Pair>)
    requires f.FObj?
    decreases ps, 0
  {
    ps == [] || (ForeignOkMember(f, ps[0]) && ForeignOkMembers(f, ps[1..]))
  }

  predicate ForeignOkMember(f: Format, pr: Pair)
    requires f.FObj?
    decreases pr, 0
  {
    KeyText(pr.key) ==>
      if FieldOf(f, pr) == -1 then NoSemiChar(pr.val) else ForeignOk(f.fields[FieldOf(f, pr)].fmt, pr.val)
  }

  predicate ForeignOkEntries(f: Format, ps: seq<Pair>)
    requires f.FTable?
    decreases ps, 0
  {
    ps == [] || (ForeignOkEntry(f, ps[0]) && ForeignOkEntries(f, ps[1..]))
  }

  predicate ForeignOkEntry(f: Format, pr: Pair)
    requires f.FTable?
    decreases pr, 0
  {
    ForeignOk(f.elem, pr.val)
  }

  /** Two results agree up to the bytes of foreign fields, which are all charged. */
  ghost predicate Agree<T>(full: Decoded<T>, bare: Decoded<T>, fullLen: nat, bareLen: nat) {
    full.Good? && bare.Good? && full.v == bare.v && fullLen - bareLen == full.extra - bare.extra
  }

  /** Foreign fields leave no trace in the contents, at any depth, and what they take up
      is exactly what is charged for them. */
  lemma {:induction false} DecodeStrip(zeroed: bool, f: Format, w: Wire, t: Value)
    requires ForeignOk(f, w) && Decode(zeroed, f, Strip(f, w), t).Good?
    ensures Agree(Decode(zeroed, f, w, t), Decode(zeroed, f, Strip(f, w), t), |Text(w)|, |Text(Strip(f, w))|)
    decreases w, 0
  {
    hide DecodeElems, DecodeMembers, DecodeEntries, StripElems, StripEntries, ElemsText, PairsText, Zero, StrText, Decimal, ArrHead;
    match (f, w)
    case (FObj(_), WObj(pairs)) =>
      DecodeStripMembers(zeroed, f, pairs, Members(t, |f.fields|));
    case (FArr(_), WArr(false, elems)) => if elems != [] { DecodeStripArray(zeroed, f, w, t); }
    case (FFixArr(_, _), WArr(true, elems)) => if elems != [] { DecodeStripArray(zeroed, f, w, t); }
    case (FTable(_, _), WTab(pairs)) => DecodeStripEntries(zeroed, f, pairs, []);
    case _ =>
  }

  lemma {:induction false} DecodeStripArray(zeroed: bool, f: Format, w: Wire, t: Value)
    requires w.WArr? && w.elems != []
    requires ForeignOk(f, w) && Decode(zeroed, f, Strip(f, w), t).Good?
    ensures Agree(Decode(zeroed, f, w, t), Decode(zeroed, f, Strip(f, w), t), |Text(w)|, |Text(Strip(f, w))|)
    decreases w.elems, 1
  {
    hide DecodeElems, StripElems, ElemsText, Zero, Decimal, ArrHead, ForeignOkElems;
    if f.FArr? {
      DecodeStripElems(zeroed, f.elem, w.elems, Blank(|w.elems|, Zero(f.elem)), 0);
    } else if f.FFixArr? {
      DecodeStripElems(zeroed, f.elem, w.elems, Slots(t, f.cap), 0);
    }
  }

  lemma {:induction false} DecodeStripElems(zeroed: bool, e: Format, ws: seq<Wire>, slots: seq<Value>, i: nat)
    requires i + |ws| <= |slots| && ForeignOkElems(e, ws)
    requires DecodeElems(zeroed, e, StripElems(e, ws), slots, i).Good?
    ensures Agree(DecodeElems(zeroed, e, ws, slots, i), DecodeElems(zeroed, e, StripElems(e, ws), slots, i),
                  |ElemsText(ws)|, |ElemsText(StripElems(e, ws))|)
    decreases ws, 0
  {
    hide Decode, Text, Strip, ForeignOk;
    if ws != [] {
      DecodeStrip(zeroed, e, ws[0], slots[i]);
      var v := Decode(zeroed, e, ws[0], slots[i]).v;
      DecodeStripElems(zeroed, e, ws[1..], slots[i := v], i + 1);
    }
  }

  lemma {:induction false} DecodeStripMembers(zeroed: bool, f: Format, ps: seq<Pair>, ts: seq<Value>)
    requires f.FObj? && |ts| == |f.fields| && ForeignOkMembers(f, ps)
    requires DecodeMembers(zeroed, f, StripMembers(f, ps), ts).Good?
    ensures Agree(DecodeMembers(zeroed, f, ps, ts), DecodeMembers(zeroed, f, StripMembers(f, ps), ts),
                  |PairsText(ps)|, |PairsText(StripMembers(f, ps))|)
    decreases ps, 0
  {
    hide Decode, Text, Strip, ForeignOk, StripMember, PairText;
    if ps != [] {
      var pr := ps[0];
      if Foreign(f, pr) {
        DecodeStripMembers(zeroed, f, ps[1..], ts);
      } else {
        assert DecodeMember(zeroed, f, StripMember(f, pr), ts).Good?;
        DecodeStripMember(zeroed, f, pr, ts);
        DecodeStripMembers(zeroed, f, ps[1..], DecodeMember(zeroed, f, pr, ts).v);
      }
    }
  }

  lemma {:induction false} DecodeStripMember(zeroed: bool, f: Format, pr: Pair, ts: seq<Value>)
    requires f.FObj? && |ts| == |f.fields| && ForeignOkMember(f, pr) && !Foreign(f, pr)
    requires DecodeMember(zeroed, f, StripMember(f, pr), ts).Good?
    ensures Agree(DecodeMember(zeroed, f, pr, ts), DecodeMember(zeroed, f, StripMember(f, pr), ts),
                  |PairText(pr)|, |PairText(StripMember(f, pr))|)
    decreases pr, 0
  {
    hide Decode, Text, Strip, ForeignOk;
    if KeyText(pr.key) {
      var i := FieldOf(f, pr);
      DecodeStrip(zeroed, f.fields[i].fmt, pr.val, ts[i]);
    }
  }

  lemma {:induction false} DecodeStripEntries(zeroed: bool, f: Format, ps: seq<Pair>, entries: seq<Entry>)
    requires f.FTable? && ForeignOkEntries(f, ps)
    requires DecodeEntries(zeroed, f, StripEntries(f, ps), entries).Good?
    ensures Agree(DecodeEntries(zeroed, f, ps, entries), DecodeEntries(zeroed, f, StripEntries(f, ps), entries),
                  |PairsText(ps)|, |PairsText(StripEntries(f, ps))|)
    decreases ps, 0
  {
    hide Decode, Text, Strip, ForeignOk, Insert;
    if ps != [] {
      var pr := ps[0];
      DecodeStripEntry(zeroed, f, pr, entries);
      DecodeStripEntries(zeroed, f, ps[1..], DecodeEntry(zeroed, f, pr, entries).v);
    }
  }

  lemma {:induction false} DecodeStripEntry(zeroed: bool, f: Format, pr: Pair, entries: seq<Entry>)
    requires f.FTable? && ForeignOkEntry(f, pr)
    requires DecodeEntry(zeroed, f, StripEntry(f, pr), entries).Good?
    ensures Agree(DecodeEntry(zeroed, f, pr, entries), DecodeEntry(zeroed, f, StripEntry(f, pr), entries),
                  |PairText(pr)|, |PairText(StripEntry(f, pr))|)
    decreases pr, 0
  {
    hide Decode, Text, Strip, ForeignOk, Insert, HashInit;
    DecodeStrip(zeroed, f.elem, pr.val, HashInit(zeroed, f.elem));
  }

  /** Schema evolution: take the printed form of any contents and insert any number of
      fields with unknown keys, at any position and depth. The reader rebuilds the same
      contents, consumes the whole text, and `forcelen` ends at the bytes inserted. */
  lemma {:induction false} SchemaEvolution(zeroed: bool, s: seq<byte>, f: Format, v: Value, w: Wire, t: Value, p: nat, b: nat)
    requires Readable(f) && Storable(zeroed, f, v) && Ready(f, v, t)
    requires Strip(f, w) == ToWire(f, v) && ForeignOk(f, w)
    requires At(s, p, Text(w)) && |Text(w)| <= b < TWO32
    ensures |Text(w)| >= |Print(f, v)|
    ensures ParseVal(zeroed, s, f, t, p, b) == Done(|Text(w)|, Normal(f, v), |Text(w)| - |Print(f, v)|)
  {
    hide Print, Storable, Readable, Ready, Normal, Strip, ForeignOk, At, ParseVal, Text, ToWire, Decode;
    StorableTyped(zeroed, f, v);
    PrintSpells(f, v);
    DecodePrint(zeroed, f, v, t);
    DecodeStrip(zeroed, f, w, t);
    ParseText(zeroed, s, f, w, t, p, b);
  }

  /** Inserting a foreign field anywhere among an object's fields is undone by `Strip`. */
  lemma {:induction false} StripInsert(f: Format, ps: seq<Pair>, pr: Pair, j: nat)
    requires f.FObj? && Foreign(f, pr) && NoSemiChar(pr.val) && j <= |ps|
    ensures StripMembers(f, ps[..j] + [pr] + ps[j..]) == StripMembers(f, ps)
    ensures ForeignOkMembers(f, ps) ==> ForeignOkMembers(f, ps[..j] + [pr] + ps[j..])
    decreases j
  {
    hide KeyText, StripMember, ForeignOk, NoSemiChar;
    var qs := ps[..j] + [pr] + ps[j..];
    if j == 0 {
      assert qs[1..] == ps;
    } else {
      assert qs[0] == ps[0] && qs[1..] == ps[1..][..j - 1] + [pr] + ps[1..][j - 1..];
      StripInsert(f, ps[1..], pr, j - 1);
    }
  }

  /** A printed tree holds no foreign field. */
  lemma {:induction false} StripPrinted(zeroed: bool, f: Format, v: Value)
    requires Readable(f) && Storable(zeroed, f, v)
    ensures Strip(f, ToWire(f, v)) == ToWire(f, v) && ForeignOk(f, ToWire(f, v))
    decreases f, 2
  {
    hide Ready, Zero, GoodKey;
    match (f, v)
    case (FArr(elem), VArr(es)) => StripPrintedElems(zeroed, elem, es);
    case (FFixArr(_, elem), VFixArr(len, slots)) => StripPrintedElems(zeroed, elem, slots[..len]);
    case (FObj(_), VObj(vs)) => StripPrintedMembers(zeroed, f, vs, 0);
    case (FTable(_, _), VTable(entries)) => StripPrintedEntries(zeroed, f, entries);
    case _ =>
  }

  lemma {:induction false} StripPrintedElems(zeroed: bool, e: Format, es: seq<Value>)
    requires Readable(e) && forall i :: 0 <= i < |es| ==> Storable(zeroed, e, es[i])
    ensures StripElems(e, ElemWires(e, es)) == ElemWires(e, es) && ForeignOkElems(e, ElemWires(e, es))
    decreases e, 3, |es|
  {
    hide Strip, ForeignOk, ToWire, Storable, Readable;
    if es != [] {
      StripPrinted(zeroed, e, es[0]);
      StripPrintedElems(zeroed, e, es[1..]);
    }
  }

  lemma {:induction false} StripPrintedMembers(zeroed: bool, f: Format, vs: seq<Value>, i: nat)
    requires f.FObj? && Readable(f) && |vs| == |f.fields| && i <= |vs|
    requires forall j :: 0 <= j < |vs| ==> Storable(zeroed, f.fields[j].fmt, vs[j])
    ensures StripMembers(f, MemberPairs(f, vs, i)) == MemberPairs(f, vs, i) && ForeignOkMembers(f, MemberPairs(f, vs, i))
    decreases f, 0, |vs| - i
  {
    hide Strip, ForeignOk, ToWire, Storable;
    if i < |vs| {
      StripPrinted(zeroed, f.fields[i].fmt, vs[i]);
      StripPrintedMembers(zeroed, f, vs, i + 1);
      var ps := MemberPairs(f, vs, i);
      assert ps[0] == MemberPair(f, vs, i) && ps[1..] == MemberPairs(f, vs, i + 1);
    }
  }

  lemma {:induction false} StripPrintedEntries(zeroed: bool, f: Format, entries: seq<Entry>)
    requires f.FTable? && Readable(f.elem)
    requires forall i :: 0 <= i < |entries| ==> Storable(zeroed, f.elem, entries[i].val)
    ensures StripEntries(f, EntryPairs(f, entries)) == EntryPairs(f, entries) && ForeignOkEntries(f, EntryPairs(f, entries))
    decreases f, 0, |entries|
  {
    hide Strip, ForeignOk, ToWire, Storable, Readable;
    if entries != [] {
      StripPrinted(zeroed, f.elem, entries[0].val);
      StripPrintedEntries(zeroed, f, entries[1..]);
      var ps := EntryPairs(f, entries);
      assert ps[0] == EntryPair(f, entries[0]) && ps[1..] == EntryPairs(f, entries[1..]);
    }
  }

  /* ---------- fields put in anywhere ---------- */

  /** `g` is the tree `w` with any number of foreign, skippable fields put in, at any place
      of any object at any depth. */
  predicate Grown(f: Format, w: Wire, g: Wire)
    decreases g, 0
  {
    match (f, w, g)
    case (FObj(_), WObj(ps), WObj(qs)) => GrownMembers(f, ps, qs)
    case (FArr(elem), WArr(a, ws), WArr(b, gs)) => a == b && GrownElems(elem, ws, gs)
    case (FFixArr(_, elem), WArr(a, ws), WArr(b, gs)) => a == b && GrownElems(elem, ws, gs)
    case (FTable(_, _), WTab(ps), WTab(qs)) => GrownEntries(f, ps, qs)
    case _ => w == g
  }

  predicate GrownElems(e: Format, ws: seq<Wire>, gs: seq<Wire>)
    decreases gs, 0
  {
    |ws| == |gs| && (gs == [] || (Grown(e, ws[0], gs[0]) && GrownElems(e, ws[1..], gs[1..])))
  }

  /** Each further pair is a new field or the next old one. */
  predicate GrownMembers(f: Format, ps: seq<Pair>, qs: seq<Pair>)
    requires f.FObj?
    decreases qs, 0
  {
    if qs == [] then ps == []
    else
      || (Foreign(f, qs[0]) && NoSemiChar(qs[0].val) && GrownMembers(f, ps, qs[1..]))
      || (ps != [] && GrownMember(f, ps[0], qs[0]) && GrownMembers(f, ps[1..], qs[1..]))
  }

  predicate GrownMember(f: Format, pr: Pair, qr: Pair)
    requires f.FObj?
    decreases qr, 0
  {
    && pr.key == qr.key
    && if !KeyText(qr.key) || Foreign(f, qr) then pr == qr else Grown(f.fields[FieldOf(f, qr)].fmt, pr.val, qr.val)
  }

  predicate GrownEntries(f: Format, ps: seq<Pair>, qs: seq<Pair>)
    requires f.FTable?
    decreases qs, 0
  {
    |ps| == |qs| && (qs == [] || (GrownEntry(f, ps[0], qs[0]) && GrownEntries(f, ps[1..], qs[1..])))
  }

  predicate GrownEntry(f: Format, pr: Pair, qr: Pair)
    requires f.FTable?
    decreases qr, 0
  {
    pr.key == qr.key && Grown(f.elem, pr.val, qr.val)
  }

  /** Stripping undoes growing. */
  lemma {:induction false} StripGrown(f: Format, w: Wire, g: Wire)
    requires Grown(f, w, g) && ForeignOk(f, w)
    ensures Strip(f, g) == Strip(f, w) && ForeignOk(f, g)
    decreases g, 0
  {
    hide GrownElems, GrownMembers, GrownEntries, ForeignOkElems, ForeignOkMembers, ForeignOkEntries;
    hide StripElems, StripMembers, StripEntries;
    match (f, w, g)
    case (FObj(_), WObj(ps), WObj(qs)) => StripGrownMembers(f, ps, qs);
    case (FArr(elem), WArr(_, ws), WArr(_, gs)) => StripGrownElems(elem, ws, gs);
    case (FFixArr(_, elem), WArr(_, ws), WArr(_, gs)) => StripGrownElems(elem, ws, gs);
    case (FTable(_, _), WTab(ps), WTab(qs)) => StripGrownEntries(f, ps, qs);
    case _ =>
  }

  lemma {:induction false} StripGrownElems(e: Format, ws: seq<Wire>, gs: seq<Wire>)
    requires GrownElems(e, ws, gs) && ForeignOkElems(e, ws)
    ensures StripElems(e, gs) == StripElems(e, ws) && ForeignOkElems(e, gs)
    decreases gs, 0
  {
    hide Grown, Strip, ForeignOk;
    if gs != [] {
      StripGrown(e, ws[0], gs[0]);
      StripGrownElems(e, ws[1..], gs[1..]);
    }
  }

  lemma {:induction false} StripGrownMembers(f: Format, ps: seq<Pair>, qs: seq<Pair>)
    requires f.FObj? && GrownMembers(f, ps, qs) && ForeignOkMembers(f, ps)
    ensures StripMembers(f, qs) == StripMembers(f, ps) && ForeignOkMembers(f, qs)
    decreases qs, 0
  {
    hide GrownMember, StripMember, KeyText, NoSemiChar, ForeignOk;
    if qs != [] {
      if Foreign(f, qs[0]) && NoSemiChar(qs[0].val) && GrownMembers(f, ps, qs[1..]) {
        StripGrownMembers(f, ps, qs[1..]);
      } else {
        StripGrownMember(f, ps[0], qs[0]);
        StripGrownMembers(f, ps[1..], qs[1..]);
      }
    }
  }

  lemma {:induction false} StripGrownMember(f: Format, pr: Pair, qr: Pair)
    requires f.FObj? && GrownMember(f, pr, qr) && ForeignOkMember(f, pr)
    ensures KeyText(pr.key) == KeyText(qr.key) && (KeyText(pr.key) ==> Foreign(f, pr) == Foreign(f, qr))
    ensures StripMember(f, pr) == StripMember(f, qr) && ForeignOkMember(f, qr)
    decreases qr, 0
  {
    hide Grown, Strip, ForeignOk, NoSemiChar;
    if KeyText(qr.key) && !Foreign(f, qr) {
      StripGrown(f.fields[FieldOf(f, qr)].fmt, pr.val, qr.val);
    }
  }

  lemma {:induction false} StripGrownEntries(f: Format, ps: seq<Pair>, qs: seq<Pair>)
    requires f.FTable? && GrownEntries(f, ps, qs) && ForeignOkEntries(f, ps)
    ensures StripEntries(f, qs) == StripEntries(f, ps) && ForeignOkEntries(f, qs)
    decreases qs, 0
  {
    hide Grown, Strip, ForeignOk;
    if qs != [] {
      StripGrownEntry(f, ps[0], qs[0]);
      StripGrownEntries(f, ps[1..], qs[1..]);
    }
  }

  lemma {:induction false} StripGrownEntry(f: Format, pr: Pair, qr: Pair)
    requires f.FTable? && GrownEntry(f, pr, qr) && ForeignOkEntry(f, pr)
    ensures StripEntry(f, pr) == StripEntry(f, qr) && ForeignOkEntry(f, qr)
    decreases qr, 0
  {
    hide Grown, Strip, ForeignOk;
    StripGrown(f.elem, pr.val, qr.val);
  }

  /** Every tree whose foreign fields can be skipped is grown from its stripped form. */
  lemma {:induction false} GrownFromStrip(f: Format, g: Wire)
    requires ForeignOk(f, g)
    ensures Grown(f, Strip(f, g), g)
    decreases g, 0
  {
    hide GrownElems, GrownMembers, GrownEntries, ForeignOkElems, ForeignOkMembers, ForeignOkEntries;
    hide StripElems, StripMembers, StripEntries;
    match (f, g)
    case (FObj(_), WObj(qs)) => GrownFromMembers(f, qs);
    case (FArr(elem), WArr(_, gs)) => GrownFromElems(elem, gs);
    case (FFixArr(_, elem), WArr(_, gs)) => GrownFromElems(elem, gs);
    case (FTable(_, _), WTab(qs)) => GrownFromEntries(f, qs);
    case _ =>
  }

  lemma {:induction false} GrownFromElems(e: Format, gs: seq<Wire>)
    requires ForeignOkElems(e, gs)
    ensures GrownElems(e, StripElems(e, gs), gs)
    decreases gs, 0
  {
    hide Grown, Strip, ForeignOk;
    if gs != [] {
      GrownFromStrip(e, gs[0]);
      GrownFromElems(e, gs[1..]);
    }
  }

  lemma {:induction false} GrownFromMembers(f: Format, qs: seq<Pair>)
    requires f.FObj? && ForeignOkMembers(f, qs)
    ensures GrownMembers(f, StripMembers(f, qs), qs)
    decreases qs, 0
  {
    hide Grown, Strip, ForeignOk, NoSemiChar;
    if qs != [] {
      GrownFromMembers(f, qs[1..]);
      GrownFromMember(f, qs[0]);
    }
  }

  lemma {:induction false} GrownFromMember(f: Format, qr: Pair)
    requires f.FObj? && ForeignOkMember(f, qr)
    ensures GrownMember(f, StripMember(f, qr), qr)
    decreases qr, 0
  {
    hide Grown, Strip, ForeignOk, NoSemiChar;
    if KeyText(qr.key) && !Foreign(f, qr) {
      GrownFromStrip(f.fields[FieldOf(f, qr)].fmt, qr.val);
    }
  }

  lemma {:induction false} GrownFromEntries(f: Format, qs: seq<Pair>)
    requires f.FTable? && ForeignOkEntries(f, qs)
    ensures GrownEntries(f, StripEntries(f, qs), qs)
    decreases qs, 0
  {
    hide Grown, Strip, ForeignOk;
    if qs != [] {
      GrownFromEntry(f, qs[0]);
      GrownFromEntries(f, qs[1..]);
    }
  }

  lemma {:induction false} GrownFromEntry(f: Format, qr: Pair)
    requires f.FTable? && ForeignOkEntry(f, qr)
    ensures GrownEntry(f, StripEntry(f, qr), qr)
    decreases qr, 0
  {
    hide Grown, Strip, ForeignOk;
    GrownFromStrip(f.elem, qr.val);
  }

  /** Growing and stripping are inverse: over a tree without foreign fields the grown trees
      are exactly those that strip to it and can be skipped. */
  lemma {:induction false} GrownExact(f: Format, w: Wire, g: Wire)
    requires Strip(f, w) == w && ForeignOk(f, w)
    ensures Grown(f, w, g) <==> Strip(f, g) == w && ForeignOk(f, g)
  {
    hide Grown, Strip, ForeignOk;
    if Grown(f, w, g) { StripGrown(f, w, g); }
    if Strip(f, g) == w && ForeignOk(f, g) { GrownFromStrip(f, g); }
  }

  /** Schema evolution for the printer: the print of any contents with fields put in
      anywhere is read back in full, and `forcelen` ends at the bytes put in. */
  lemma {:induction false} PrintedGrown(zeroed: bool, s: seq<byte>, f: Format, v: Value, g: Wire, t: Value, p: nat, b: nat)
    requires Readable(f) && Storable(zeroed, f, v) && Ready(f, v, t) && Grown(f, ToWire(f, v), g)
    requires At(s, p, Text(g)) && |Text(g)| <= b < TWO32
    ensures |Text(g)| >= |Print(f, v)|
    ensures ParseVal(zeroed, s, f, t, p, b) == Done(|Text(g)|, Normal(f, v), |Text(g)| - |Print(f, v)|)
  {
    hide *;
    StripPrinted(zeroed, f, v);
    GrownExact(f, ToWire(f, v), g);
    SchemaEvolution(zeroed, s, f, v, g, t, p, b);
  }

  /* ---------- field order ---------- */

  /** No two pairs feed the same field. */
  ghost predicate DistinctFields(f: Format, ps: seq<Pair>)
    requires f.FObj?
  {
    forall i, j :: 0 <= i < j < |ps| && KeyText(ps[i].key) && KeyText(ps[j].key) && FieldOf(f, ps[i]) != -1
      ==> FieldOf(f, ps[i]) != FieldOf(f, ps[j])
  }

  lemma {:induction false} ConsMembers(zeroed: bool, f: Format, x: Pair, tail: seq<Pair>, ts: seq<Value>)
    requires f.FObj? && |ts| == |f.fields|
    ensures var r := DecodeMember(zeroed, f, x, ts);
            DecodeMembers(zeroed, f, [x] + tail, ts) ==
            if r.Bad? then Bad else Plus(r.extra, DecodeMembers(zeroed, f, tail, r.v))
    ensures PairsText([x] + tail) == PairText(x) + PairsText(tail)
  {
    hide DecodeMember, PairText;
    assert ([x] + tail)[1..] == tail;
  }

  /** What one field decodes to does not depend on the other. */
  lemma {:induction false} Independent(zeroed: bool, f: Format, x: Pair, y: Pair, ts: seq<Value>)
    requires f.FObj? && |ts| == |f.fields| && DistinctFields(f, [x, y]) && DecodeMember(zeroed, f, x, ts).Good?
    ensures var a, b := DecodeMember(zeroed, f, x, ts), DecodeMember(zeroed, f, y, ts);
            var ab := DecodeMember(zeroed, f, y, a.v);
            && (ab.Good? <==> b.Good?)
            && (b.Good? ==> ab.extra == b.extra && DecodeMember(zeroed, f, x, b.v) == Good(ab.v, a.extra))
  {
    hide Decode, PairText, NoSemiChar, Lookup, CStr;
    var xy := [x, y];
    assert xy[0] == x && xy[1] == y;
    var b := DecodeMember(zeroed, f, y, ts);
    if b.Good? && FieldOf(f, x) != -1 && FieldOf(f, y) != -1 {
      var i, j := FieldOf(f, x), FieldOf(f, y);
      var u, v := DecodeMember(zeroed, f, x, ts).v[i], b.v[j];
      assert ts[i := u][j := v] == ts[j := v][i := u];
    }
  }

  /** Two neighbouring fields commute. */
  lemma {:induction false} SwapMembers(zeroed: bool, f: Format, x: Pair, y: Pair, rest: seq<Pair>, ts: seq<Value>)
    requires f.FObj? && |ts| == |f.fields| && DistinctFields(f, [x, y])
    ensures DecodeMembers(zeroed, f, [x] + ([y] + rest), ts) == DecodeMembers(zeroed, f, [y] + ([x] + rest), ts)
    ensures |PairsText([x] + ([y] + rest))| == |PairsText([y] + ([x] + rest))|
  {
    hide DecodeMember, DecodeMembers, PairText, PairsText, KeyText, FieldOf;
    var a, b := DecodeMember(zeroed, f, x, ts), DecodeMember(zeroed, f, y, ts);
    ConsMembers(zeroed, f, x, [y] + rest, ts);
    ConsMembers(zeroed, f, y, [x] + rest, ts);
    ConsMembers(zeroed, f, y, rest, if a.Good? then a.v else ts);
    ConsMembers(zeroed, f, x, rest, if b.Good? then b.v else ts);
    var yx := [y, x];
    assert [x, y][0] == x && [x, y][1] == y && yx[0] == y && yx[1] == x;
    if a.Good? {
      Independent(zeroed, f, x, y, ts);
    }
    if b.Good? {
      Independent(zeroed, f, y, x, ts);
    }
  }

  /** Lists of fields that read the same over every memory. */
  ghost predicate Same(zeroed: bool, f: Format, ps: seq<Pair>, qs: seq<Pair>)
    requires f.FObj?
  {
    && |PairsText(ps)| == |PairsText(qs)|
    && forall ts: seq<Value> | |ts| == |f.fields| ::
         DecodeMembers(zeroed, f, ps, ts) == DecodeMembers(zeroed, f, qs, ts)
  }

  lemma {:induction false} SameCons(zeroed: bool, f: Format, x: Pair, ps: seq<Pair>, qs: seq<Pair>)
    requires f.FObj? && Same(zeroed, f, ps, qs)
    ensures Same(zeroed, f, [x] + ps, [x] + qs)
  {
    hide DecodeMember, DecodeMembers, PairText, PairsText;
    ConsMembers(zeroed, f, x, ps, Members(VUninit, |f.fields|));
    ConsMembers(zeroed, f, x, qs, Members(VUninit, |f.fields|));
    forall ts: seq<Value> | |ts| == |f.fields|
      ensures DecodeMembers(zeroed, f, [x] + ps, ts) == DecodeMembers(zeroed, f, [x] + qs, ts)
    {
      ConsMembers(zeroed, f, x, ps, ts);
      ConsMembers(zeroed, f, x, qs, ts);
    }
  }

  lemma {:induction false} SameSwap(zeroed: bool, f: Format, x: Pair, y: Pair, rest: seq<Pair>)
    requires f.FObj? && DistinctFields(f, [x, y])
    ensures Same(zeroed, f, [x] + ([y] + rest), [y] + ([x] + rest))
  {
    hide DecodeMembers, PairsText, DistinctFields;
    SwapMembers(zeroed, f, x, y, rest, Members(VUninit, |f.fields|));
    forall ts: seq<Value> | |ts| == |f.fields|
      ensures DecodeMembers(zeroed, f, [x] + ([y] + rest), ts) == DecodeMembers(zeroed, f, [y] + ([x] + rest), ts)
    {
      SwapMembers(zeroed, f, x, y, rest, ts);
    }
  }

  /** A field can be brought to the front. */
  lemma {:induction false} FrontSplit(ps: seq<Pair>, j: nat)
    requires 0 < j < |ps|
    ensures var tail, rest := ps[1..j] + ps[j + 1..], ps[1..];
            && rest[j - 1] == ps[j] && rest[..j - 1] + rest[j..] == tail
            && [ps[0]] + rest == ps && [ps[0]] + tail == ps[..j] + ps[j + 1..]
  {
  }

  lemma {:induction false} FrontMember(zeroed: bool, f: Format, ps: seq<Pair>, j: nat)
    requires f.FObj? && j < |ps| && DistinctFields(f, ps)
    ensures Same(zeroed, f, ps, [ps[j]] + (ps[..j] + ps[j + 1..]))
    decreases j
  {
    hide DecodeMembers, PairsText, KeyText, FieldOf;
    if j == 0 {
      assert [ps[0]] + (ps[..0] + ps[1..]) == ps;
    } else {
      var x, y, tail, rest := ps[0], ps[j], ps[1..j] + ps[j + 1..], ps[1..];
      FrontMember(zeroed, f, rest, j - 1);
      FrontSplit(ps, j);
      SameCons(zeroed, f, x, rest, [y] + tail);
      SameSwap(zeroed, f, x, y, tail);
    }
  }

  /** Any permutation of an object's fields decodes to the same contents, takes the same
      number of bytes and is charged the same for foreign fields. */
  lemma {:induction false} Permuted(zeroed: bool, f: Format, ps: seq<Pair>, qs: seq<Pair>)
    requires f.FObj?
    requires multiset(ps) == multiset(qs) && DistinctFields(f, ps)
    ensures Same(zeroed, f, ps, qs)
    decreases |ps|
  {
    hide DecodeMembers, PairsText, KeyText, FieldOf;
    assert |ps| == |multiset(ps)| == |multiset(qs)| == |qs|;
    if ps == [] {
      assert ps == qs;
    } else {
      var x := ps[0];
      assert x in multiset(qs);
      var j :| 0 <= j < |qs| && qs[j] == x;
      var rest := qs[..j] + qs[j + 1..];
      RemoveBoth(ps, qs, j);
      KeepsDistinct(f, ps, qs);
      FrontMember(zeroed, f, qs, j);
      TailDistinct(f, ps);
      Permuted(zeroed, f, ps[1..], rest);
      SameCons(zeroed, f, x, ps[1..], rest);
      assert ps == [x] + ps[1..];
    }
  }

  lemma {:induction false} RemoveBoth<T>(ps: seq<T>, qs: seq<T>, j: nat)
    requires multiset(ps) == multiset(qs) && ps != [] && j < |qs| && qs[j] == ps[0]
    ensures multiset(ps[1..]) == multiset(qs[..j] + qs[j + 1..])
  {
    assert qs == qs[..j] + ([qs[j]] + qs[j + 1..]);
    assert ps == [ps[0]] + ps[1..];
    assert multiset(ps) == multiset{ps[0]} + multiset(ps[1..]);
    assert multiset(qs) == multiset(qs[..j]) + (multiset{qs[j]} + multiset(qs[j + 1..]));
    assert multiset(ps[1..]) == multiset(ps) - multiset{ps[0]};
  }

  lemma {:induction false} TailDistinct(f: Format, ps: seq<Pair>)
    requires f.FObj? && ps != [] && DistinctFields(f, ps)
    ensures DistinctFields(f, ps[1..])
  {
    hide KeyText, FieldOf;
  }

  /** Permuting fields keeps them distinct. */
  lemma {:induction false} KeepsDistinct(f: Format, ps: seq<Pair>, qs: seq<Pair>)
    requires f.FObj? && multiset(ps) == multiset(qs) && DistinctFields(f, ps)
    ensures DistinctFields(f, qs)
  {
    hide KeyText, FieldOf;
    forall i, j | 0 <= i < j < |qs| && KeyText(qs[i].key) && KeyText(qs[j].key) && FieldOf(f, qs[i]) != -1
      ensures FieldOf(f, qs[i]) != FieldOf(f, qs[j])
    {
      var x, y := qs[i], qs[j];
      if x == y {
        assert qs == qs[..j] + qs[j..] && x in qs[..j] && x in qs[j..];
        assert multiset(qs)[x] == multiset(qs[..j])[x] + multiset(qs[j..])[x];
        var a, b := TwoPlaces(ps, x);
      } else {
        assert x in multiset(ps) && y in multiset(ps);
        var a, b :| 0 <= a < |ps| && 0 <= b < |ps| && ps[a] == x && ps[b] == y;
      }
    }
  }

  lemma {:induction false} TwoPlaces<T>(s: seq<T>, x: T) returns (a: nat, b: nat)
    requires multiset(s)[x] >= 2
    ensures a < b < |s| && s[a] == s[b] == x
  {
    assert x in s;
    var c: nat :| c < |s| && s[c] == x;
    var rest := s[..c] + s[c + 1..];
    assert s == s[..c] + ([x] + s[c + 1..]);
    assert multiset(s)[x] == 1 + multiset(rest)[x];
    assert x in rest;
    var d: nat :| d < |rest| && rest[d] == x;
    if d < c {
      a, b := d, c;
    } else {
      a, b := c, d + 1;
    }
  }

  /** Permuted fields mean the same object and take the same bytes. */
  lemma {:induction false} PermutedObject(zeroed: bool, f: Format, ps: seq<Pair>, qs: seq<Pair>, t: Value)
    requires f.FObj? && multiset(ps) == multiset(qs) && DistinctFields(f, ps)
    ensures Decode(zeroed, f, WObj(ps), t) == Decode(zeroed, f, WObj(qs), t)
    ensures |Text(WObj(ps))| == |Text(WObj(qs))|
  {
    hide DecodeMembers, PairsText, DistinctFields;
    Permuted(zeroed, f, ps, qs);
    assert |ps| == |multiset(ps)| == |multiset(qs)| == |qs|;
  }

  /** Field order independence: an object's fields written in any order, foreign ones
      interspersed, are read to the same contents, with the same length and charge. */
  lemma {:induction false} FieldOrder(zeroed: bool, f: Format, ps: seq<Pair>, qs: seq<Pair>, t: Value,
                   s1: seq<byte>, p1: nat, b1: nat, s2: seq<byte>, p2: nat, b2: nat)
    requires f.FObj? && multiset(ps) == multiset(qs) && DistinctFields(f, ps)
    requires Decode(zeroed, f, WObj(ps), t).Good?
    requires At(s1, p1, Text(WObj(ps))) && |Text(WObj(ps))| <= b1 < TWO32
    requires At(s2, p2, Text(WObj(qs))) && |Text(WObj(qs))| <= b2 < TWO32
    ensures ParseVal(zeroed, s1, f, t, p1, b1).Done?
    ensures ParseVal(zeroed, s1, f, t, p1, b1) == ParseVal(zeroed, s2, f, t, p2, b2)
  {
    hide *;
    PermutedObject(zeroed, f, ps, qs, t);
    ParseText(zeroed, s1, f, WObj(ps), t, p1, b1);
    ParseText(zeroed, s2, f, WObj(qs), t, p2, b2);
  }

  /** Printed fields are distinct. */
  lemma {:induction false} PrintedPairs(f: Format, vs: seq<Value>, i: nat)
    requires f.FObj? && |vs| == |f.fields| && i <= |vs|
    ensures |MemberPairs(f, vs, i)| == |vs| - i
    ensures forall k :: 0 <= k < |vs| - i ==> MemberPairs(f, vs, i)[k] == MemberPair(f, vs, i + k)
    decreases |vs| - i
  {
    hide ToWire;
    if i < |vs| {
      PrintedPairs(f, vs, i + 1);
      var ps, rest := MemberPairs(f, vs, i), MemberPairs(f, vs, i + 1);
      forall k | 0 <= k < |vs| - i
        ensures ps[k] == MemberPair(f, vs, i + k)
      {
        if k > 0 { assert ps[k] == rest[k - 1] == MemberPair(f, vs, i + 1 + (k - 1)); }
      }
    }
  }

  lemma {:induction false} PrintedDistinct(f: Format, vs: seq<Value>)
    requires f.FObj? && Readable(f) && |vs| == |f.fields|
    ensures DistinctFields(f, MemberPairs(f, vs, 0))
  {
    hide MemberPairs, MemberPair, FieldOf, KeyText, Readable;
    var ps := MemberPairs(f, vs, 0);
    PrintedPairs(f, vs, 0);
    forall i | 0 <= i < |ps| ensures KeyText(ps[i].key) && FieldOf(f, ps[i]) == i {
      MemberField(f, vs, i);
    }
  }

  /** A printed object whose fields arrive in any order is read back all the same. */
  lemma {:induction false} PrintedOrder(zeroed: bool, f: Format, vs: seq<Value>, qs: seq<Pair>, t: Value, s: seq<byte>, p: nat, b: nat)
    requires f.FObj? && |vs| == |f.fields| && Readable(f) && Storable(zeroed, f, VObj(vs)) && Ready(f, VObj(vs), t)
    requires multiset(qs) == multiset(MemberPairs(f, vs, 0))
    requires At(s, p, Text(WObj(qs))) && |Text(WObj(qs))| <= b < TWO32
    ensures ParseVal(zeroed, s, f, t, p, b) == Done(|Print(f, VObj(vs))|, Normal(f, VObj(vs)), 0)
  {
    hide *;
    StorableTyped(zeroed, f, VObj(vs));
    PrintSpells(f, VObj(vs));
    DecodePrint(zeroed, f, VObj(vs), t);
    PrintedDistinct(f, vs);
    ObjectWire(f, vs);
    PermutedObject(zeroed, f, MemberPairs(f, vs, 0), qs, t);
    ParseText(zeroed, s, f, WObj(qs), t, p, b);
  }

  lemma {:induction false} ObjectWire(f: Format, vs: seq<Value>)
    requires f.FObj?
    ensures ToWire(f, VObj(vs)) == WObj(MemberPairs(f, vs, 0))
  {
  }
}
