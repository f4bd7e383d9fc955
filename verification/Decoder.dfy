/** What a wire tree means under a format, and the theorem that the byte-level parser
    computes exactly that. */
module Decoder {
  import opened Wrappers
  import opened Bytes
  import opened Schema
  import opened Wire
  import opened Skipper
  import opened Parser

  /** New contents and the bytes taken by fields the schema does not know. */
  datatype Decoded<T> = Bad | Good(v: T, extra: nat)

  /** The meaning of a wire tree stored over the contents `t`; `Bad` when the tree does
      not have the shape of the format. */
  function Decode(zeroed: bool, f: Format, w: Wire, t: Value): Decoded<Value>
    decreases w, 0
  {
    match (f, w)
    case (FBool, WBool(b)) => Good(VBool(b), 0)
    case (FChar, WChar(c)) => Good(VChar(c), 0)
    case (FInt(k), WNum(k', z)) => if k == k' then Good(VInt(k.Store(z < 0, Abs(z))), 0) else Bad
    case (FStr, WStr(false, bytes)) =>
      if bytes == [] then Good(t, 0) else if t == VStr([]) then Good(VStr(bytes), 0) else Bad
    case (FFixStr(_), WStr(true, bytes)) =>
      if bytes == [] then Good(t, 0) else Good(StoreString(f, bytes), 0)
    case (FObj(fields), WObj(pairs)) =>
      if pairs == [] then Bad
      else
        var r := DecodeMembers(zeroed, f, pairs, Members(t, |fields|));
        if r.Bad? then Bad else Good(VObj(r.v), r.extra)
    case (FArr(elem), WArr(false, elems)) =>
      if elems == [] then Good(t, 0)
      else if t != VArr([]) then Bad
      else
        var r := DecodeElems(zeroed, elem, elems, Blank(|elems|, Zero(elem)), 0);
        if r.Bad? then Bad else Good(VArr(r.v), r.extra)
    case (FFixArr(cap, elem), WArr(true, elems)) =>
      if elems == [] then Good(t, 0)
      else if |elems| > cap then Bad
      else
        var r := DecodeElems(zeroed, elem, elems, Slots(t, cap), 0);
        if r.Bad? then Bad else Good(VFixArr(|elems|, r.v), r.extra)
    case (FTable(_, _), WTab(pairs)) =>
      if t != VNull then Bad
      else
        var r := DecodeEntries(zeroed, f, pairs, []);
        if r.Bad? then Bad else Good(VTable(r.v), r.extra)
    case _ => Bad
  }

  function Abs(z: int): nat {
    if z < 0 then -z else z
  }

  function DecodeElems(zeroed: bool, e: Format, ws: seq<Wire>, slots: seq<Value>, i: nat)
      : (r: Decoded<seq<Value>>)
    requires i + |ws| <= |slots|
    ensures r.Good? ==> |r.v| == |slots|
    decreases ws, 0
  {
    if ws == [] then Good(slots, 0)
    else
      var r := Decode(zeroed, e, ws[0], slots[i]);
      if r.Bad? then Bad else Plus(r.extra, DecodeElems(zeroed, e, ws[1..], slots[i := r.v], i + 1))
  }

  function Plus<T>(extra: nat, r: Decoded<T>): (m: Decoded<T>)
    ensures m.Good? <==> r.Good?
    ensures m.Good? ==> m == Good(r.v, extra + r.extra)
  {
    if r.Bad? then Bad else Good(r.v, extra + r.extra)
  }

  function DecodeMembers(zeroed: bool, f: Format, ps: seq<Pair>, ts: seq<Value>): (r: Decoded<seq<Value>>)
    requires f.FObj? && |ts| == |f.fields|
    ensures r.Good? ==> |r.v| == |ts|
    decreases ps, 0
  {
    if ps == [] then Good(ts, 0)
    else
      var r := DecodeMember(zeroed, f, ps[0], ts);
      if r.Bad? then Bad else Plus(r.extra, DecodeMembers(zeroed, f, ps[1..], r.v))
  }

  /** A key the parser takes: 1 to 100 bytes. */
  predicate KeyText(w: Wire) {
    w.WStr? && !w.fixed && 1 <= |w.bytes| <= 100
  }

  /** The index of the field a pair belongs to, -1 for an unknown one. */
  function FieldOf(f: Format, pr: Pair): (i: int)
    requires f.FObj? && KeyText(pr.key)
    ensures -1 <= i < |f.fields|
  {
    Lookup(f.fields, CStr(pr.key.bytes))
  }

  function DecodeMember(zeroed: bool, f: Format, pr: Pair, ts: seq<Value>): (r: Decoded<seq<Value>>)
    requires f.FObj? && |ts| == |f.fields|
    ensures r.Good? ==> |r.v| == |ts|
    decreases pr, 0
  {
    if !KeyText(pr.key) then Bad
    else
      var i := FieldOf(f, pr);
      if i == -1 then
        if NoSemiChar(pr.val) then Good(ts, |PairText(pr)|) else Bad
      else
        var r := Decode(zeroed, f.fields[i].fmt, pr.val, ts[i]);
        if r.Bad? then Bad else Good(ts[i := r.v], r.extra)
  }

  function DecodeEntries(zeroed: bool, f: Format, ps: seq<Pair>, entries: seq<Entry>): Decoded<seq<Entry>>
    requires f.FTable?
    decreases ps, 0
  {
    if ps == [] then Good(entries, 0)
    else
      var r := DecodeEntry(zeroed, f, ps[0], entries);
      if r.Bad? then Bad else Plus(r.extra, DecodeEntries(zeroed, f, ps[1..], r.v))
  }

  function DecodeEntry(zeroed: bool, f: Format, pr: Pair, entries: seq<Entry>): Decoded<seq<Entry>>
    requires f.FTable?
    decreases pr, 0
  {
    match EntryKey(f.isint, pr.key, entries)
    case None => Bad
    case Some(key) =>
      var r := Decode(zeroed, f.elem, pr.val, HashInit(zeroed, f.elem));
      if r.Bad? then Bad else Good(Insert(entries, key, r.v), r.extra)
  }

  function EntryKey(isint: bool, w: Wire, entries: seq<Entry>): Option<Key> {
    match w
    case WNum(UInt, z) => if isint then Some(IntKey(UInt.Store(z < 0, Abs(z)))) else None
    case WStr(false, bytes) => if !isint && entries == [] && bytes != [] then Some(StrKey(CStr(bytes))) else None
    case _ => None
  }

  /* ---------- the byte-level parser computes Decode ---------- */

  /** A value whose tag stands at `p` needs no resynchronisation: the loop that skips
      values of other types does not run on well-typed input. */
  lemma {:induction false} ParseHeader(zeroed: bool, s: seq<byte>, f: Format, t: Value, p: nat, b: nat)
    requires b > 0 && Peek(s, p) == f.Tag() && Peek(s, p + 1) == COLON
    ensures ParseVal(zeroed, s, f, t, p, b)
         == if f.IsLeaf() then ParseLeaf(s, f, t, p, p + 2, b) else ParseBody(zeroed, s, f, t, p, p + 2, b)
  {
    hide ParseLeaf, ParseBody, Skip;
  }

  lemma {:induction false} StrChrHere(s: seq<byte>, i: nat, c: byte)
    requires Peek(s, i) == c != NUL
    ensures StrChr(s, i, c) == Some(i)
  {
  }

  lemma {:induction false} ParseLeafText(s: seq<byte>, f: Format, w: Wire, t: Value, p: nat, b: nat)
    requires f.IsLeaf() && Decode(true, f, w, t).Good?
    requires At(s, p, Text(w)) && |Text(w)| <= b < TWO32
    ensures Peek(s, p) == f.Tag() && Peek(s, p + 1) == COLON
    ensures ParseLeaf(s, f, t, p, p + 2, b) == Done(|Text(w)|, Decode(true, f, w, t).v, 0)
  {
    hide At, Digits, ParseString, StrText;
    match w
    case WStr(fixed, bytes) => ParseStringText(s, f, bytes, t, p, b);
    case WNum(k, z) => ParseNumberText(s, k, z, t, p, b);
    case WBool(_) | WChar(_) =>
      AtPeek(s, p, Text(w), 0);
      AtPeek(s, p, Text(w), 1);
      AtPeek(s, p, Text(w), 2);
      AtPeek(s, p, Text(w), 3);
      StrChrHere(s, p + 3, SEMI);
  }

  lemma {:induction false} ParseNumberText(s: seq<byte>, k: IntKind, z: int, t: Value, p: nat, b: nat)
    requires At(s, p, Text(WNum(k, z))) && |Text(WNum(k, z))| <= b < TWO32
    ensures Peek(s, p) == k.Tag() && Peek(s, p + 1) == COLON
    ensures ParseLeaf(s, FInt(k), t, p, p + 2, b) == Done(|Text(WNum(k, z))|, VInt(k.Store(z < 0, Abs(z))), 0)
  {
    hide At, Digits, ScanSigned;
    var w := WNum(k, z);
    AtPeek(s, p, Text(w), 0);
    AtPeek(s, p, Text(w), 1);
    assert Text(w) == [k.Tag(), COLON] + (Decimal(z) + [SEMI]);
    AtSplit(s, p, [k.Tag(), COLON], Decimal(z) + [SEMI]);
    AtSplit(s, p + 2, Decimal(z), [SEMI]);
    AtPeek(s, p + 2 + |Decimal(z)|, [SEMI], 0);
    ScanDecimal(s, p + 2, z);
    StrChrHere(s, p + 2 + |Decimal(z)|, SEMI);
  }

  lemma {:induction false} ParseStringText(s: seq<byte>, f: Format, bytes: seq<byte>, t: Value, p: nat, b: nat)
    requires f.FStr? || f.FFixStr?
    requires f.FStr? && bytes != [] ==> t == VStr([])
    requires At(s, p, StrText(f.FFixStr?, bytes)) && |StrText(f.FFixStr?, bytes)| <= b < TWO32
    ensures Peek(s, p) == f.Tag() && Peek(s, p + 1) == COLON
    ensures ParseString(s, f, t, p, p + 2, b)
         == Done(|StrText(f.FFixStr?, bytes)|, if bytes == [] then t else StoreString(f, bytes), 0)
  {
    hide At, StrHead, StoreString, StrToUl, StrChr;
    var h := StrHead(f.FFixStr?, |bytes|);
    StrHeadScan(s, f.FFixStr?, |bytes|, bytes + [SEMI], p);
    StrChrHere(s, p + |h| - 1, COLON);
    AtSplit(s, p + |h|, bytes, [SEMI]);
    AtPeek(s, p + |h| + |bytes|, [SEMI], 0);
    AtSlice(s, p + |h|, bytes);
  }

  lemma {:induction false} AtSlice(s: seq<byte>, p: nat, t: seq<byte>)
    requires At(s, p, t)
    ensures p + |t| <= |s| && s[p..p + |t|] == t
  {
  }

  /** The parser refines the decoder: on the text of any tree that fits the format, in
      any surroundings, it stores what the tree means, consumes exactly the text, and
      counts exactly the bytes of unknown fields. */
  lemma {:induction false} ParseText(zeroed: bool, s: seq<byte>, f: Format, w: Wire, t: Value, p: nat, b: nat)
    requires At(s, p, Text(w)) && |Text(w)| <= b < TWO32
    requires Decode(zeroed, f, w, t).Good?
    ensures ParseVal(zeroed, s, f, t, p, b)
         == Done(|Text(w)|, Decode(zeroed, f, w, t).v, Decode(zeroed, f, w, t).extra)
    decreases w, 3
  {
    hide At, ParseVal, ParseLeaf, ParseBody, Text, DecodeMembers, DecodeElems, DecodeEntries;
    if f.IsLeaf() {
      ParseLeafText(s, f, w, t, p, b);
    } else {
      match w {
        case WArr(false, elems) => ParseArrText(zeroed, s, f.elem, elems, t, p, b);
        case WArr(true, elems) => ParseFixArrText(zeroed, s, f.cap, f.elem, elems, t, p, b);
        case WObj(pairs) => ParseObjectText(zeroed, s, f, pairs, t, p, b);
        case WTab(pairs) => ParseTableText(zeroed, s, f, pairs, t, p, b);
      }
    }
    ParseHeader(zeroed, s, f, t, p, b);
  }

  /** The array parser once its head has been read. */
  lemma {:induction false} ParseArrayHead(zeroed: bool, s: seq<byte>, f: Format, t: Value, p: nat, q: nat, b: nat, n: nat, c: nat)
    requires (f.FArr? || f.FFixArr?) && p < q && n < TWO32
    requires StrToUl(s, q) == (n, c) && StrChr(s, c, LBRACKET) == Some(c)
    ensures ParseArray(zeroed, s, f, t, p, q, b) ==
            if n == 0 then Done(c + 2 - p, t, 0)
            else if b - (c + 1 - p) < n || (f.FArr? && t != VArr([])) then Fail
            else
              var slots := if f.FArr? then Blank(n, Zero(f.elem)) else Slots(t, f.cap);
              var r := ParseElems(zeroed, s, f.elem, slots, 0, if n < |slots| then n else |slots|, c + 1, b);
              if r.Stop? || Peek(s, r.q) != RBRACKET then Fail
              else Done(r.q + 1 - p,
                        if f.FArr? then VArr(r.parts) else VFixArr(if n < f.cap then n else f.cap, r.parts),
                        r.skipped)
  {
    hide StrToUl, StrChr, ParseElems, Slots, Blank, Zero, Peek;
  }

  lemma {:induction false} ParseArrText(zeroed: bool, s: seq<byte>, elem: Format, ws: seq<Wire>, t: Value, p: nat, b: nat)
    requires At(s, p, Text(WArr(false, ws))) && |Text(WArr(false, ws))| <= b < TWO32
    requires Decode(zeroed, FArr(elem), WArr(false, ws), t).Good?
    ensures Peek(s, p) == FArr(elem).Tag() && Peek(s, p + 1) == COLON
    ensures var d := Decode(zeroed, FArr(elem), WArr(false, ws), t);
            ParseBody(zeroed, s, FArr(elem), t, p, p + 2, b) == Done(|Text(WArr(false, ws))|, d.v, d.extra)
    decreases ws, 3
  {
    hide At, ParseElems, ParseArray, DecodeElems, ArrHead, ElemsText, Zero, StrToUl, StrChr, Text;
    hide ParseObject, ParseEntries, Slots, Blank, ParseLeaf;
    ArrayShape(s, false, ws, p, b);
    ParseArrayHead(zeroed, s, FArr(elem), t, p, p + 2, b, |ws|, p + |ArrHead(false, |ws|)| - 1);
    if ws != [] {
      ParseElemsText(zeroed, s, elem, ws, Blank(|ws|, Zero(elem)), 0, p + |ArrHead(false, |ws|)|, b);
    }
  }

  lemma {:induction false} ParseFixArrText(zeroed: bool, s: seq<byte>, cap: nat, elem: Format, ws: seq<Wire>, t: Value, p: nat, b: nat)
    requires At(s, p, Text(WArr(true, ws))) && |Text(WArr(true, ws))| <= b < TWO32
    requires Decode(zeroed, FFixArr(cap, elem), WArr(true, ws), t).Good?
    ensures Peek(s, p) == FFixArr(cap, elem).Tag() && Peek(s, p + 1) == COLON
    ensures var d := Decode(zeroed, FFixArr(cap, elem), WArr(true, ws), t);
            ParseBody(zeroed, s, FFixArr(cap, elem), t, p, p + 2, b) == Done(|Text(WArr(true, ws))|, d.v, d.extra)
    decreases ws, 3
  {
    hide At, ParseElems, ParseArray, DecodeElems, ArrHead, ElemsText, Zero, StrToUl, StrChr, Text;
    hide ParseObject, ParseEntries, Slots, Blank, ParseLeaf;
    ArrayShape(s, true, ws, p, b);
    ParseArrayHead(zeroed, s, FFixArr(cap, elem), t, p, p + 2, b, |ws|, p + |ArrHead(true, |ws|)| - 1);
    if ws != [] {
      ParseElemsText(zeroed, s, elem, ws, Slots(t, cap), 0, p + |ArrHead(true, |ws|)|, b);
    }
  }

  /** Where the parts of an array's text stand. */
  lemma {:induction false} ArrayShape(s: seq<byte>, fixed: bool, elems: seq<Wire>, p: nat, b: nat)
    requires At(s, p, Text(WArr(fixed, elems))) && |Text(WArr(fixed, elems))| <= b < TWO32
    ensures Peek(s, p) == (if fixed then 65 else 97) && Peek(s, p + 1) == COLON
    ensures var h := |ArrHead(fixed, |elems|)|;
            && StrToUl(s, p + 2) == (|elems|, p + h - 1)
            && StrChr(s, p + h - 1, LBRACKET) == Some(p + h - 1)
            && At(s, p + h, ElemsText(elems))
            && Peek(s, p + h + |ElemsText(elems)|) == RBRACKET
            && |Text(WArr(fixed, elems))| == h + |ElemsText(elems)| + 1
            && |elems| <= b - h && |elems| < TWO32 && (elems == [] ==> |ElemsText(elems)| == 0)
  {
    hide At, ArrHead, StrToUl;
    var h := ArrHead(fixed, |elems|);
    ElemsTextLength(elems);
    ArrHeadFind(s, fixed, |elems|, ElemsText(elems) + [RBRACKET], p, b);
    StrChrHere(s, p + |h| - 1, LBRACKET);
    AtSplit(s, p + |h|, ElemsText(elems), [RBRACKET]);
    AtPeek(s, p + |h| + |ElemsText(elems)|, [RBRACKET], 0);
  }

  lemma {:induction false} ElemsTextLength(ws: seq<Wire>)
    ensures |ElemsText(ws)| >= 2 * |ws|
    ensures ws == [] ==> ElemsText(ws) == []
  {
    hide Text;
    if ws != [] {
      ElemsTextLength(ws[1..]);
    }
  }

  lemma {:induction false} ParseElemsStep(zeroed: bool, s: seq<byte>, e: Format, slots: seq<Value>, i: nat, n: nat, q: nat, b: nat)
    requires i < n <= |slots|
    ensures var r := ParseVal(zeroed, s, e, slots[i], q, b);
            ParseElems(zeroed, s, e, slots, i, n, q, b) ==
            if r.Fail? then Stop
            else More(r.skipped, ParseElems(zeroed, s, e, slots[i := r.v], i + 1, n, q + r.n, Sub32(b, r.n)))
  {
    hide ParseVal, Sub32, More;
  }

  lemma {:induction false} DecodeElemsStep(zeroed: bool, e: Format, ws: seq<Wire>, slots: seq<Value>, i: nat)
    requires ws != [] && i + |ws| <= |slots|
    ensures var r := Decode(zeroed, e, ws[0], slots[i]);
            DecodeElems(zeroed, e, ws, slots, i) ==
            if r.Bad? then Bad else Plus(r.extra, DecodeElems(zeroed, e, ws[1..], slots[i := r.v], i + 1))
  {
    hide Decode, Plus;
  }

  lemma {:induction false} ParseElemsText(zeroed: bool, s: seq<byte>, e: Format, ws: seq<Wire>, slots: seq<Value>, i: nat, q: nat, b: nat)
    requires i + |ws| <= |slots|
    requires At(s, q, ElemsText(ws)) && |ElemsText(ws)| <= b < TWO32
    requires DecodeElems(zeroed, e, ws, slots, i).Good?
    ensures var d := DecodeElems(zeroed, e, ws, slots, i);
            ParseElems(zeroed, s, e, slots, i, i + |ws|, q, b) == Reached(q + |ElemsText(ws)|, d.v, d.extra)
    decreases ws, 2
  {
    hide At, ParseVal, ParseElems, Decode, DecodeElems, Text, More, Plus;
    if ws == [] {
      NoElemsText(zeroed, s, e, slots, i, q, b);
    } else {
      AtSplit(s, q, Text(ws[0]), ElemsText(ws[1..]));
      DecodeElemsStep(zeroed, e, ws, slots, i);
      ParseElemsStep(zeroed, s, e, slots, i, i + |ws|, q, b);
      ParseText(zeroed, s, e, ws[0], slots[i], q, b);
      var v := Decode(zeroed, e, ws[0], slots[i]).v;
      ParseElemsText(zeroed, s, e, ws[1..], slots[i := v], i + 1, q + |Text(ws[0])|, b - |Text(ws[0])|);
    }
  }

  lemma {:induction false} NoElemsText(zeroed: bool, s: seq<byte>, e: Format, slots: seq<Value>, i: nat, q: nat, b: nat)
    requires i <= |slots|
    ensures DecodeElems(zeroed, e, [], slots, i) == Good(slots, 0)
    ensures ParseElems(zeroed, s, e, slots, i, i, q, b) == Reached(q, slots, 0)
  {
  }

  lemma {:induction false} ParseObjectText(zeroed: bool, s: seq<byte>, f: Format, ps: seq<Pair>, t: Value, p: nat, b: nat)
    requires f.FObj?
    requires At(s, p, Text(WObj(ps))) && |Text(WObj(ps))| <= b < TWO32
    requires Decode(zeroed, f, WObj(ps), t).Good?
    ensures Peek(s, p) == f.Tag() && Peek(s, p + 1) == COLON
    ensures var d := Decode(zeroed, f, WObj(ps), t);
            ParseBody(zeroed, s, f, t, p, p + 2, b) == Done(|Text(WObj(ps))|, d.v, d.extra)
    decreases ps, 3
  {
    hide At, ParseObject, DecodeMembers;
    BraceFind(s, 111, LBRACE, PairsText(ps) + [RBRACE], p, b);
    StrChrHere(s, p + 2, LBRACE);
    AtSplit(s, p + 3, PairsText(ps), [RBRACE]);
    AtPeek(s, p + 3 + |PairsText(ps)|, [RBRACE], 0);
    var ts := Members(t, |f.fields|);
    ParseMembersText(zeroed, s, f, ps, ts, p + 3, b);
    ParseObjectStops(zeroed, s, f, DecodeMembers(zeroed, f, ps, ts).v, p + 3 + |PairsText(ps)|, b - |PairsText(ps)|);
  }

  lemma {:induction false} ParseObjectStops(zeroed: bool, s: seq<byte>, f: Format, ts: seq<Value>, q: nat, b: nat)
    requires f.FObj? && |ts| == |f.fields| && (b <= 2 || Peek(s, q) != 115 || Peek(s, q + 1) != COLON)
    ensures ParseObject(zeroed, s, f, ts, q, b) == Reached(q, ts, 0)
  {
    hide ParseMember, More, Sub32;
  }

  lemma {:induction false} ParseObjectStep(zeroed: bool, s: seq<byte>, f: Format, ts: seq<Value>, q: nat, b: nat)
    requires f.FObj? && |ts| == |f.fields|
    requires b > 2 && Peek(s, q) == 115 && Peek(s, q + 1) == COLON
    ensures var m := ParseMember(zeroed, s, f, ts, q, b);
            ParseObject(zeroed, s, f, ts, q, b) ==
            if m.Stop? then Stop else More(m.skipped, ParseObject(zeroed, s, f, m.parts, m.q, Sub32(b, m.q - q)))
  {
    hide ParseMember, More, Sub32, Peek, Rem;
  }

  /** The object loop gets past any list of fields, known to the schema or not, and goes
      on behind it. */
  lemma {:induction false} ParseMembersText(zeroed: bool, s: seq<byte>, f: Format, ps: seq<Pair>, ts: seq<Value>, q: nat, b: nat)
    requires f.FObj? && |ts| == |f.fields|
    requires At(s, q, PairsText(ps)) && |PairsText(ps)| <= b < TWO32
    requires DecodeMembers(zeroed, f, ps, ts).Good?
    ensures var d, n := DecodeMembers(zeroed, f, ps, ts), |PairsText(ps)|;
            ParseObject(zeroed, s, f, ts, q, b) == More(d.extra, ParseObject(zeroed, s, f, d.v, q + n, b - n))
    decreases ps, 2
  {
    hide At, ParseMember, ParseObject, DecodeMember, PairText;
    if ps != [] {
      AtSplit(s, q, PairText(ps[0]), PairsText(ps[1..]));
      ParseMemberText(zeroed, s, f, ps[0], ts, q, b);
      ParseObjectStep(zeroed, s, f, ts, q, b);
      var n := |PairText(ps[0])|;
      ParseMembersText(zeroed, s, f, ps[1..], DecodeMember(zeroed, f, ps[0], ts).v, q + n, b - n);
    }
  }

  lemma {:induction false} ParseMemberText(zeroed: bool, s: seq<byte>, f: Format, pr: Pair, ts: seq<Value>, q: nat, b: nat)
    requires f.FObj? && |ts| == |f.fields|
    requires At(s, q, PairText(pr)) && |PairText(pr)| <= b < TWO32
    requires DecodeMember(zeroed, f, pr, ts).Good?
    ensures |PairText(pr)| > 2 && Peek(s, q) == 115 && Peek(s, q + 1) == COLON
    ensures var d := DecodeMember(zeroed, f, pr, ts);
            ParseMember(zeroed, s, f, ts, q, b) == Reached(q + |PairText(pr)|, d.v, d.extra)
    decreases pr, 1
  {
    hide At, ParseVal, Skip, Decode, Text, CStr, ParseKey;
    AtSplit(s, q, Text(pr.key), Text(pr.val));
    ParseKeyText(s, pr.key, q, b);
    var k := |Text(pr.key)|;
    if FieldOf(f, pr) == -1 {
      SkipText(s, pr.val, q + k, b - k);
    } else {
      var i := FieldOf(f, pr);
      ParseText(zeroed, s, f.fields[i].fmt, pr.val, ts[i], q + k, b - k);
    }
  }

  lemma {:induction false} ParseKeyText(s: seq<byte>, key: Wire, q: nat, b: nat)
    requires KeyText(key)
    requires At(s, q, Text(key)) && |Text(key)| < b < TWO32
    ensures |Text(key)| > 2 && Peek(s, q) == 115 && Peek(s, q + 1) == COLON
    ensures ParseKey(s, q, b) == Some((CStr(key.bytes), q + |Text(key)|))
  {
    hide At, StrHead, CStr, StrToUl;
    var h := StrHead(false, |key.bytes|);
    StrHeadScan(s, false, |key.bytes|, key.bytes + [SEMI], q);
    AtSplit(s, q + |h|, key.bytes, [SEMI]);
    AtPeek(s, q + |h| + |key.bytes|, [SEMI], 0);
    AtSlice(s, q + |h|, key.bytes);
  }

  lemma {:induction false} ParseTableText(zeroed: bool, s: seq<byte>, f: Format, ps: seq<Pair>, t: Value, p: nat, b: nat)
    requires f.FTable?
    requires At(s, p, Text(WTab(ps))) && |Text(WTab(ps))| <= b < TWO32
    requires Decode(zeroed, f, WTab(ps), t).Good?
    ensures Peek(s, p) == f.Tag() && Peek(s, p + 1) == COLON
    ensures var d := Decode(zeroed, f, WTab(ps), t);
            ParseBody(zeroed, s, f, t, p, p + 2, b) == Done(|Text(WTab(ps))|, d.v, d.extra)
    decreases ps, 3
  {
    hide At, ParseEntries, DecodeEntries;
    BraceFind(s, 104, LPAREN, PairsText(ps) + [RPAREN], p, b);
    StrChrHere(s, p + 2, LPAREN);
    AtSplit(s, p + 3, PairsText(ps), [RPAREN]);
    AtPeek(s, p + 3 + |PairsText(ps)|, [RPAREN], 0);
    ParseEntriesText(zeroed, s, f, ps, [], p + 3, b);
    ParseEntriesStops(zeroed, s, f, DecodeEntries(zeroed, f, ps, []).v, p + 3 + |PairsText(ps)|, b - |PairsText(ps)|);
  }

  lemma {:induction false} ParseEntriesStops(zeroed: bool, s: seq<byte>, f: Format, entries: seq<Entry>, q: nat, b: nat)
    requires f.FTable? && Peek(s, q) == RPAREN
    ensures ParseEntries(zeroed, s, f, entries, q, b) == Reached(q, entries, 0)
  {
    hide ParseEntry, More, Sub32;
  }

  lemma {:induction false} ParseEntriesStep(zeroed: bool, s: seq<byte>, f: Format, entries: seq<Entry>, q: nat, b: nat)
    requires f.FTable? && b > 0 && Peek(s, q) != RPAREN
    ensures var m := ParseEntry(zeroed, s, f, entries, q, b);
            ParseEntries(zeroed, s, f, entries, q, b) ==
            if m.Stop? then Stop else More(m.skipped, ParseEntries(zeroed, s, f, m.parts, m.q, Sub32(b, m.q - q)))
  {
    hide ParseEntry, More, Sub32, Peek, Rem;
  }

  lemma {:induction false} ParseEntriesText(zeroed: bool, s: seq<byte>, f: Format, ps: seq<Pair>, entries: seq<Entry>, q: nat, b: nat)
    requires f.FTable?
    requires At(s, q, PairsText(ps)) && |PairsText(ps)| <= b < TWO32
    requires DecodeEntries(zeroed, f, ps, entries).Good?
    ensures var d, n := DecodeEntries(zeroed, f, ps, entries), |PairsText(ps)|;
            ParseEntries(zeroed, s, f, entries, q, b) == More(d.extra, ParseEntries(zeroed, s, f, d.v, q + n, b - n))
    decreases ps, 2
  {
    hide At, ParseEntry, ParseEntries, DecodeEntry, PairText;
    if ps != [] {
      AtSplit(s, q, PairText(ps[0]), PairsText(ps[1..]));
      ParseEntryText(zeroed, s, f, ps[0], entries, q, b);
      ParseEntriesStep(zeroed, s, f, entries, q, b);
      var n := |PairText(ps[0])|;
      ParseEntriesText(zeroed, s, f, ps[1..], DecodeEntry(zeroed, f, ps[0], entries).v, q + n, b - n);
    }
  }

  lemma {:induction false} ParseEntryText(zeroed: bool, s: seq<byte>, f: Format, pr: Pair, entries: seq<Entry>, q: nat, b: nat)
    requires f.FTable?
    requires At(s, q, PairText(pr)) && |PairText(pr)| <= b < TWO32
    requires DecodeEntry(zeroed, f, pr, entries).Good?
    ensures |PairText(pr)| > 2 && Peek(s, q) != RPAREN
    ensures var d := DecodeEntry(zeroed, f, pr, entries);
            ParseEntry(zeroed, s, f, entries, q, b) == Reached(q + |PairText(pr)|, d.v, d.extra)
    decreases pr, 1
  {
    hide At, ParseVal, Decode, Text, CStr, Insert, ParseEntryKey, HashInit, EntryKey;
    AtSplit(s, q, Text(pr.key), Text(pr.val));
    ParseEntryKeyText(s, f.isint, pr.key, entries, q, b);
    var k := |Text(pr.key)|;
    ParseText(zeroed, s, f.elem, pr.val, HashInit(zeroed, f.elem), q + k, b - k);
  }

  lemma {:induction false} ParseEntryKeyText(s: seq<byte>, isint: bool, key: Wire, entries: seq<Entry>, q: nat, b: nat)
    requires EntryKey(isint, key, entries).Some?
    requires At(s, q, Text(key)) && |Text(key)| <= b < TWO32
    ensures Peek(s, q) != RPAREN
    ensures ParseEntryKey(s, isint, entries, q, b)
         == Some((EntryKey(isint, key, entries).value, q + |Text(key)|, 0))
  {
    hide At, ParseLeaf, Text, CStr, Skip;
    ParseLeafText(s, if isint then FInt(UInt) else FStr, key, VStr([]), q, b);
  }
}
