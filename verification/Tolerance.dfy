/** What the parser makes of texts the printer does not write: bytes before a semicolon,
    numbers in other spellings, strings longer than their field, array counts that are not
    the number of elements, and values of other types in front. */
module Tolerance {
  import opened Wrappers
  import opened Bytes
  import opened Schema
  import opened Wire
  import opened Skipper
  import opened Parser
  import opened Decoder
  import opened Scanning

  /* ---------- scalars ---------- */

  /** The first semicolon at or behind `i` stands at `j`, with no NUL before it. */
  predicate SemicolonAt(s: seq<byte>, i: nat, j: nat) {
    i <= j < |s| && s[j] == ';' as int && forall k :: i <= k < j ==> s[k] != ';' as int && s[k] != 0
  }

  predicate Unterminated(s: seq<byte>, i: nat) {
    forall j :: i <= j < |s| && s[j] == ';' as int ==> exists k :: i <= k < j && s[k] == 0
  }

  /** The text at `p` has the letter of the format and a colon. */
  predicate Headed(s: seq<byte>, f: Format, p: nat) {
    Peek(s, p) == f.Tag() && Peek(s, p + 1) == ':' as int
  }

  lemma {:induction false} NoSemicolon(s: seq<byte>, i: nat)
    requires Unterminated(s, i)
    ensures StrChr(s, i, SEMI) == None
  {
    var r := StrChr(s, i, SEMI);
    if r.Some? {
      StrChrExact(s, i, SEMI, r.value);
    }
  }

  /** A boolean is false for the digit zero and true for any other byte; a char is its
      byte. What follows before the semicolon is passed over. */
  lemma {:induction false} ByteRead(zeroed: bool, s: seq<byte>, f: Format, t: Value, p: nat, b: nat, j: nat)
    requires (f.FBool? || f.FChar?) && Headed(s, f, p) && b > 0 && SemicolonAt(s, p + 3, j)
    ensures ParseVal(zeroed, s, f, t, p, b) ==
            Done(j + 1 - p, if f.FBool? then VBool(Peek(s, p + 2) != '0' as int) else VChar(Peek(s, p + 2)), 0)
  {
    ParseHeader(zeroed, s, f, t, p, b);
    StrChrExact(s, p + 3, SEMI, j);
    hide ParseVal, StrChr;
  }

  /** A number may have blanks and a sign in front and bytes behind. */
  lemma {:induction false} IntRead(zeroed: bool, s: seq<byte>, k: IntKind, t: Value, p: nat, b: nat, blanks: nat, sign: seq<byte>,
                                   digits: nat, j: nat)
    requires Headed(s, FInt(k), p) && b > 0 && Number(s, p + 2, blanks, sign, digits)
    requires var e := p + 2 + blanks + |sign| + digits;
             (e < |s| ==> !('0' as int <= s[e] <= '9' as int)) && SemicolonAt(s, e, j)
    ensures var d := p + 2 + blanks + |sign|;
            ParseVal(zeroed, s, FInt(k), t, p, b) ==
            Done(j + 1 - p, VInt(k.Store(sign == Ascii("-"), Numeral(s[d..d + digits]))), 0)
  {
    hide Ascii, Numeral, ParseVal, StrChr, ScanSigned, ParseLeaf;
    NumberRead(s, p + 2, blanks, sign, digits);
    StrChrExact(s, p + 2 + blanks + |sign| + digits, SEMI, j);
    ParseHeader(zeroed, s, FInt(k), t, p, b);
    IntBody(s, k, t, p, p + 2, b, j);
  }

  lemma {:induction false} IntBody(s: seq<byte>, k: IntKind, t: Value, p: nat, q: nat, b: nat, j: nat)
    requires p < q && StrChr(s, ScanSigned(s, q).2, SEMI) == Some(j)
    ensures ParseLeaf(s, FInt(k), t, p, q, b) == Done(j + 1 - p, VInt(k.Store(ScanSigned(s, q).0, ScanSigned(s, q).1)), 0)
  {
    hide StrChr, ScanSigned;
  }

  /** Without digits a number is zero. */
  lemma {:induction false} NoIntRead(zeroed: bool, s: seq<byte>, k: IntKind, t: Value, p: nat, b: nat, blanks: nat, j: nat)
    requires Headed(s, FInt(k), p) && b > 0
    requires p + 2 + blanks <= |s| && (forall j :: p + 2 <= j < p + 2 + blanks ==> IsBlank(s[j])) && !IsBlank(Peek(s, p + 2 + blanks))
    requires var w := p + 2 + blanks;
             var d := if Peek(s, w) == '+' as int || Peek(s, w) == '-' as int then w + 1 else w;
             !('0' as int <= Peek(s, d) <= '9' as int)
    requires SemicolonAt(s, p + 2, j)
    ensures ParseVal(zeroed, s, FInt(k), t, p, b) == Done(j + 1 - p, VInt(0), 0)
  {
    NoNumberRead(s, p + 2, blanks);
    StrChrExact(s, p + 2, SEMI, j);
    ParseHeader(zeroed, s, FInt(k), t, p, b);
    hide ParseVal, StrChr, ScanSigned;
  }

  /** A scalar without a semicolon before the end is refused. */
  lemma {:induction false} ScalarRefused(zeroed: bool, s: seq<byte>, f: Format, t: Value, p: nat, b: nat)
    requires (f.FBool? || f.FChar? || f.FInt?) && Headed(s, f, p) && b > 0
    requires Unterminated(s, if f.FInt? then ScanSigned(s, p + 2).2 else p + 3)
    ensures ParseVal(zeroed, s, f, t, p, b) == Fail
  {
    ParseHeader(zeroed, s, f, t, p, b);
    NoSemicolon(s, if f.FInt? then ScanSigned(s, p + 2).2 else p + 3);
    hide ParseVal, StrChr, ScanSigned;
  }

  /** The letters that open a value. */
  predicate Letter(c: byte) {
    || c == 'b' as int || c == 'c' as int || c == 'y' as int || c == 'Y' as int || c == 't' as int || c == 'T' as int
    || c == 'i' as int || c == 'I' as int || c == 'l' as int || c == 'L' as int || c == 'f' as int || c == 'd' as int
    || c == 'D' as int || c == 's' as int || c == 'S' as int || c == 'o' as int || c == 'a' as int || c == 'A' as int
    || c == 'h' as int
  }

  /** No value where nothing is announced, where the colon is missing, or where a byte
      stands that opens no value. */
  lemma {:induction false} NoValue(zeroed: bool, s: seq<byte>, f: Format, t: Value, p: nat, b: nat)
    requires b == 0 || (Peek(s, p) == f.Tag() && Peek(s, p + 1) != ':' as int) || !Letter(Peek(s, p))
    ensures ParseVal(zeroed, s, f, t, p, b) == Fail
  {
    hide ParseLeaf, ParseBody, Resync, Skip, Letter;
    if !Letter(Peek(s, p)) {
      Unopened(s, p, b);
      NotTag(f, Peek(s, p));
    }
    ResyncStops(s, f.Tag(), p, b);
  }

  lemma {:induction false} Unopened(s: seq<byte>, p: nat, b: nat)
    requires !Letter(Peek(s, p))
    ensures Skip(s, p, b) == 0
  {
  }

  lemma {:induction false} NotTag(f: Format, c: byte)
    requires !Letter(c)
    ensures c != f.Tag()
  {
  }

  lemma {:induction false} ResyncStops(s: seq<byte>, tag: byte, p: nat, b: nat)
    requires tag != NUL && (b == 0 || Peek(s, p) == tag || Skip(s, p, b) == 0)
    ensures Resync(s, tag, p, b) == Sync(p, b, 0)
  {
    hide Skip;
  }

  /* ---------- strings ---------- */

  /** The length a decimal announces: the number as an unsigned 32-bit word. */
  function Announced(negative: bool, m: nat): (n: nat)
    requires m < 18446744073709551616
    ensures n < 4294967296
  {
    (if negative && m > 0 then 18446744073709551616 - m else m) % 4294967296
  }

  /** A string of `n` announced bytes behind the colon at `colon` is stored if they are
      within the announced length, end in a semicolon, and find no string already there; a
      fixed string keeps the first bytes that fit. Of none announced nothing is stored. */
  lemma {:induction false} StringRead(zeroed: bool, s: seq<byte>, f: Format, t: Value, p: nat, b: nat, blanks: nat, sign: seq<byte>,
                                      digits: nat, colon: nat)
    requires (f.FStr? || f.FFixStr?) && Headed(s, f, p) && b > 0 && Number(s, p + 2, blanks, sign, digits)
    requires var d := p + 2 + blanks + |sign|;
             && (d + digits < |s| ==> !('0' as int <= s[d + digits] <= '9' as int))
             && Numeral(s[d..d + digits]) < 18446744073709551616
             && d + digits <= colon < |s| && s[colon] == COLON
             && forall k :: d + digits <= k < colon ==> s[k] != COLON && s[k] != 0
    ensures var d := p + 2 + blanks + |sign|;
            var n, from := Announced(sign == Ascii("-"), Numeral(s[d..d + digits])), colon + 1;
            ParseVal(zeroed, s, f, t, p, b) ==
            if n == 0 then Done(from + 1 - p, t, 0)
            else if from - p + n <= b && from + n < |s| && s[from + n] == ';' as int && (f.FStr? ==> t == VStr([])) then
              Done(from + n + 1 - p,
                   if f.FStr? then VStr(s[from..from + n])
                   else VFixStr(s[from..from + if n <= f.cap then n else f.cap]), 0)
            else Fail
  {
    hide ScanSigned, StrToUl, StrChr, ParseVal, ParseString, Numeral, Ascii, Announced, Headed;
    var d := p + 2 + blanks + |sign|;
    NumberRead(s, p + 2, blanks, sign, digits);
    StrChrExact(s, d + digits, COLON, colon);
    LengthRead(s, p + 2, d + digits, sign == Ascii("-"), Numeral(s[d..d + digits]));
    HeadedString(zeroed, s, f, t, p, b);
    StringBody(s, f, t, p, p + 2, b, d + digits, colon);
  }

  lemma {:induction false} LengthRead(s: seq<byte>, q: nat, e: nat, negative: bool, m: nat)
    requires ScanSigned(s, q) == (negative, m, e) && m < 18446744073709551616
    ensures StrToUl(s, q).1 == e && StrToUl(s, q).0 % 4294967296 == Announced(negative, m)
  {
    hide ScanSigned;
  }

  lemma {:induction false} HeadedString(zeroed: bool, s: seq<byte>, f: Format, t: Value, p: nat, b: nat)
    requires (f.FStr? || f.FFixStr?) && Headed(s, f, p) && b > 0
    ensures ParseVal(zeroed, s, f, t, p, b) == ParseString(s, f, t, p, p + 2, b)
  {
    hide ParseVal, ParseString;
    ParseHeader(zeroed, s, f, t, p, b);
  }

  lemma {:induction false} StringBody(s: seq<byte>, f: Format, t: Value, p: nat, q: nat, b: nat, e: nat, colon: nat)
    requires (f.FStr? || f.FFixStr?) && p < q && StrToUl(s, q).1 == e && StrChr(s, e, COLON) == Some(colon)
    ensures var n, from := StrToUl(s, q).0 % 4294967296, colon + 1;
            ParseString(s, f, t, p, q, b) ==
            if n == 0 then Done(from + 1 - p, t, 0)
            else if from - p + n <= b && from + n < |s| && s[from + n] == ';' as int && (f.FStr? ==> t == VStr([])) then
              Done(from + n + 1 - p,
                   if f.FStr? then VStr(s[from..from + n])
                   else VFixStr(s[from..from + if n <= f.cap then n else f.cap]), 0)
            else Fail
  {
    hide StrToUl, StrChr;
    var n, from := StrToUl(s, q).0 % 4294967296, colon + 1;
    if f.FFixStr? && n > f.cap && from + n < |s| {
      assert s[from..from + n][..f.cap] == s[from..from + f.cap];
    }
  }

  /** The print of a string into a fixed one: the whole text is consumed, and the first
      bytes that fit are kept. */
  lemma {:induction false} FixedString(zeroed: bool, s: seq<byte>, cap: nat, bytes: seq<byte>, t: Value, p: nat, b: nat)
    requires bytes != []
    requires At(s, p, Text(WStr(true, bytes))) && |Text(WStr(true, bytes))| <= b < TWO32
    ensures Text(WStr(true, bytes)) == Ascii("S:") + Digits(|bytes|) + Ascii(":") + bytes + Ascii(";")
    ensures |bytes| <= cap ==> ParseVal(zeroed, s, FFixStr(cap), t, p, b) == Done(|Text(WStr(true, bytes))|, VFixStr(bytes), 0)
    ensures |bytes| > cap ==> ParseVal(zeroed, s, FFixStr(cap), t, p, b) == Done(|Text(WStr(true, bytes))|, VFixStr(bytes[..cap]), 0)
  {
    hide At, ParseVal, Digits;
    assert Ascii("S:") == [83, COLON] && Ascii(":") == [COLON] && Ascii(";") == [SEMI];
    ParseText(zeroed, s, FFixStr(cap), WStr(true, bytes), t, p, b);
  }

  /** The key of a field: 1 to 100 announced bytes behind one byte after the number, within
      the announced length and before a semicolon, up to their first NUL. */
  lemma {:induction false} KeyExact(s: seq<byte>, q: nat, b: nat, blanks: nat, sign: seq<byte>, digits: nat)
    requires Number(s, q + 2, blanks, sign, digits)
    requires var d := q + 2 + blanks + |sign|;
             && (d + digits < |s| ==> !('0' as int <= s[d + digits] <= '9' as int))
             && Numeral(s[d..d + digits]) < 18446744073709551616
    ensures var d := q + 2 + blanks + |sign|;
            var n, from := Announced(sign == Ascii("-"), Numeral(s[d..d + digits])), d + digits + 1;
            ParseKey(s, q, b) ==
            if 1 <= n <= 100 && from + n - q < b && from + n < |s| && s[from + n] == ';' as int
            then Some((CStr(s[from..from + n]), from + n + 1)) else None
  {
    hide ScanSigned, StrToUl, Numeral, Ascii, Announced, CStr;
    var d := q + 2 + blanks + |sign|;
    NumberRead(s, q + 2, blanks, sign, digits);
    LengthRead(s, q + 2, d + digits, sign == Ascii("-"), Numeral(s[d..d + digits]));
  }

  /* ---------- arrays ---------- */

  /** An array's text whose count need not be the number of its elements. */
  function Counted(fixed: bool, n: nat, ws: seq<Wire>): seq<byte> {
    ArrHead(fixed, n) + (ElemsText(ws) + [RBRACKET])
  }

  /** The elements parsed so far, and the loop from there on. */
  lemma {:induction false} ElemsThrough(zeroed: bool, s: seq<byte>, e: Format, ws: seq<Wire>, slots: seq<Value>, i: nat, n: nat, q: nat, b: nat)
    requires i + |ws| <= n <= |slots| && DecodeElems(zeroed, e, ws, slots, i).Good?
    requires At(s, q, ElemsText(ws)) && |ElemsText(ws)| <= b < TWO32
    ensures var d := DecodeElems(zeroed, e, ws, slots, i);
            ParseElems(zeroed, s, e, slots, i, n, q, b) ==
            More(d.extra, ParseElems(zeroed, s, e, d.v, i + |ws|, n, q + |ElemsText(ws)|, b - |ElemsText(ws)|))
    decreases |ws|
  {
    hide At, ParseVal, ParseElems, Decode, DecodeElems, Text;
    if ws == [] {
      NoElemsText(zeroed, s, e, slots, i, q, b);
    } else {
      AtSplit(s, q, Text(ws[0]), ElemsText(ws[1..]));
      DecodeElemsStep(zeroed, e, ws, slots, i);
      ParseElemsStep(zeroed, s, e, slots, i, n, q, b);
      ParseText(zeroed, s, e, ws[0], slots[i], q, b);
      var v := Decode(zeroed, e, ws[0], slots[i]).v;
      ElemsThrough(zeroed, s, e, ws[1..], slots[i := v], i + 1, n, q + |Text(ws[0])|, b - |Text(ws[0])|);
    }
  }

  /** A closing bracket is no element. */
  lemma {:induction false} NoElement(zeroed: bool, s: seq<byte>, e: Format, slots: seq<Value>, i: nat, n: nat, q: nat, b: nat)
    requires i < n <= |slots| && Peek(s, q) == RBRACKET
    ensures ParseElems(zeroed, s, e, slots, i, n, q, b) == Stop
  {
    hide ParseLeaf, ParseBody;
    ParseElemsStep(zeroed, s, e, slots, i, n, q, b);
    assert Skip(s, q, b) == 0;
  }

  /** The elements an array takes: all that are announced, of a fixed one as many as fit. */
  function Wanted(f: Format, n: nat): nat
    requires f.FArr? || f.FFixArr?
  {
    if f.FFixArr? && f.cap < n then f.cap else n
  }

  /** The memory they are parsed into. */
  function Room(f: Format, t: Value, n: nat): (r: seq<Value>)
    requires f.FArr? || f.FFixArr?
    ensures |r| == if f.FArr? then n else f.cap
  {
    if f.FArr? then Blank(n, Zero(f.elem)) else Slots(t, f.cap)
  }

  /** An array is read exactly when it has as many elements as it takes and its count is
      not beyond the bytes announced; a count above the capacity is clipped, and elements
      above the capacity are refused. */
  lemma {:induction false} CountExact(zeroed: bool, s: seq<byte>, f: Format, n: nat, ws: seq<Wire>, t: Value, p: nat, b: nat)
    requires (f.FArr? && t == VArr([])) || f.FFixArr?
    requires 0 < n < TWO32
    requires At(s, p, Counted(f.FFixArr?, n, ws)) && |Counted(f.FFixArr?, n, ws)| <= b < TWO32
    requires var k := Wanted(f, n);
             DecodeElems(zeroed, f.elem, if |ws| <= k then ws else ws[..k], Room(f, t, n), 0).Good?
    ensures ParseVal(zeroed, s, f, t, p, b) ==
            if |ws| == Wanted(f, n) && |ArrHead(f.FFixArr?, n)| + n <= b then
              var d := DecodeElems(zeroed, f.elem, ws, Room(f, t, n), 0);
              Done(|Counted(f.FFixArr?, n, ws)|, if f.FArr? then VArr(d.v) else VFixArr(Wanted(f, n), d.v), d.extra)
            else Fail
  {
    hide *;
    var h, slots, k := |ArrHead(f.FFixArr?, n)|, Room(f, t, n), Wanted(f, n);
    CountedHead(zeroed, s, f, n, ws, t, p, b);
    var taken := if |ws| <= k then ws else ws[..k];
    if |ws| > k {
      ElemsSplit(ws, k);
      AtSplit(s, p + h, ElemsText(taken), ElemsText(ws[k..]));
      FirstByte(s, ws[k..], p + h + |ElemsText(taken)|);
    }
    ElemsThrough(zeroed, s, f.elem, taken, slots, 0, k, p + h, b);
    var d := DecodeElems(zeroed, f.elem, taken, slots, 0);
    if |ws| < k {
      NoElement(zeroed, s, f.elem, d.v, |ws|, k, p + h + |ElemsText(ws)|, b - |ElemsText(ws)|);
    } else {
      NoElemsText(zeroed, s, f.elem, d.v, k, p + h + |ElemsText(taken)|, b - |ElemsText(taken)|);
    }
  }

  /** The head and the brackets around the element loop. */
  lemma {:induction false} CountedHead(zeroed: bool, s: seq<byte>, f: Format, n: nat, ws: seq<Wire>, t: Value, p: nat, b: nat)
    requires (f.FArr? && t == VArr([])) || f.FFixArr?
    requires 0 < n < TWO32
    requires At(s, p, Counted(f.FFixArr?, n, ws)) && |Counted(f.FFixArr?, n, ws)| <= b < TWO32
    ensures var h := |ArrHead(f.FFixArr?, n)|;
            && |Counted(f.FFixArr?, n, ws)| == h + |ElemsText(ws)| + 1
            && At(s, p + h, ElemsText(ws)) && Peek(s, p + h + |ElemsText(ws)|) == RBRACKET
            && |ElemsText(ws)| <= b < TWO32
            && Wanted(f, n) <= |Room(f, t, n)| && (f.FArr? ==> Wanted(f, n) == |Room(f, t, n)| == n)
            && ParseVal(zeroed, s, f, t, p, b) ==
               if b - h < n then Fail
               else
                 var r := ParseElems(zeroed, s, f.elem, Room(f, t, n), 0, Wanted(f, n), p + h, b);
                 if r.Stop? || Peek(s, r.q) != RBRACKET then Fail
                 else Done(r.q + 1 - p, if f.FArr? then VArr(r.parts) else VFixArr(Wanted(f, n), r.parts), r.skipped)
  {
    hide At, ParseVal, ParseElems, ParseArray, ArrHead, ElemsText, StrToUl, StrChr, Slots, Zero, ParseObject, ParseEntries, ParseLeaf;
    var fixed, h := f.FFixArr?, |ArrHead(f.FFixArr?, n)|;
    ArrHeadFind(s, fixed, n, ElemsText(ws) + [RBRACKET], p, b);
    AtSplit(s, p + h, ElemsText(ws), [RBRACKET]);
    AtPeek(s, p + h + |ElemsText(ws)|, [RBRACKET], 0);
    StrChrHere(s, p + h - 1, LBRACKET);
    ParseHeader(zeroed, s, f, t, p, b);
    ParseArrayHead(zeroed, s, f, t, p, p + 2, b, n, p + h - 1);
  }

  lemma {:induction false} ElemsSplit(ws: seq<Wire>, k: nat)
    requires k <= |ws|
    ensures ElemsText(ws) == ElemsText(ws[..k]) + ElemsText(ws[k..])
    decreases k
  {
    hide Text;
    if k == 0 {
      assert ws[..0] == [] && ws[0..] == ws;
    } else {
      ElemsSplit(ws[1..], k - 1);
      assert ws[..k][1..] == ws[1..][..k - 1] && ws[k..] == ws[1..][k - 1..];
      assert ws[..k][0] == ws[0];
    }
  }

  lemma {:induction false} FirstByte(s: seq<byte>, ws: seq<Wire>, q: nat)
    requires ws != [] && At(s, q, ElemsText(ws))
    ensures Peek(s, q) != RBRACKET
  {
    hide Text, At;
    AtSplit(s, q, Text(ws[0]), ElemsText(ws[1..]));
    TextTag(ws[0]);
    AtPeek(s, q, Text(ws[0]), 0);
  }

  /* ---------- values of other types in front ---------- */

  /** Values the parser skips while it looks for the letter `tag`. */
  predicate Skippable(ws: seq<Wire>, tag: byte) {
    forall i :: 0 <= i < |ws| ==> NoSemiChar(ws[i]) && Text(ws[i])[0] != tag
  }

  lemma {:induction false} ResyncText(s: seq<byte>, ws: seq<Wire>, tag: byte, p: nat, b: nat)
    requires tag != NUL && Skippable(ws, tag) && At(s, p, ElemsText(ws)) && |ElemsText(ws)| < b < TWO32
    requires Peek(s, p + |ElemsText(ws)|) == tag
    ensures Resync(s, tag, p, b) == Sync(p + |ElemsText(ws)|, b - |ElemsText(ws)|, |ElemsText(ws)|)
    decreases |ws|
  {
    hide Skip, Text, At, NoSemiChar;
    if ws != [] {
      var w := ws[0];
      AtSplit(s, p, Text(w), ElemsText(ws[1..]));
      AtPeek(s, p, Text(w), 0);
      SkipText(s, w, p, b);
      ResyncText(s, ws[1..], tag, p + |Text(w)|, b - |Text(w)|);
    }
  }

  /** How many announced bytes a value needs when `skipped` bytes were skipped before it:
      the length check of strings and arrays counts the skipped bytes twice. */
  function Needed(w: Wire, skipped: nat): nat {
    match w
    case WStr(fixed, bytes) => if bytes == [] then 0 else 2 * skipped + |StrHead(fixed, |bytes|)| + |bytes|
    case WArr(fixed, elems) => if elems == [] then 0 else 2 * skipped + |ArrHead(fixed, |elems|)| + |elems|
    case _ => 0
  }

  /** Values of other types in front are skipped and charged, and the value behind them is
      read, exactly if the bytes announced are as many as its length check asks for. */
  lemma {:induction false} SkipsOthers(zeroed: bool, s: seq<byte>, f: Format, ws: seq<Wire>, w: Wire, t: Value, p: nat, b: nat)
    requires Skippable(ws, f.Tag()) && Decode(zeroed, f, w, t).Good?
    requires At(s, p, ElemsText(ws) + Text(w)) && |ElemsText(ws) + Text(w)| <= b < TWO32
    ensures var l, d := |ElemsText(ws)|, Decode(zeroed, f, w, t);
            ParseVal(zeroed, s, f, t, p, b) ==
            if Needed(w, l) <= b then Done(l + |Text(w)|, d.v, l + d.extra) else Fail
  {
    hide *;
    var l := |ElemsText(ws)|;
    var q := p + l;
    AtSplit(s, p, ElemsText(ws), Text(w));
    TagStands(zeroed, s, f, w, t, q);
    ResyncText(s, ws, f.Tag(), p, b);
    Behind(zeroed, s, f, t, p, b, q);
    ParseText(zeroed, s, f, w, t, q, b - l);
    ResyncStops(s, f.Tag(), q, b - l);
    Behind(zeroed, s, f, t, q, b - l, q);
    OnMoved(zeroed, s, f, w, t, p, q, b - l);
  }

  /** The parse of a value from behind its colon at `q`, begun at `p`. */
  function ParseOn(zeroed: bool, s: seq<byte>, f: Format, t: Value, p: nat, q: nat, b: nat): Parse
    requires p < q
  {
    if f.IsLeaf() then ParseLeaf(s, f, t, p, q, b) else ParseBody(zeroed, s, f, t, p, q, b)
  }

  /** From behind the values skipped. */
  lemma {:induction false} Behind(zeroed: bool, s: seq<byte>, f: Format, t: Value, p: nat, b: nat, q: nat)
    requires p <= q < p + b && Resync(s, f.Tag(), p, b) == Sync(q, b - (q - p), q - p)
    requires Peek(s, q) == f.Tag() && Peek(s, q + 1) == COLON
    ensures var r := ParseOn(zeroed, s, f, t, p, q + 2, b - (q - p));
            ParseVal(zeroed, s, f, t, p, b) == if r.Fail? then Fail else r.(skipped := q - p + r.skipped)
  {
    hide Resync, ParseLeaf, ParseBody;
  }

  lemma {:induction false} OnMoved(zeroed: bool, s: seq<byte>, f: Format, w: Wire, t: Value, p: nat, q: nat, b: nat)
    requires Decode(zeroed, f, w, t).Good? && At(s, q, Text(w)) && |Text(w)| <= b < TWO32 && p <= q
    requires ParseOn(zeroed, s, f, t, q, q + 2, b).Done?
    ensures var r := ParseOn(zeroed, s, f, t, q, q + 2, b);
            ParseOn(zeroed, s, f, t, p, q + 2, b) ==
            if Needed(w, q - p) <= b + (q - p) then Done(q - p + r.n, r.v, r.skipped) else Fail
  {
    hide At, Decode, Text, ParseLeaf, ParseBody, Needed, Peek;
    TagStands(zeroed, s, f, w, t, q);
    if f.FStr? || f.FFixStr? {
      StringMoved(zeroed, s, f, w, t, p, q, b);
    } else if f.FArr? || f.FFixArr? {
      ArrayMoved(zeroed, s, f, w, t, p, q, b);
    } else {
      OtherMoved(zeroed, s, f, w, t, p, q, b);
    }
  }

  lemma {:induction false} TagStands(zeroed: bool, s: seq<byte>, f: Format, w: Wire, t: Value, q: nat)
    requires Decode(zeroed, f, w, t).Good? && At(s, q, Text(w))
    ensures Peek(s, q) == f.Tag() != NUL && Peek(s, q + 1) == COLON && |Text(w)| >= 2
    ensures (f.FStr? || f.FFixStr? ==> w.WStr? && w.fixed == f.FFixStr?)
    ensures (f.FArr? || f.FFixArr? ==> w.WArr? && w.fixed == f.FFixArr?)
    ensures !(f.FStr? || f.FFixStr? || f.FArr? || f.FFixArr?) ==> !w.WStr? && !w.WArr?
  {
    hide At, DecodeElems, DecodeMembers, DecodeEntries;
    AtPeek(s, q, Text(w), 0);
    AtPeek(s, q, Text(w), 1);
  }

  /** Scalars, objects and tables do not look back to where the parse began. */
  lemma {:induction false} OtherMoved(zeroed: bool, s: seq<byte>, f: Format, w: Wire, t: Value, p: nat, q: nat, b: nat)
    requires !(f.FStr? || f.FFixStr? || f.FArr? || f.FFixArr?) && !w.WStr? && !w.WArr? && p <= q
    ensures Needed(w, q - p) == 0
    ensures var r := if f.IsLeaf() then ParseLeaf(s, f, t, q, q + 2, b) else ParseBody(zeroed, s, f, t, q, q + 2, b);
            (if f.IsLeaf() then ParseLeaf(s, f, t, p, q + 2, b) else ParseBody(zeroed, s, f, t, p, q + 2, b)) ==
            if r.Fail? then Fail else Done(q - p + r.n, r.v, r.skipped)
  {
    hide ParseObject, ParseEntries, ScanSigned, StrChr, Members, ParseString, ParseArray, Zero;
  }

  lemma {:induction false} StringMoved(zeroed: bool, s: seq<byte>, f: Format, w: Wire, t: Value, p: nat, q: nat, b: nat)
    requires (f.FStr? || f.FFixStr?) && w.WStr? && w.fixed == f.FFixStr? && p <= q
    requires At(s, q, Text(w)) && |Text(w)| <= b < TWO32
    requires ParseLeaf(s, f, t, q, q + 2, b).Done?
    ensures var r := ParseLeaf(s, f, t, q, q + 2, b);
            ParseLeaf(s, f, t, p, q + 2, b) ==
            if Needed(w, q - p) <= b + (q - p) then Done(q - p + r.n, r.v, r.skipped) else Fail
  {
    hide At, StrHead, StrToUl, StrChr, StoreString;
    StrHeadScan(s, w.fixed, |w.bytes|, w.bytes + [SEMI], q);
    StrChrHere(s, q + |StrHead(w.fixed, |w.bytes|)| - 1, COLON);
  }

  lemma {:induction false} ArrayMoved(zeroed: bool, s: seq<byte>, f: Format, w: Wire, t: Value, p: nat, q: nat, b: nat)
    requires (f.FArr? || f.FFixArr?) && w.WArr? && w.fixed == f.FFixArr? && p <= q
    requires At(s, q, Text(w)) && |Text(w)| <= b < TWO32
    requires ParseBody(zeroed, s, f, t, q, q + 2, b).Done?
    ensures var r := ParseBody(zeroed, s, f, t, q, q + 2, b);
            ParseBody(zeroed, s, f, t, p, q + 2, b) ==
            if Needed(w, q - p) <= b + (q - p) then Done(q - p + r.n, r.v, r.skipped) else Fail
  {
    hide At, ArrHead, ElemsText, StrToUl, StrChr, ParseElems, ParseArray, Slots, Blank, Zero;
    var c := q + |ArrHead(w.fixed, |w.elems|)| - 1;
    ArrayShape(s, w.fixed, w.elems, q, b);
    ParseArrayHead(zeroed, s, f, t, p, q + 2, b, |w.elems|, c);
    ParseArrayHead(zeroed, s, f, t, q, q + 2, b, |w.elems|, c);
  }

  /** An entry of an int-keyed table with values of other types before its key and before
      its value: both are found, and what was skipped is charged. */
  lemma {:induction false} EntryBehind(zeroed: bool, s: seq<byte>, f: Format, before: seq<Wire>, i: nat, between: seq<Wire>, w: Wire,
                                       entries: seq<Entry>, q: nat, b: nat)
    requires f.FTable? && f.isint && i < TWO32
    requires Skippable(before, 'I' as int) && Skippable(between, f.elem.Tag())
    requires Decode(zeroed, f.elem, w, HashInit(zeroed, f.elem)).Good?
    requires var key := WNum(UInt, i);
             var text := ElemsText(before) + (Text(key) + (ElemsText(between) + Text(w)));
             At(s, q, text) && |text| <= b < TWO32 && Needed(w, |ElemsText(between)|) <= b - |ElemsText(before)| - |Text(key)|
    ensures var x, y, d := |ElemsText(before)|, |ElemsText(between)|, Decode(zeroed, f.elem, w, HashInit(zeroed, f.elem));
            ParseEntry(zeroed, s, f, entries, q, b) ==
            Reached(q + x + |Text(WNum(UInt, i))| + y + |Text(w)|, Insert(entries, IntKey(i), d.v), x + y + d.extra)
  {
    hide *;
    var key := WNum(UInt, i);
    var x, l := |ElemsText(before)|, |Text(key)|;
    AtSplit(s, q, ElemsText(before), Text(key) + (ElemsText(between) + Text(w)));
    AtSplit(s, q + x, Text(key), ElemsText(between) + Text(w));
    NumberKey(s, before, i, entries, q, b);
    SkipsOthers(zeroed, s, f.elem, between, w, HashInit(zeroed, f.elem), q + x + l, b - x - l);
    Sub32Small(b, x + l);
    EntryOf(zeroed, s, f, entries, q, b, IntKey(i), q + x + l, x);
  }

  lemma {:induction false} Sub32Small(a: nat, b: nat)
    requires b <= a < TWO32
    ensures Sub32(a, b) == a - b
  {
  }

  lemma {:induction false} EntryOf(zeroed: bool, s: seq<byte>, f: Format, entries: seq<Entry>, q: nat, b: nat, key: Key, d: nat, k: nat)
    requires f.FTable? && ParseEntryKey(s, f.isint, entries, q, b) == Some((key, d, k)) && q <= d
    ensures var r := ParseVal(zeroed, s, f.elem, HashInit(zeroed, f.elem), d, Sub32(b, d - q));
            ParseEntry(zeroed, s, f, entries, q, b) ==
            if r.Fail? then Stop else Reached(d + r.n, Insert(entries, key, r.v), k + r.skipped)
  {
    hide ParseVal, ParseEntryKey, Insert, HashInit;
  }

  lemma {:induction false} NumberKey(s: seq<byte>, before: seq<Wire>, i: nat, entries: seq<Entry>, q: nat, b: nat)
    requires i < TWO32 && Skippable(before, 'I' as int) && At(s, q, ElemsText(before)) && At(s, q + |ElemsText(before)|, Text(WNum(UInt, i)))
    requires |ElemsText(before)| + |Text(WNum(UInt, i))| <= b < TWO32
    ensures ParseEntryKey(s, true, entries, q, b) ==
            Some((IntKey(i), q + |ElemsText(before)| + |Text(WNum(UInt, i))|, |ElemsText(before)|))
  {
    hide At, ParseLeaf, Resync, Text, ElemsText, Skippable;
    var x, key := |ElemsText(before)|, WNum(UInt, i);
    ParseLeafText(s, FInt(UInt), key, VStr([]), q + x, b - x);
    KeyStored(i);
    AtPeek(s, q + x, Text(key), 0);
    ResyncText(s, before, 73, q, b);
    OtherMoved(true, s, FInt(UInt), key, VStr([]), q, q + x, b - x);
  }

  /** The first key of a string-keyed table behind values of other types: found, and charged
      for them, if the announced length covers what its check asks for. */
  lemma {:induction false} NameBehind(s: seq<byte>, before: seq<Wire>, bytes: seq<byte>, q: nat, b: nat)
    requires bytes != [] && Skippable(before, 's' as int)
    requires var text := ElemsText(before) + Text(WStr(false, bytes)); At(s, q, text) && |text| <= b < TWO32
    ensures var x, key := |ElemsText(before)|, WStr(false, bytes);
            ParseEntryKey(s, false, [], q, b) ==
            if Needed(key, x) <= b then Some((StrKey(CStr(bytes)), q + x + |Text(key)|, x)) else None
  {
    hide At, ParseLeaf, Resync, Text, ElemsText, Skippable, CStr, Needed;
    var x, key := |ElemsText(before)|, WStr(false, bytes);
    AtSplit(s, q, ElemsText(before), Text(key));
    NameStored(bytes);
    ParseLeafText(s, FStr, key, VStr([]), q + x, b - x);
    ResyncText(s, before, 115, q, b);
    StringMoved(true, s, FStr, key, VStr([]), q, q + x, b - x);
  }

  lemma {:induction false} NameStored(bytes: seq<byte>)
    requires bytes != []
    ensures Decode(true, FStr, WStr(false, bytes), VStr([])) == Good(VStr(bytes), 0)
    ensures |Text(WStr(false, bytes))| >= 2
  {
    hide StrText;
  }

  lemma {:induction false} KeyStored(i: nat)
    requires i < TWO32
    ensures Decode(true, FInt(UInt), WNum(UInt, i), VStr([])) == Good(VInt(i), 0)
    ensures |Text(WNum(UInt, i))| >= 2
  {
    hide Decimal;
  }

  /* ---------- the skipper ---------- */

  /** A scalar ends at the first semicolon among the announced bytes, whatever stands before
      it; without one nothing is skipped. */
  lemma {:induction false} ScalarSkipped(s: seq<byte>, p: nat, b: nat, j: nat)
    requires ScalarTag(Peek(s, p))
    ensures j >= p ==> (Skip(s, p, b) == j + 1 - p <==>
            b >= 2 && j < |s| && j < p + b && s[j] == ';' as int && forall k :: p <= k < j ==> s[k] != ';' as int)
  {
    MemChrExact(s, p, SEMI, b, j);
    hide MemChr;
  }

  /** A string is skipped by the length it announces: one byte after the number, the string,
      a semicolon. */
  lemma {:induction false} StringSkipped(s: seq<byte>, p: nat, b: nat, blanks: nat, sign: seq<byte>, digits: nat)
    requires (Peek(s, p) == 's' as int || Peek(s, p) == 'S' as int) && b < 4294967296
    requires Number(s, p + 2, blanks, sign, digits)
    requires var d := p + 2 + blanks + |sign|;
             && (d + digits < |s| ==> !('0' as int <= s[d + digits] <= '9' as int))
             && Numeral(s[d..d + digits]) < 18446744073709551616
             && d + digits - p + Announced(sign == Ascii("-"), Numeral(s[d..d + digits])) + 1 < 4294967296
    ensures var d := p + 2 + blanks + |sign|;
            var n := Announced(sign == Ascii("-"), Numeral(s[d..d + digits]));
            var l := d + digits - p + n + 1;
            Skip(s, p, b) == if b >= 2 && n < b && b != l && Peek(s, p + l) == ';' as int then l + 1 else 0
  {
    hide ScanSigned, StrToUl, MemChr, Numeral, Ascii, Announced, SkipItems, Skip;
    var d := p + 2 + blanks + |sign|;
    NumberRead(s, p + 2, blanks, sign, digits);
    LengthRead(s, p + 2, d + digits, sign == Ascii("-"), Numeral(s[d..d + digits]));
    StringStep(s, p, b, Announced(sign == Ascii("-"), Numeral(s[d..d + digits])), d + digits);
  }

  lemma {:induction false} StringStep(s: seq<byte>, p: nat, b: nat, n: nat, e: nat)
    requires (Peek(s, p) == 's' as int || Peek(s, p) == 'S' as int) && b < 4294967296 && p <= e
    requires StrToUl(s, p + 2).1 == e && StrToUl(s, p + 2).0 % 4294967296 == n && e - p + n + 1 < 4294967296
    ensures var l := e - p + n + 1;
            Skip(s, p, b) == if b >= 2 && n < b && b != l && Peek(s, p + l) == ';' as int then l + 1 else 0
  {
    hide StrToUl, MemChr, SkipItems;
  }

  /** The brackets of a composite. */
  predicate Brackets(tag: byte, open: byte, close: byte) {
    || ((tag == 'a' as int || tag == 'A' as int) && open == '[' as int && close == ']' as int)
    || (tag == 'o' as int && open == '{' as int && close == '}' as int)
    || (tag == 'h' as int && open == '(' as int && close == ')' as int)
  }

  /** A composite is skipped from its first opening bracket on, whatever stands before it,
      over items of any number and kind to the closing bracket. */
  lemma {:induction false} CompositeSkipped(s: seq<byte>, tag: byte, junk: seq<byte>, open: byte, ws: seq<Wire>, close: byte, p: nat, b: nat)
    requires Brackets(tag, open, close) && open !in junk
    requires At(s, p, [tag] + junk + [open] + (ElemsText(ws) + [close]))
    requires |junk| + |ElemsText(ws)| + 3 <= b < TWO32
    ensures Skip(s, p, b) == if NoSemiElems(ws) then |junk| + |ElemsText(ws)| + 3 else 0
  {
    hide At, SkipItems, ElemsText, MemChr, NoSemiElems, Sub32, SkipString;
    var h, e := [tag] + junk + [open], p + 1 + |junk|;
    AtSplit(s, p, h, ElemsText(ws) + [close]);
    AtPeek(s, p, h, 0);
    AtPeek(s, p, h, |h| - 1);
    forall k | p <= k < e ensures s[k] != open { AtPeek(s, p, h, k - p); }
    MemChrExact(s, p, open, b, e);
    SkipElems(s, ws, e + 1, b - (e + 1 - p), close);
  }

  /** A composite whose closing bracket is not among the announced bytes is not skipped. */
  lemma {:induction false} CompositeCut(s: seq<byte>, tag: byte, junk: seq<byte>, open: byte, ws: seq<Wire>, close: byte, p: nat, b: nat)
    requires Brackets(tag, open, close) && open !in junk
    requires At(s, p, [tag] + junk + [open] + (ElemsText(ws) + [close]))
    requires b == |junk| + |ElemsText(ws)| + 2 < TWO32
    ensures Skip(s, p, b) == 0
  {
    hide At, SkipItems, ElemsText, MemChr, NoSemiElems, Sub32, SkipString;
    var h, e := [tag] + junk + [open], p + 1 + |junk|;
    AtSplit(s, p, h, ElemsText(ws) + [close]);
    AtSplit(s, e + 1, ElemsText(ws), [close]);
    AtPeek(s, p, h, 0);
    AtPeek(s, p, h, |h| - 1);
    forall k | p <= k < e ensures s[k] != open { AtPeek(s, p, h, k - p); }
    MemChrExact(s, p, open, b, e);
    ElemsCut(s, ws, e + 1, close);
  }

  lemma {:induction false} ElemsCut(s: seq<byte>, ws: seq<Wire>, q: nat, close: byte)
    requires close in {RBRACKET, RBRACE, RPAREN} && At(s, q, ElemsText(ws)) && |ElemsText(ws)| < TWO32
    ensures SkipItems(s, q, |ElemsText(ws)|, close) == None
    decreases |ws|
  {
    hide SkipItems, Text, At, NoSemiChar;
    if ws == [] {
      NoItems(s, q, close);
    } else if |ws| == 1 {
      var w := ws[0];
      assert ws[1..] == [] && ElemsText(ws) == Text(w) + [];
      AtSplit(s, q, Text(w), []);
      LastCut(s, w, q, close);
    } else {
      var w, n := ws[0], |ElemsText(ws)|;
      AtSplit(s, q, Text(w), ElemsText(ws[1..]));
      TextTag(ws[1]);
      SkipItem(s, w, q, n, close);
      if NoSemiChar(w) { ElemsCut(s, ws[1..], q + |Text(w)|, close); }
    }
  }

  lemma {:induction false} NoItems(s: seq<byte>, q: nat, close: byte)
    requires close != NUL
    ensures SkipItems(s, q, 0, close) == None
  {
  }

  lemma {:induction false} LastCut(s: seq<byte>, w: Wire, q: nat, close: byte)
    requires close in {RBRACKET, RBRACE, RPAREN} && At(s, q, Text(w)) && |Text(w)| < TWO32
    ensures SkipItems(s, q, |Text(w)|, close) == None
  {
    hide Text, At, NoSemiChar, Skip;
    TextTag(w);
    AtPeek(s, q, Text(w), 0);
    SkipText(s, w, q, |Text(w)|);
    if NoSemiChar(w) {
      NoItems(s, q + |Text(w)|, close);
    } else if w.WChar? {
      CharCut(s, w, q, close);
    }
  }

  lemma {:induction false} CharCut(s: seq<byte>, w: Wire, q: nat, close: byte)
    requires close in {RBRACKET, RBRACE, RPAREN} && w.WChar? && !NoSemiChar(w) && At(s, q, Text(w))
    ensures |Text(w)| == 4 && SkipItems(s, q + 3, 1, close) == None
  {
    AtPeek(s, q, Text(w), 3);
  }

  /** Without its opening bracket among the announced bytes, or with fewer than two bytes
      announced, nothing is skipped. */
  lemma {:induction false} NothingSkipped(s: seq<byte>, tag: byte, open: byte, close: byte, p: nat, b: nat)
    requires Peek(s, p) == tag
    requires b < 2 || (Brackets(tag, open, close) && forall k :: p <= k < |s| && k < p + b ==> s[k] != open)
    ensures Skip(s, p, b) == 0
  {
    hide SkipItems, SkipString;
    var r := MemChr(s, p, open, b);
    if r.Some? { MemChrExact(s, p, open, b, r.value); }
    hide MemChr;
  }
}
