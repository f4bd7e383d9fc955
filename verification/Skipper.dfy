/** The schema-less skipper, `_serialize_parse_force`. */
module Skipper {
  import opened Wrappers
  import opened Bytes
  import opened Wire

  /** Tags whose value runs to the next semicolon. */
  predicate ScalarTag(b: byte) {
    b in {98, 99, 121, 89, 116, 84, 105, 73, 108, 76, 102, 100, 68}
  }

  /** The bracket a composite opens with, NUL for other tags. */
  function Opener(tag: byte): byte {
    if tag == 97 || tag == 65 then LBRACKET
    else if tag == 111 then LBRACE
    else if tag == 104 then LPAREN
    else NUL
  }

  function Closer(tag: byte): byte {
    if tag == 97 || tag == 65 then RBRACKET else if tag == 111 then RBRACE else RPAREN
  }

  ghost function Rem(s: seq<byte>, p: nat): nat {
    if p < |s| then |s| - p else 0
  }

  /** Bytes the skipper steps over at `p` with `b` bytes announced; 0 is failure. */
  function Skip(s: seq<byte>, p: nat, b: nat): (r: nat)
    ensures r > 0 ==> p + r <= |s|
    decreases Rem(s, p), 0
  {
    var tag := Peek(s, p);
    if b < 2 then 0
    else if ScalarTag(tag) then
      match MemChr(s, p, SEMI, b) case None => 0 case Some(e) => e + 1 - p
    else if tag == 115 || tag == 83 then SkipString(s, p, b)
    else if Opener(tag) != NUL then
      match MemChr(s, p, Opener(tag), b)
      case None => 0
      case Some(e) =>
        match SkipItems(s, e + 1, Sub32(b, e + 1 - p), Closer(tag))
        case None => 0
        case Some(q) => q + 1 - p
    else 0
  }

  function SkipString(s: seq<byte>, p: nat, b: nat): (r: nat)
    ensures r > 0 ==> p + r <= |s|
  {
    var (n, e) := StrToUl(s, p + 2);
    var len := n % 0x1_0000_0000;
    if (len + 1) % 0x1_0000_0000 > b then 0
    else
      var step := (e - p + len + 1) % 0x1_0000_0000;
      if Sub32(b, step) < 1 || Peek(s, p + step) != SEMI then 0 else step + 1
  }

  /** Skips items up to the closing bracket; the position of that bracket. */
  function SkipItems(s: seq<byte>, q: nat, b: nat, close: byte): (r: Option<nat>)
    requires close != NUL
    ensures r.Some? ==> q <= r.value < |s| && s[r.value] == close
    decreases Rem(s, q), 1
  {
    if b == 0 then None
    else if Peek(s, q) == close then Some(q)
    else
      var n := Skip(s, q, b);
      if n == 0 then None else SkipItems(s, q + n, Sub32(b, n), close)
  }

  /** What the skipper answers on the text of `w`: the whole text, unless a char value
      is a semicolon. Then a bare char is cut short and anything around it fails. */
  function SkipResult(w: Wire): nat {
    if NoSemiChar(w) then |Text(w)| else if w.WChar? then 3 else 0
  }

  lemma {:induction false} TextTag(w: Wire)
    ensures Text(w)[0] !in {RBRACKET, RBRACE, RPAREN, SEMI, NUL} && Text(w)[1] == COLON
  {
  }

  /** The skipper agrees with the wire language on every tree, in any surroundings, for
      any announced length that covers the text. */
  lemma {:induction false} SkipText(s: seq<byte>, w: Wire, p: nat, b: nat)
    requires At(s, p, Text(w)) && |Text(w)| <= b < TWO32
    ensures Skip(s, p, b) == SkipResult(w)
    decreases w, 1
  {
    hide SkipItems, SkipString, At, MemChr, ArrHead, StrText, Peek, ElemsText, PairsText, NoSemiElems, NoSemiPairs, Rem, Sub32;
    match w
    case WBool(_) | WChar(_) | WNum(_, _) | WFloat(_, _) => SkipScalar(s, w, p, b);
    case WStr(fixed, bytes) => SkipStrText(s, fixed, bytes, p, b);
    case WArr(fixed, elems) =>
      ArrHeadFind(s, fixed, |elems|, ElemsText(elems) + [RBRACKET], p, b);
      SkipElems(s, elems, p + |ArrHead(fixed, |elems|)|, b - |ArrHead(fixed, |elems|)|, RBRACKET);
    case WObj(pairs) =>
      BraceFind(s, 111, LBRACE, PairsText(pairs) + [RBRACE], p, b);
      SkipPairs(s, pairs, p + 3, b - 3, RBRACE);
    case WTab(pairs) =>
      BraceFind(s, 104, LPAREN, PairsText(pairs) + [RPAREN], p, b);
      SkipPairs(s, pairs, p + 3, b - 3, RPAREN);
  }

  lemma {:induction false} SkipScalar(s: seq<byte>, w: Wire, p: nat, b: nat)
    requires w.WBool? || w.WChar? || w.WNum? || w.WFloat?
    requires At(s, p, Text(w)) && |Text(w)| <= b < TWO32
    ensures Skip(s, p, b) == SkipResult(w)
  {
    hide SkipItems, SkipString, At;
    var t := Text(w);
    AtPeek(s, p, t, 0);
    var k := if w == WChar(SEMI) then 2 else |t| - 1;
    assert t[k] == SEMI && forall i :: 0 <= i < k ==> t[i] != SEMI;
    AtPeek(s, p, t, k);
    forall j | p <= j < p + k ensures s[j] != SEMI { AtPeek(s, p, t, j - p); }
    MemChrPast(s, p, SEMI, b, k);
  }

  /** An array's head scans to its element count and its bracket is the first one. */
  lemma {:induction false} ArrHeadFind(s: seq<byte>, fixed: bool, n: nat, rest: seq<byte>, p: nat, b: nat)
    requires At(s, p, ArrHead(fixed, n) + rest) && |ArrHead(fixed, n)| <= b
    ensures At(s, p + |ArrHead(fixed, n)|, rest)
    ensures Peek(s, p) == (if fixed then 65 else 97) && Peek(s, p + 1) == COLON
    ensures Peek(s, p + |ArrHead(fixed, n)| - 1) == LBRACKET
    ensures n < TWO64 ==> StrToUl(s, p + 2) == (n, p + |ArrHead(fixed, n)| - 1)
    ensures MemChr(s, p, LBRACKET, b) == Some(p + |ArrHead(fixed, n)| - 1)
  {
    hide At, ArrHead, MemChr, StrToUl;
    var h := ArrHead(fixed, n);
    AtSplit(s, p, h, rest);
    ArrHeadShape(fixed, n);
    AtPeek(s, p, h, 0);
    AtPeek(s, p, h, 1);
    AtPeek(s, p, h, |h| - 1);
    if n < TWO64 { ArrHeadScan(s, fixed, n, p); }
    assert p + |h| - 1 < |s|;
    forall j | p <= j < p + |h| - 1 ensures s[j] != LBRACKET { AtPeek(s, p, h, j - p); }
    MemChrPast(s, p, LBRACKET, b, |h| - 1);
  }

  lemma {:induction false} ArrHeadShape(fixed: bool, n: nat)
    ensures var h := ArrHead(fixed, n);
            && |h| >= 4 && h[0] == (if fixed then 65 else 97) && h[1] == COLON && h[|h| - 1] == LBRACKET
            && forall i :: 0 <= i < |h| - 1 ==> h[i] != LBRACKET
  {
    hide Digits;
  }

  lemma {:induction false} ArrHeadScan(s: seq<byte>, fixed: bool, n: nat, p: nat)
    requires At(s, p, ArrHead(fixed, n)) && n < TWO64
    ensures StrToUl(s, p + 2) == (n, p + |ArrHead(fixed, n)| - 1)
  {
    hide At, Digits, ScanSigned;
    var h := ArrHead(fixed, n);
    assert h == h[..2] + (Digits(n) + [LBRACKET]);
    AtSplit(s, p, h[..2], Digits(n) + [LBRACKET]);
    AtSplit(s, p + 2, Digits(n), [LBRACKET]);
    AtPeek(s, p + 2 + |Digits(n)|, [LBRACKET], 0);
    assert Decimal(n) == Digits(n);
    ScanDecimal(s, p + 2, n);
  }

  lemma {:induction false} BraceFind(s: seq<byte>, tag: byte, open: byte, rest: seq<byte>, p: nat, b: nat)
    requires At(s, p, [tag, COLON, open] + rest) && 3 <= b && open !in {tag, COLON}
    ensures At(s, p + 3, rest) && Peek(s, p) == tag && Peek(s, p + 1) == COLON && Peek(s, p + 2) == open
    ensures MemChr(s, p, open, b) == Some(p + 2)
  {
    var h := [tag, COLON, open];
    AtSplit(s, p, h, rest);
    AtPeek(s, p, h, 0);
    AtPeek(s, p, h, 1);
    AtPeek(s, p, h, 2);
    MemChrPast(s, p, open, b, 2);
  }

  /** The printed length of a string is read back and its bytes, whatever they are,
      are stepped over. */
  lemma {:induction false} SkipStrText(s: seq<byte>, fixed: bool, bytes: seq<byte>, p: nat, b: nat)
    requires At(s, p, StrText(fixed, bytes)) && |StrText(fixed, bytes)| <= b < TWO32
    ensures Skip(s, p, b) == |StrText(fixed, bytes)|
  {
    hide At, StrHead, StrToUl, MemChr, SkipItems;
    StrHeadScan(s, fixed, |bytes|, bytes + [SEMI], p);
    AtPeek(s, p, StrText(fixed, bytes), |StrText(fixed, bytes)| - 1);
  }

  /** A string's head scans to its length, stopping at the colon. */
  lemma {:induction false} StrHeadScan(s: seq<byte>, fixed: bool, n: nat, rest: seq<byte>, p: nat)
    requires At(s, p, StrHead(fixed, n) + rest)
    ensures At(s, p + |StrHead(fixed, n)|, rest)
    ensures Peek(s, p) == (if fixed then 83 else 115) && Peek(s, p + 1) == COLON
    ensures Peek(s, p + |StrHead(fixed, n)| - 1) == COLON
    ensures n < TWO64 ==> StrToUl(s, p + 2) == (n, p + |StrHead(fixed, n)| - 1)
  {
    var h := [if fixed then 83 else 115, COLON];
    AtSplit(s, p, StrHead(fixed, n), rest);
    AtPeek(s, p, StrHead(fixed, n), 0);
    AtPeek(s, p, StrHead(fixed, n), 1);
    AtPeek(s, p, StrHead(fixed, n), |StrHead(fixed, n)| - 1);
    AtSplit(s, p, h + Digits(n), [COLON]);
    AtSplit(s, p, h, Digits(n));
    assert Decimal(n) == Digits(n);
    ScanDecimal(s, p + 2, n);
  }

  lemma {:induction false} SkipElems(s: seq<byte>, ws: seq<Wire>, q: nat, b: nat, close: byte)
    requires close in {RBRACKET, RBRACE, RPAREN}
    requires At(s, q, ElemsText(ws) + [close]) && |ElemsText(ws)| + 1 <= b < TWO32
    ensures SkipItems(s, q, b, close)
         == if NoSemiElems(ws) then Some(q + |ElemsText(ws)|) else None
    decreases ws, 0
  {
    hide SkipItems, Text, At, NoSemiChar;
    if ws == [] {
      assert ElemsText(ws) + [close] == [close];
      AtPeek(s, q, [close], 0);
      SkipEnd(s, q, b, close);
    } else {
      var t := Text(ws[0]);
      assert ElemsText(ws) + [close] == t + (ElemsText(ws[1..]) + [close]);
      AtSplit(s, q, t, ElemsText(ws[1..]) + [close]);
      SkipItem(s, ws[0], q, b, close);
      if NoSemiChar(ws[0]) {
        SkipElems(s, ws[1..], q + |t|, b - |t|, close);
      }
    }
  }

  lemma {:induction false} SkipEnd(s: seq<byte>, q: nat, b: nat, close: byte)
    requires close != NUL && b > 0 && Peek(s, q) == close
    ensures SkipItems(s, q, b, close) == Some(q)
  {
  }

  /** After a char that is a semicolon the next byte is again a semicolon, where the
      skipper accepts neither an item nor a bracket. */
  lemma {:induction false} SemiStops(s: seq<byte>, w: Wire, q: nat, b: nat, close: byte)
    requires close in {RBRACKET, RBRACE, RPAREN}
    requires At(s, q, Text(w)) && |Text(w)| < b < TWO32 && !NoSemiChar(w)
    requires Skip(s, q, b) == SkipResult(w)
    ensures SkipItems(s, q, b, close) == None
  {
    TextTag(w);
    AtPeek(s, q, Text(w), 0);
    if w.WChar? {
      AtPeek(s, q, Text(w), 3);
      assert Skip(s, q + 3, Sub32(b, 3)) == 0;
    }
  }

  lemma {:induction false} SkipPairs(s: seq<byte>, ps: seq<Pair>, q: nat, b: nat, close: byte)
    requires close in {RBRACKET, RBRACE, RPAREN}
    requires At(s, q, PairsText(ps) + [close]) && |PairsText(ps)| + 1 <= b < TWO32
    ensures SkipItems(s, q, b, close)
         == if NoSemiPairs(ps)
            then Some(q + |PairsText(ps)|) else None
    decreases ps, 2
  {
    hide SkipItems, Text, At, NoSemiPair;
    if ps == [] {
      assert PairsText(ps) + [close] == [close];
      AtPeek(s, q, [close], 0);
      SkipEnd(s, q, b, close);
    } else {
      var pr := ps[0];
      var rest := PairsText(ps[1..]) + [close];
      assert PairsText(ps) + [close] == Text(pr.key) + (Text(pr.val) + rest);
      AtSplit(s, q, Text(pr.key), Text(pr.val) + rest);
      AtSplit(s, q + |Text(pr.key)|, Text(pr.val), rest);
      SkipPair(s, pr, q, b, close);
      if NoSemiPair(pr) {
        SkipPairs(s, ps[1..], q + |PairText(pr)|, b - |PairText(pr)|, close);
      }
    }
  }

  lemma {:induction false} SkipPair(s: seq<byte>, pr: Pair, q: nat, b: nat, close: byte)
    requires close in {RBRACKET, RBRACE, RPAREN}
    requires At(s, q, Text(pr.key)) && At(s, q + |Text(pr.key)|, Text(pr.val)) && |PairText(pr)| < b < TWO32
    ensures SkipItems(s, q, b, close)
         == if NoSemiPair(pr)
            then SkipItems(s, q + |PairText(pr)|, b - |PairText(pr)|, close) else None
    decreases pr, 1
  {
    hide Skip, SkipItems, Text, NoSemiChar, At;
    SkipItem(s, pr.key, q, b, close);
    if NoSemiChar(pr.key) {
      SkipItem(s, pr.val, q + |Text(pr.key)|, b - |Text(pr.key)|, close);
    }
  }

  /** One item is stepped over and the loop goes on behind it. */
  lemma {:induction false} SkipItem(s: seq<byte>, w: Wire, q: nat, b: nat, close: byte)
    requires close in {RBRACKET, RBRACE, RPAREN}
    requires At(s, q, Text(w)) && |Text(w)| < b < TWO32
    ensures SkipItems(s, q, b, close)
         == if NoSemiChar(w) then SkipItems(s, q + |Text(w)|, b - |Text(w)|, close) else None
    decreases w, 2
  {
    hide Skip, Text, NoSemiChar, At;
    TextTag(w);
    AtPeek(s, q, Text(w), 0);
    SkipText(s, w, q, b);
    if !NoSemiChar(w) {
      SemiStops(s, w, q, b, close);
    }
  }
}
