/** The wire language without a schema: every text the printer can produce, as a tree. */
module Wire {
  import opened Bytes
  import opened Schema

  type NoSemi = s: seq<byte> | SEMI !in s witness []

  datatype FloatKind = Float | Double | LongDouble {
    function Tag(): byte {
      match this
      case Float => 102
      case Double => 100
      case LongDouble => 68
    }
  }

  datatype Wire =
    | WBool(b: bool)
    | WChar(c: byte)
    | WNum(kind: IntKind, z: int)
    | WFloat(fkind: FloatKind, raw: NoSemi)
    | WStr(fixed: bool, bytes: seq<byte>)
    | WArr(fixed: bool, elems: seq<Wire>)
    | WObj(pairs: seq<Pair>)
    | WTab(pairs: seq<Pair>)

  datatype Pair = Pair(key: Wire, val: Wire)

  function Text(w: Wire): (r: seq<byte>)
    ensures |r| >= 2
  {
    match w
    case WBool(b) => [98, COLON, if b then 49 else 48, SEMI]
    case WChar(c) => [99, COLON, c, SEMI]
    case WNum(k, z) => [k.Tag(), COLON] + Decimal(z) + [SEMI]
    case WFloat(k, raw) => [k.Tag(), COLON] + raw + [SEMI]
    case WStr(fixed, bytes) => StrText(fixed, bytes)
    case WArr(fixed, elems) => ArrHead(fixed, |elems|) + (ElemsText(elems) + [RBRACKET])
    case WObj(pairs) => [111, COLON, LBRACE] + (PairsText(pairs) + [RBRACE])
    case WTab(pairs) => [104, COLON, LPAREN] + (PairsText(pairs) + [RPAREN])
  }

  function StrText(fixed: bool, bytes: seq<byte>): seq<byte> {
    StrHead(fixed, |bytes|) + (bytes + [SEMI])
  }

  function StrHead(fixed: bool, n: nat): seq<byte> {
    [if fixed then 83 else 115, COLON] + Digits(n) + [COLON]
  }

  function ArrHead(fixed: bool, n: nat): seq<byte> {
    [if fixed then 65 else 97, COLON] + Digits(n) + [LBRACKET]
  }

  function ElemsText(ws: seq<Wire>): seq<byte> {
    if ws == [] then [] else Text(ws[0]) + ElemsText(ws[1..])
  }

  function PairsText(ps: seq<Pair>): seq<byte> {
    if ps == [] then [] else PairText(ps[0]) + PairsText(ps[1..])
  }

  function PairText(pr: Pair): seq<byte> {
    Text(pr.key) + Text(pr.val)
  }

  /** No char value is a semicolon, at any depth. */
  predicate NoSemiChar(w: Wire) {
    match w
    case WChar(c) => c != SEMI
    case WArr(_, elems) => NoSemiElems(elems)
    case WObj(pairs) => NoSemiPairs(pairs)
    case WTab(pairs) => NoSemiPairs(pairs)
    case _ => true
  }

  predicate NoSemiElems(ws: seq<Wire>) {
    ws == [] || (NoSemiChar(ws[0]) && NoSemiElems(ws[1..]))
  }

  predicate NoSemiPairs(ps: seq<Pair>) {
    ps == [] || (NoSemiPair(ps[0]) && NoSemiPairs(ps[1..]))
  }

  predicate NoSemiPair(pr: Pair) {
    NoSemiChar(pr.key) && NoSemiChar(pr.val)
  }
}
