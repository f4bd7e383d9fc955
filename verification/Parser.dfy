/** The schema-driven parser: `_serialize_parse` and `_serialize_parse_object` as
    functions of the buffer, the position, the announced length and the old contents
    of the target. */
module Parser {
  import opened Wrappers
  import opened Bytes
  import opened Schema
  import opened Skipper

  /** `n` bytes consumed, the new contents, and what was added to `forcelen`. */
  datatype Parse = Fail | Done(n: nat, v: Value, skipped: nat)

  /** A loop over parts: the position reached, the new contents, the skipped bytes. */
  datatype Loop<T> = Stop | Reached(q: nat, parts: T, skipped: nat)

  /** The resynchronisation loop: skips values of other types. */
  datatype Sync = Sync(p: nat, b: nat, skipped: nat)

  function Resync(s: seq<byte>, tag: byte, p: nat, b: nat): (r: Sync)
    requires tag != NUL
    ensures p <= r.p
    decreases Rem(s, p)
  {
    var n := if b == 0 || Peek(s, p) == tag then 0 else Skip(s, p, b);
    if n == 0 then Sync(p, b, 0)
    else
      var r := Resync(s, tag, p + n, Sub32(b, n));
      r.(skipped := n + r.skipped)
  }

  /** `_serialize_parse` over the target contents `t`. */
  function ParseVal(zeroed: bool, s: seq<byte>, f: Format, t: Value, p: nat, b: nat): (r: Parse)
    ensures r.Done? ==> r.n > 0
    decreases f, 3
  {
    var y := Resync(s, f.Tag(), p, b);
    if y.b == 0 || Peek(s, y.p) != f.Tag() || Peek(s, y.p + 1) != COLON then Fail
    else
      var r := if f.IsLeaf() then ParseLeaf(s, f, t, p, y.p + 2, y.b)
               else ParseBody(zeroed, s, f, t, p, y.p + 2, y.b);
      if r.Fail? then Fail else r.(skipped := y.skipped + r.skipped)
  }

  /** Scalars and strings, from behind the colon; `p` is where the value began. */
  function ParseLeaf(s: seq<byte>, f: Format, t: Value, p: nat, q: nat, b: nat): (r: Parse)
    requires f.IsLeaf() && p < q
    ensures r.Done? ==> r.n > 0 && r.skipped == 0
  {
    if f.FBool? then ParseSemi(s, p, q + 1, VBool(Peek(s, q) != ZERO))
    else if f.FChar? then ParseSemi(s, p, q + 1, VChar(Peek(s, q)))
    else if f.FInt? then
      var (neg, m, e) := ScanSigned(s, q);
      ParseSemi(s, p, e, VInt(f.kind.Store(neg, m)))
    else ParseString(s, f, t, p, q, b)
  }

  /** Whatever stands before the next semicolon is passed over. */
  function ParseSemi(s: seq<byte>, p: nat, pos: nat, v: Value): (r: Parse)
    requires p < pos
    ensures r.Done? ==> r.n > 0 && r.skipped == 0
  {
    match StrChr(s, pos, SEMI)
    case None => Fail
    case Some(e) => Done(e + 1 - p, v, 0)
  }

  function ParseString(s: seq<byte>, f: Format, t: Value, p: nat, q: nat, b: nat): (r: Parse)
    requires f.FStr? || f.FFixStr?
    requires p < q
    ensures r.Done? ==> r.n > 0 && r.skipped == 0
  {
    var (n64, e) := StrToUl(s, q);
    var n := n64 % 0x1_0000_0000;
    match StrChr(s, e, COLON)
    case None => Fail
    case Some(c) =>
      var d := c + 1;
      if n == 0 then Done(d + 1 - p, t, 0)
      else if b - (d - p) < n || Peek(s, d + n) != SEMI then Fail
      else if f.FStr? && t != VStr([]) then Fail
      else Done(d + n + 1 - p, StoreString(f, s[d..d + n]), 0)
  }

  /** A fixed string is clipped to its capacity. */
  function StoreString(f: Format, bytes: seq<byte>): Value
    requires f.FStr? || f.FFixStr?
  {
    if f.FStr? then VStr(bytes)
    else VFixStr(if |bytes| > f.cap then bytes[..f.cap] else bytes)
  }

  /** Objects, arrays and tables, from behind the colon. */
  function ParseBody(zeroed: bool, s: seq<byte>, f: Format, t: Value, p: nat, q: nat, b: nat): (r: Parse)
    requires !f.IsLeaf() && p < q
    ensures r.Done? ==> r.n > 0
    decreases f, 2
  {
    if f.FObj? then
      match StrChr(s, q, LBRACE)
      case None => Fail
      case Some(c) =>
        var r := ParseObject(zeroed, s, f, Members(t, |f.fields|), c + 1, b);
        if r.Stop? || r.q == c + 1 || Peek(s, r.q) != RBRACE then Fail
        else Done(r.q + 1 - p, VObj(r.parts), r.skipped)
    else if f.FTable? then
      match StrChr(s, q, LPAREN)
      case None => Fail
      case Some(c) =>
        if t != VNull then Fail
        else
          var r := ParseEntries(zeroed, s, f, [], c + 1, b);
          if r.Stop? || Peek(s, r.q) != RPAREN then Fail
          else Done(r.q + 1 - p, VTable(r.parts), r.skipped)
    else ParseArray(zeroed, s, f, t, p, q, b)
  }

  function ParseArray(zeroed: bool, s: seq<byte>, f: Format, t: Value, p: nat, q: nat, b: nat): (r: Parse)
    requires f.FArr? || f.FFixArr?
    requires p < q
    ensures r.Done? ==> r.n > 0
    decreases f, 1
  {
    var (n64, e) := StrToUl(s, q);
    var n := n64 % 0x1_0000_0000;
    match StrChr(s, e, LBRACKET)
    case None => Fail
    case Some(c) =>
      var d := c + 1;
      if n == 0 then Done(d + 1 - p, t, 0)
      else if b - (d - p) < n then Fail
      else if f.FArr? && t != VArr([]) then Fail
      else
        var slots := if f.FArr? then Blank(n, Zero(f.elem)) else Slots(t, f.cap);
        var r := ParseElems(zeroed, s, f.elem, slots, 0, if n < |slots| then n else |slots|, d, b);
        if r.Stop? || Peek(s, r.q) != RBRACKET then Fail
        else Done(r.q + 1 - p,
                  if f.FArr? then VArr(r.parts) else VFixArr(if n < f.cap then n else f.cap, r.parts),
                  r.skipped)
  }

  /** Elements `i..n` into their slots. */
  function ParseElems(zeroed: bool, s: seq<byte>, e: Format, slots: seq<Value>, i: nat, n: nat, q: nat, b: nat)
      : (r: Loop<seq<Value>>)
    requires i <= n <= |slots|
    ensures r.Reached? ==> |r.parts| == |slots| && q <= r.q
    decreases e, 4, n - i
  {
    if i == n then Reached(q, slots, 0)
    else
      var r := ParseVal(zeroed, s, e, slots[i], q, b);
      if r.Fail? then Stop
      else More(r.skipped, ParseElems(zeroed, s, e, slots[i := r.v], i + 1, n, q + r.n, Sub32(b, r.n)))
  }

  function More<T>(skipped: nat, r: Loop<T>): (m: Loop<T>)
    ensures m.Reached? <==> r.Reached?
    ensures m.Reached? ==> m == r.(skipped := skipped + r.skipped)
  {
    if r.Stop? then Stop else r.(skipped := skipped + r.skipped)
  }

  /** `_serialize_parse_object`: fields in any order, unknown ones skipped, until the
      text no longer looks like a key. */
  function ParseObject(zeroed: bool, s: seq<byte>, f: Format, ts: seq<Value>, q: nat, b: nat)
      : (r: Loop<seq<Value>>)
    requires f.FObj? && |ts| == |f.fields|
    ensures r.Reached? ==> |r.parts| == |ts| && q <= r.q
    decreases f, 1, Rem(s, q)
  {
    if b > 2 && Peek(s, q) == 115 && Peek(s, q + 1) == COLON then
      var m := ParseMember(zeroed, s, f, ts, q, b);
      if m.Stop? then Stop
      else More(m.skipped, ParseObject(zeroed, s, f, m.parts, m.q, Sub32(b, m.q - q)))
    else Reached(q, ts, 0)
  }

  /** One key and its value. */
  function ParseMember(zeroed: bool, s: seq<byte>, f: Format, ts: seq<Value>, q: nat, b: nat)
      : (r: Loop<seq<Value>>)
    requires f.FObj? && |ts| == |f.fields|
    ensures r.Reached? ==> |r.parts| == |ts| && q < r.q
    decreases f, 0
  {
    match ParseKey(s, q, b)
    case None => Stop
    case Some((key, d)) =>
      var i := Lookup(f.fields, key);
      var b1 := Sub32(b, d - q);
      if i == -1 then
        var n := Skip(s, d, b1);
        if n == 0 then Stop else Reached(d + n, ts, d + n - q)
      else
        var r := ParseVal(zeroed, s, f.fields[i].fmt, ts[i], d, b1);
        if r.Fail? then Stop else Reached(d + r.n, ts[i := r.v], r.skipped)
  }

  /** A key of 1 to 100 bytes at `q`, as a C string, and the position behind it. */
  function ParseKey(s: seq<byte>, q: nat, b: nat): (r: Option<(seq<byte>, nat)>)
    ensures r.Some? ==> q + 2 < r.value.1 <= |s|
  {
    var (n64, e) := StrToUl(s, q + 2);
    var n := n64 % 0x1_0000_0000;
    if n == 0 || n >= 101 then None
    else
      var d := e + 1 + n;
      if b - (d - q) <= 0 || Peek(s, d) != SEMI then None
      else Some((CStr(s[e + 1..d]), d + 1))
  }

  /** Table entries up to the closing parenthesis. The key buffer of a string-keyed
      table is not reset between entries: a second non-empty key is a duplicate
      pointer, and an empty key hands the table a null or an already owned pointer;
      both count as failure here. */
  function ParseEntries(zeroed: bool, s: seq<byte>, f: Format, entries: seq<Entry>, q: nat, b: nat)
      : (r: Loop<seq<Entry>>)
    requires f.FTable?
    ensures r.Reached? ==> q <= r.q
    decreases f, 1, Rem(s, q)
  {
    if b > 0 && Peek(s, q) != RPAREN then
      var m := ParseEntry(zeroed, s, f, entries, q, b);
      if m.Stop? then Stop
      else More(m.skipped, ParseEntries(zeroed, s, f, m.parts, m.q, Sub32(b, m.q - q)))
    else Reached(q, entries, 0)
  }

  /** One key and its value, inserted. */
  function ParseEntry(zeroed: bool, s: seq<byte>, f: Format, entries: seq<Entry>, q: nat, b: nat)
      : (r: Loop<seq<Entry>>)
    requires f.FTable?
    ensures r.Reached? ==> q < |s| && q < r.q
    decreases f, 0
  {
    match ParseEntryKey(s, f.isint, entries, q, b)
    case None => Stop
    case Some((key, d, k)) =>
      var r := ParseVal(zeroed, s, f.elem, HashInit(zeroed, f.elem), d, Sub32(b, d - q));
      if r.Fail? then Stop else Reached(d + r.n, Insert(entries, key, r.v), k + r.skipped)
  }

  /** An entry's key, the position behind it and the bytes skipped before it. */
  function ParseEntryKey(s: seq<byte>, isint: bool, entries: seq<Entry>, q: nat, b: nat)
      : (r: Option<(Key, nat, nat)>)
    ensures r.Some? ==> q < |s| && q < r.value.1
  {
    var f := if isint then FInt(UInt) else FStr;
    var y := Resync(s, f.Tag(), q, b);
    if y.b == 0 || Peek(s, y.p) != f.Tag() || Peek(s, y.p + 1) != COLON then None
    else
      var r := ParseLeaf(s, f, VStr([]), q, y.p + 2, y.b);
      if r.Fail? || (!isint && (entries != [] || r.v == VStr([]))) then None
      else Some((ToKey(r.v), q + r.n, y.skipped))
  }

  function ToKey(v: Value): Key {
    if v.VInt? && v.z >= 0 then IntKey(v.z)
    else if v.VStr? then StrKey(CStr(v.bytes))
    else StrKey([])
  }
}
