/** How far a parse reaches, whatever the bytes. */
module Bounds {
  import opened Wrappers
  import opened Bytes
  import opened Schema
  import opened Skipper
  import opened Parser

  /** The head of an empty value stands in last place. */
  predicate HeadIsLast(s: seq<byte>, f: Format, q: nat) {
    var (n, e) := StrToUl(s, q);
    && |s| > 0 && n % 0x1_0000_0000 == 0
    && (((f.FStr? || f.FFixStr?) && StrChr(s, e, COLON) == Some(|s| - 1))
        || ((f.FArr? || f.FFixArr?) && StrChr(s, e, LBRACKET) == Some(|s| - 1)))
  }

  /** The buffer ends with the head of an empty string or array: its colon or bracket is
      the last byte, so the terminator the parser steps over without looking is missing. */
  predicate CutShort(s: seq<byte>, f: Format, p: nat, b: nat) {
    HeadIsLast(s, f, Resync(s, f.Tag(), p, b).p + 2)
  }

  /** An accepted value ends inside the buffer, or one byte past it exactly when it is an
      empty string or array cut short at its head. */
  lemma {:induction false} ParseBound(zeroed: bool, s: seq<byte>, f: Format, t: Value, p: nat, b: nat)
    requires ParseVal(zeroed, s, f, t, p, b).Done?
    ensures var n := ParseVal(zeroed, s, f, t, p, b).n;
            p + n <= |s| + 1 && (p + n == |s| + 1 <==> CutShort(s, f, p, b))
    ensures CutShort(s, f, p, b) ==> ParseVal(zeroed, s, f, t, p, b).v == t
  {
    hide Resync, ParseLeaf, ParseBody;
    var y := Resync(s, f.Tag(), p, b);
    if f.IsLeaf() {
      LeafBound(s, f, t, p, y.p + 2, y.b);
    } else {
      BodyBound(zeroed, s, f, t, p, y.p + 2, y.b);
    }
  }

  lemma {:induction false} LeafBound(s: seq<byte>, f: Format, t: Value, p: nat, q: nat, b: nat)
    requires f.IsLeaf() && p < q && ParseLeaf(s, f, t, p, q, b).Done?
    ensures var r := ParseLeaf(s, f, t, p, q, b);
            && p + r.n <= |s| + 1 && (p + r.n == |s| + 1 <==> HeadIsLast(s, f, q))
            && (HeadIsLast(s, f, q) ==> r.v == t)
  {
    hide StrToUl, ScanSigned, StrChr, StoreString;
  }

  lemma {:induction false} BodyBound(zeroed: bool, s: seq<byte>, f: Format, t: Value, p: nat, q: nat, b: nat)
    requires !f.IsLeaf() && p < q && ParseBody(zeroed, s, f, t, p, q, b).Done?
    ensures var r := ParseBody(zeroed, s, f, t, p, q, b);
            && p + r.n <= |s| + 1 && (p + r.n == |s| + 1 <==> HeadIsLast(s, f, q))
            && (HeadIsLast(s, f, q) ==> r.v == t)
  {
    hide StrToUl, StrChr, ParseObject, ParseEntries, ParseElems, Members, Slots, Blank, Zero;
  }

  /** Where the field loop meets its last field, with the bytes then left. */
  function LastMember(zeroed: bool, s: seq<byte>, f: Format, ts: seq<Value>, q: nat, b: nat): Option<(nat, nat)>
    requires f.FObj? && |ts| == |f.fields|
    decreases Rem(s, q)
  {
    if b > 2 && Peek(s, q) == 115 && Peek(s, q + 1) == COLON then
      var m := ParseMember(zeroed, s, f, ts, q, b);
      if m.Stop? then None
      else
        var last := LastMember(zeroed, s, f, m.parts, m.q, Sub32(b, m.q - q));
        if last.Some? then last else Some((q, b))
    else None
  }

  /** A field of the schema whose value is cut short. */
  predicate MemberCut(s: seq<byte>, f: Format, q: nat, b: nat)
    requires f.FObj?
  {
    match ParseKey(s, q, b)
    case None => false
    case Some((key, d)) =>
      var i := Lookup(f.fields, key);
      i != -1 && CutShort(s, f.fields[i].fmt, d, Sub32(b, d - q))
  }

  /** The bare fields of an object end inside the buffer, or one byte past it exactly when
      the last field is cut short (or they began there). */
  lemma {:induction false} ObjectBound(zeroed: bool, s: seq<byte>, f: Format, ts: seq<Value>, q: nat, b: nat)
    requires f.FObj? && |ts| == |f.fields| && q <= |s| + 1
    requires ParseObject(zeroed, s, f, ts, q, b).Reached?
    ensures var r := ParseObject(zeroed, s, f, ts, q, b).q;
            var last := LastMember(zeroed, s, f, ts, q, b);
            r <= |s| + 1 && (r == |s| + 1 <==> q == |s| + 1 || (last.Some? && MemberCut(s, f, last.value.0, last.value.1)))
    decreases Rem(s, q)
  {
    hide ParseMember, MemberCut;
    if b > 2 && Peek(s, q) == 115 && Peek(s, q + 1) == COLON {
      var m := ParseMember(zeroed, s, f, ts, q, b);
      MemberBound(zeroed, s, f, ts, q, b);
      ObjectBound(zeroed, s, f, m.parts, m.q, Sub32(b, m.q - q));
    }
  }

  lemma {:induction false} MemberBound(zeroed: bool, s: seq<byte>, f: Format, ts: seq<Value>, q: nat, b: nat)
    requires f.FObj? && |ts| == |f.fields| && ParseMember(zeroed, s, f, ts, q, b).Reached?
    ensures var r := ParseMember(zeroed, s, f, ts, q, b).q;
            r <= |s| + 1 && (r == |s| + 1 <==> MemberCut(s, f, q, b))
  {
    hide ParseVal, ParseKey, Skip, Lookup, CutShort;
    var (key, d) := ParseKey(s, q, b).value;
    var i := Lookup(f.fields, key);
    if i != -1 {
      ParseBound(zeroed, s, f.fields[i].fmt, ts[i], d, Sub32(b, d - q));
    }
  }
}
