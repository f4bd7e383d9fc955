/** What ends up in memory: numbers of any size in fields of any type, keys that come more
    than once, fields that do not come at all. */
module Storage {
  import opened Wrappers
  import opened Bytes
  import opened Schema
  import opened Wire
  import opened Parser
  import opened Decoder

  /* ---------- numbers ---------- */

  function Bits(k: IntKind): nat {
    match k
    case Byte | UByte => 256
    case Short | UShort => 65536
    case Int | UInt => 4294967296
    case Long | ULong => 18446744073709551616
  }

  predicate InRange(k: IntKind, z: int) {
    match k
    case Byte | Short | Int | Long => -(Bits(k) / 2) <= z <= Bits(k) / 2 - 1
    case _ => 0 <= z <= Bits(k) - 1
  }

  /** The nearest number a signed 64-bit word holds. */
  function Nearest(z: int): int {
    if z < -9223372036854775808 then -9223372036854775808 else if z > 9223372036854775807 then 9223372036854775807 else z
  }

  function Named(negative: bool, m: nat): int {
    var z: int := m;
    if negative then -z else z
  }

  /** A signed field takes the nearest 64-bit number, an unsigned one the number or all
      ones beyond 64 bits; the field keeps it modulo its own width, in its own range. */
  lemma {:induction false} StoreExact(k: IntKind, negative: bool, m: nat)
    ensures var r, z := k.Store(negative, m), Named(negative, m);
            && InRange(k, r)
            && (k.Byte? || k.Short? || k.Int? || k.Long? ==> (r - Nearest(z)) % Bits(k) == 0)
            && (!(k.Byte? || k.Short? || k.Int? || k.Long?) ==>
                  if m > 18446744073709551615 then r == Bits(k) - 1 else (r - z) % Bits(k) == 0)
  {
    var z := Named(negative, m);
    assert Signed(negative, m) == z;
    if k.IsSigned() {
      assert ClampLong(z) == Nearest(z);
      WrapExact(k, ClampLong(z));
    } else {
      WrapExact(k, ClampULong(negative, m));
      Ones(k);
      if m <= 18446744073709551615 && negative && m > 0 {
        WholeWords(k, k.Store(negative, m), z);
      }
    }
  }

  lemma {:induction false} WrapExact(k: IntKind, z: int)
    ensures InRange(k, k.Wrap(z)) && (k.Wrap(z) - z) % Bits(k) == 0
  {
    var n, q, u := Bits(k), z / Bits(k), z % Bits(k);
    assert k.Span() == n && z == q * n + u;
    Multiple(-q, k);
    Multiple(-q - 1, k);
    assert u - z == -q * n && u - n - z == (-q - 1) * n;
  }

  lemma {:induction false} Multiple(q: int, k: IntKind)
    ensures (q * Bits(k)) % Bits(k) == 0
  {
    match k
    case Byte | UByte => assert (q * 256) % 256 == 0;
    case Short | UShort => assert (q * 65536) % 65536 == 0;
    case Int | UInt => assert (q * 4294967296) % 4294967296 == 0;
    case Long | ULong => assert (q * 18446744073709551616) % 18446744073709551616 == 0;
  }

  lemma {:induction false} Ones(k: IntKind)
    ensures !k.IsSigned() ==> k.Wrap(18446744073709551615) == Bits(k) - 1
  {
  }

  lemma {:induction false} WholeWords(k: IntKind, r: int, z: int)
    requires (r - (z + 18446744073709551616)) % Bits(k) == 0
    ensures (r - z) % Bits(k) == 0
  {
  }

  /** Only one number in range is congruent to another. */
  lemma {:induction false} OneInRange(k: IntKind, x: int, y: int)
    requires InRange(k, x) && InRange(k, y) && (x - y) % Bits(k) == 0
    ensures x == y
  {
  }

  /* ---------- keys that come again ---------- */

  function Keys(entries: seq<Entry>): (r: seq<Key>)
    ensures |r| == |entries| && forall i :: 0 <= i < |entries| ==> r[i] == entries[i].key
  {
    seq(|entries|, i requires 0 <= i < |entries| => entries[i].key)
  }

  /** The value under a key. */
  function Find(entries: seq<Entry>, key: Key): Option<Value> {
    if entries == [] then None else if entries[0].key == key then Some(entries[0].val) else Find(entries[1..], key)
  }

  /** Insertion gives the key its new value and leaves the others; a new key goes behind
      the old ones, an old one keeps its place. */
  lemma {:induction false} InsertExact(entries: seq<Entry>, key: Key, v: Value, other: Key)
    ensures Find(Insert(entries, key, v), other) == if other == key then Some(v) else Find(entries, other)
    ensures Keys(Insert(entries, key, v)) == if key in Keys(entries) then Keys(entries) else Keys(entries) + [key]
    decreases |entries|
  {
    hide Find, Keys;
    if entries != [] {
      var e, rest := entries[0], entries[1..];
      assert entries == [e] + rest;
      KeysCons(e, rest);
      FindCons(e, rest, other);
      if e.key != key {
        InsertExact(rest, key, v, other);
        KeysCons(e, Insert(rest, key, v));
        FindCons(e, Insert(rest, key, v), other);
      } else {
        KeysCons(Entry(key, v), rest);
        FindCons(Entry(key, v), rest, other);
      }
    } else {
      KeysCons(Entry(key, v), []);
      FindCons(Entry(key, v), [], other);
      NoKeys(other);
      assert [Entry(key, v)] + [] == [Entry(key, v)] && [key] == [] + [key];
    }
  }

  lemma {:induction false} KeysCons(e: Entry, rest: seq<Entry>)
    ensures Keys([e] + rest) == [e.key] + Keys(rest)
  {
  }

  lemma {:induction false} FindCons(e: Entry, rest: seq<Entry>, key: Key)
    ensures Find([e] + rest, key) == if e.key == key then Some(e.val) else Find(rest, key)
  {
    assert ([e] + rest)[1..] == rest;
  }

  lemma {:induction false} NoKeys(key: Key)
    ensures Keys([]) == [] && Find([], key) == None
  {
  }

  /** The last value read under a key, of those that come in a list of entries. */
  function Last(zeroed: bool, f: Format, ps: seq<Pair>, key: Key): Option<Value>
    requires f.FTable? && f.isint
  {
    if ps == [] then None
    else
      var later := Last(zeroed, f, ps[1..], key);
      var r := Decode(zeroed, f.elem, ps[0].val, HashInit(zeroed, f.elem));
      if later.Some? then later
      else if EntryKey(true, ps[0].key, []) == Some(key) && r.Good? then Some(r.v)
      else None
  }

  /** In a table a key that comes more than once has the value that came last. */
  lemma {:induction false} LastWins(zeroed: bool, f: Format, ps: seq<Pair>, entries: seq<Entry>, key: Key)
    requires f.FTable? && f.isint && DecodeEntries(zeroed, f, ps, entries).Good?
    ensures Find(DecodeEntries(zeroed, f, ps, entries).v, key) ==
            if Last(zeroed, f, ps, key).Some? then Last(zeroed, f, ps, key) else Find(entries, key)
    decreases |ps|
  {
    hide Decode, Insert, Find;
    if ps != [] {
      var d := DecodeEntry(zeroed, f, ps[0], entries);
      LastWins(zeroed, f, ps[1..], d.v, key);
      var k := EntryKey(true, ps[0].key, entries).value;
      InsertExact(entries, k, Decode(zeroed, f.elem, ps[0].val, HashInit(zeroed, f.elem)).v, key);
    }
  }

  /* ---------- memory the text says nothing of ---------- */

  /** Nothing but zeros. */
  predicate Cleared(f: Format, v: Value)
    decreases f
  {
    match f
    case FBool => v == VBool(false)
    case FChar => v == VChar(0)
    case FInt(_) => v == VInt(0)
    case FStr => v == VStr([])
    case FFixStr(_) => v == VFixStr([])
    case FObj(fields) => v.VObj? && |v.vs| == |fields| && forall i :: 0 <= i < |fields| ==> Cleared(fields[i].fmt, v.vs[i])
    case FArr(_) => v == VArr([])
    case FFixArr(cap, elem) => v.VFixArr? && v.len == 0 && |v.slots| == cap && forall i :: 0 <= i < cap ==> Cleared(elem, v.slots[i])
    case FTable(_, _) => v == VNull
  }

  lemma {:induction false} ZeroCleared(f: Format, v: Value)
    ensures Cleared(f, v) <==> v == Zero(f)
    decreases f
  {
    match f
    case FObj(fields) =>
      if v.VObj? && |v.vs| == |fields| {
        forall i | 0 <= i < |fields| ensures Cleared(fields[i].fmt, v.vs[i]) <==> v.vs[i] == Zero(fields[i].fmt) {
          ZeroCleared(fields[i].fmt, v.vs[i]);
        }
        var z := Zero(f).vs;
        if forall i :: 0 <= i < |fields| ==> v.vs[i] == Zero(fields[i].fmt) { assert v.vs == z; }
        if v.vs == z { assert forall i :: 0 <= i < |fields| ==> v.vs[i] == z[i]; }
      }
    case FFixArr(cap, elem) =>
      if v.VFixArr? && |v.slots| == cap {
        forall i | 0 <= i < cap ensures Cleared(elem, v.slots[i]) <==> v.slots[i] == Zero(elem) {
          ZeroCleared(elem, v.slots[i]);
        }
        if forall i :: 0 <= i < cap ==> v.slots[i] == Zero(elem) { assert v.slots == Blank(cap, Zero(elem)); }
      }
    case _ =>
  }

  /** A field no pair belongs to keeps what its memory held. */
  lemma {:induction false} AbsentField(zeroed: bool, f: Format, ps: seq<Pair>, ts: seq<Value>, i: nat)
    requires f.FObj? && |ts| == |f.fields| && i < |ts|
    requires DecodeMembers(zeroed, f, ps, ts).Good?
    requires forall j :: 0 <= j < |ps| && KeyText(ps[j].key) ==> FieldOf(f, ps[j]) != i
    ensures DecodeMembers(zeroed, f, ps, ts).v[i] == ts[i]
    decreases |ps|
  {
    hide Decode, FieldOf, KeyText, NoSemiChar, PairText;
    if ps != [] {
      assert forall j :: 0 <= j < |ps[1..]| ==> ps[1..][j] == ps[j + 1];
      AbsentField(zeroed, f, ps[1..], DecodeMember(zeroed, f, ps[0], ts).v, i);
    }
  }

  /** Into zeroed memory an object without some of its fields is read with these zero. */
  lemma {:induction false} AbsentZero(zeroed: bool, s: seq<byte>, f: Format, ps: seq<Pair>, p: nat, b: nat, i: nat)
    requires f.FObj? && i < |f.fields| && Decode(zeroed, f, WObj(ps), Zero(f)).Good?
    requires At(s, p, Text(WObj(ps))) && |Text(WObj(ps))| <= b < TWO32
    requires forall j :: 0 <= j < |ps| && KeyText(ps[j].key) ==> FieldOf(f, ps[j]) != i
    ensures var r := ParseVal(zeroed, s, f, Zero(f), p, b);
            r.Done? && r.v.VObj? && |r.v.vs| == |f.fields| && Cleared(f.fields[i].fmt, r.v.vs[i])
  {
    hide At, ParseVal, Text, DecodeMembers, FieldOf, KeyText, Cleared;
    ParseText(zeroed, s, f, WObj(ps), Zero(f), p, b);
    AbsentField(zeroed, f, ps, Members(Zero(f), |f.fields|), i);
    ZeroCleared(f.fields[i].fmt, Zero(f.fields[i].fmt));
  }
}
