/** Byte strings and the C library calls the serializer leans on: decimal
    printing, `strtol`/`strtoul`, `strchr` and `memchr`.

    Every buffer the program parses is NUL-terminated (`socket.c` allocates one
    zeroed byte past the message; a `GString` always ends in NUL), so a read at or
    past the end of the sequence yields NUL. */
module Bytes {
  import opened Wrappers

  type byte = b: int | 0 <= b < 256

  const NUL: byte := 0
  const SEMI: byte := 59
  const COLON: byte := 58
  const ZERO: byte := 48
  const MINUS: byte := 45
  const LBRACE: byte := 123
  const RBRACE: byte := 125
  const LBRACKET: byte := 91
  const RBRACKET: byte := 93
  const LPAREN: byte := 40
  const RPAREN: byte := 41

  const TWO32: nat := 0x1_0000_0000
  const TWO64: nat := 0x1_0000_0000_0000_0000

  /** The byte at offset `i`, NUL past the end. */
  function Peek(s: seq<byte>, i: nat): byte {
    if i < |s| then s[i] else NUL
  }

  /** `t` stands in `s` at offset `p`. */
  ghost predicate At(s: seq<byte>, p: nat, t: seq<byte>) {
    p + |t| <= |s| && s[p..p + |t|] == t
  }

  lemma {:induction false} AtSplit(s: seq<byte>, p: nat, a: seq<byte>, b: seq<byte>)
    ensures At(s, p, a + b) <==> At(s, p, a) && At(s, p + |a|, b)
  {
    if p + |a + b| <= |s| {
      var t := s[p..p + |a + b|];
      assert t[..|a|] == s[p..p + |a|];
      assert t[|a|..] == s[p + |a|..p + |a| + |b|];
      assert t == t[..|a|] + t[|a|..];
      assert (a + b)[..|a|] == a && (a + b)[|a|..] == b;
    }
  }

  /** Reading through an occurrence of a text. */
  lemma {:induction false} AtPeek(s: seq<byte>, p: nat, t: seq<byte>, k: nat)
    requires At(s, p, t) && k < |t|
    ensures Peek(s, p + k) == t[k]
  {
    assert s[p..p + |t|][k] == s[p + k];
  }

  /** Unsigned 32-bit subtraction, as `buflen -= n` computes it. */
  function Sub32(a: nat, b: nat): (r: nat)
    ensures r < TWO32
    ensures b <= a < TWO32 ==> r == a - b
  {
    (a - b) % 0x1_0000_0000
  }

  /* ---------- printf ---------- */

  /** Unsigned decimal digits, as `%u` prints them. */
  function Digits(n: nat): (r: seq<byte>)
    ensures 1 <= |r|
    ensures forall i :: 0 <= i < |r| ==> IsDigit(r[i])
  {
    if n < 10 then [ZERO + n] else Digits(n / 10) + [ZERO + n % 10]
  }

  /** Signed decimal, as `%d` and `%ld` print it. */
  function Decimal(z: int): (r: seq<byte>)
    ensures 1 <= |r|
    ensures forall i :: 0 <= i < |r| ==> IsDigit(r[i]) || r[i] == MINUS
  {
    if z < 0 then [MINUS] + Digits(-z) else Digits(z)
  }

  /* ---------- strchr, memchr ---------- */

  /** `strchr`: the first `c` at or after `i`, unless a NUL comes first. */
  function StrChr(s: seq<byte>, i: nat, c: byte): (r: Option<nat>)
    ensures r.Some? && c != NUL ==> i <= r.value < |s| && s[r.value] == c
    decreases |s| - i
  {
    if i >= |s| then None
    else if s[i] == c then Some(i)
    else if s[i] == NUL then None
    else StrChr(s, i + 1, c)
  }

  /** `memchr`: the first `c` among the `n` bytes from `i`. */
  function MemChr(s: seq<byte>, i: nat, c: byte, n: nat): (r: Option<nat>)
    ensures r.Some? ==> i <= r.value < |s| && r.value < i + n && s[r.value] == c
    decreases n
  {
    if n == 0 || i >= |s| then None
    else if s[i] == c then Some(i)
    else MemChr(s, i + 1, c, n - 1)
  }

  /** `memchr` finds the first `c` behind a prefix without `c`. */
  lemma {:induction false} MemChrPast(s: seq<byte>, i: nat, c: byte, n: nat, k: nat)
    requires i + k < |s| && k < n
    requires s[i + k] == c
    requires forall j :: i <= j < i + k ==> s[j] != c
    ensures MemChr(s, i, c, n) == Some(i + k)
    decreases k
  {
    if k > 0 {
      MemChrPast(s, i + 1, c, n - 1, k - 1);
    }
  }

  /* ---------- strtol, strtoul ---------- */

  predicate IsDigit(b: byte) { 48 <= b <= 57 }

  predicate IsSpace(b: byte) { b == 32 || 9 <= b <= 13 }

  function SkipSpace(s: seq<byte>, i: nat): (r: nat)
    ensures i <= r
    decreases |s| - i
  {
    if IsSpace(Peek(s, i)) then SkipSpace(s, i + 1) else i
  }

  /** Value and end of the digit run at `i`, continuing from `acc`. */
  function ScanNat(s: seq<byte>, i: nat, acc: nat): (r: (nat, nat))
    ensures i <= r.1
    decreases |s| - i
  {
    if IsDigit(Peek(s, i)) then ScanNat(s, i + 1, acc * 10 + (Peek(s, i) - 48)) else (acc, i)
  }

  /** The number at `i` with optional blanks and sign: negative?, magnitude, end.
      Without digits the end is `i` itself, as `strtol` leaves its end pointer. */
  function ScanSigned(s: seq<byte>, i: nat): (r: (bool, nat, nat))
    ensures i <= r.2
  {
    var w := SkipSpace(s, i);
    var signed := Peek(s, w) == MINUS || Peek(s, w) == 43;
    var d := if signed then w + 1 else w;
    if IsDigit(Peek(s, d)) then
      var (m, e) := ScanNat(s, d, 0);
      (Peek(s, w) == MINUS, m, e)
    else (false, 0, i)
  }

  /** `strtoul(s + i, &end, 10)` on a 64-bit long: value and end. */
  function StrToUl(s: seq<byte>, i: nat): (r: (nat, nat))
    ensures i <= r.1 && r.0 < TWO64
  {
    var (neg, m, e) := ScanSigned(s, i);
    (ClampULong(neg, m), e)
  }

  function Signed(neg: bool, m: nat): int {
    var z: int := m;
    if neg then -z else z
  }

  /** What `strtoul` makes of a sign and a magnitude. */
  function ClampULong(neg: bool, m: nat): (r: nat)
    ensures r < TWO64
    ensures m < TWO64 && (!neg || m == 0) ==> r == m
  {
    if m >= TWO64 then TWO64 - 1 else if neg && m > 0 then TWO64 - m else m
  }

  /** What `strtol` makes of a number: the nearest 64-bit one. */
  function ClampLong(z: int): (r: int)
    ensures -0x8000_0000_0000_0000 <= r < 0x8000_0000_0000_0000
    ensures -0x8000_0000_0000_0000 <= z < 0x8000_0000_0000_0000 ==> r == z
  {
    if z < -0x8000_0000_0000_0000 then -0x8000_0000_0000_0000
    else if z >= 0x8000_0000_0000_0000 then 0x7fff_ffff_ffff_ffff
    else z
  }

  lemma {:induction false} ScanDigits(s: seq<byte>, i: nat, n: nat)
    requires At(s, i, Digits(n))
    ensures ScanNat(s, i, 0) == ScanNat(s, i + |Digits(n)|, n)
  {
    if n < 10 {
      AtPeek(s, i, Digits(n), 0);
    } else {
      AtSplit(s, i, Digits(n / 10), [ZERO + n % 10]);
      ScanDigits(s, i, n / 10);
      AtPeek(s, i + |Digits(n / 10)|, [ZERO + n % 10], 0);
    }
  }

  /** Scanning a printed number reads it back, sign included. */
  lemma {:induction false} ScanDecimal(s: seq<byte>, i: nat, z: int)
    requires At(s, i, Decimal(z)) && !IsDigit(Peek(s, i + |Decimal(z)|))
    ensures ScanSigned(s, i) == (z < 0, if z < 0 then -z else z, i + |Decimal(z)|)
  {
    AtPeek(s, i, Decimal(z), 0);
    if z < 0 {
      AtSplit(s, i, [MINUS], Digits(-z));
      ScanDigits(s, i + 1, -z);
      AtPeek(s, i + 1, Digits(-z), 0);
    } else {
      ScanDigits(s, i, z);
    }
  }
}
