/** What the C library calls answer on any bytes: the first match of a search, the number
    read from any decimal, and the digits printed. */
module Scanning {
  import opened Wrappers
  import opened Bytes

  /** The bytes of an ASCII text. */
  function Ascii(text: string): (r: seq<byte>)
    requires forall i :: 0 <= i < |text| ==> text[i] < 128 as char
    ensures |r| == |text| && forall i :: 0 <= i < |text| ==> r[i] == text[i] as int
  {
    if text == [] then [] else [text[0] as byte] + Ascii(text[1..])
  }

  /** `strchr` finds the first `c` that no NUL precedes. */
  lemma {:induction false} StrChrExact(s: seq<byte>, i: nat, c: byte, j: nat)
    requires c != 0
    ensures StrChr(s, i, c) == Some(j) <==>
            i <= j < |s| && s[j] == c && forall k :: i <= k < j ==> s[k] != c && s[k] != 0
    decreases |s| - i
  {
    if i < |s| && s[i] != c && s[i] != 0 {
      StrChrExact(s, i + 1, c, j);
    }
  }

  /** `memchr` finds the first `c` among `n` bytes. */
  lemma {:induction false} MemChrExact(s: seq<byte>, i: nat, c: byte, n: nat, j: nat)
    ensures MemChr(s, i, c, n) == Some(j) <==>
            i <= j < |s| && j < i + n && s[j] == c && forall k :: i <= k < j ==> s[k] != c
    decreases n
  {
    if n > 0 && i < |s| && s[i] != c {
      MemChrExact(s, i + 1, c, n - 1, j);
    }
  }

  predicate IsBlank(b: byte) { b in {9, 10, 11, 12, 13, 32} }

  predicate Decimals(t: seq<byte>) { forall i :: 0 <= i < |t| ==> '0' as int <= t[i] <= '9' as int }

  /** The number decimal digits stand for. */
  function Numeral(t: seq<byte>): nat
    requires Decimals(t)
  {
    if t == [] then 0 else Numeral(t[..|t| - 1]) * 10 + (t[|t| - 1] - '0' as int)
  }

  lemma {:induction false} ScanPrefix(s: seq<byte>, i: nat, k: nat)
    requires i + k <= |s| && Decimals(s[i..i + k])
    ensures ScanNat(s, i, 0) == ScanNat(s, i + k, Numeral(s[i..i + k]))
    decreases k
  {
    if k > 0 {
      var t := s[i..i + k];
      assert t[..k - 1] == s[i..i + (k - 1)] && t[k - 1] == s[i + (k - 1)];
      ScanPrefix(s, i, k - 1);
    }
  }

  lemma {:induction false} SkipBlanks(s: seq<byte>, i: nat, k: nat)
    requires i + k <= |s| && (forall j :: i <= j < i + k ==> IsBlank(s[j])) && !IsBlank(Peek(s, i + k))
    ensures SkipSpace(s, i) == i + k
    decreases k
  {
    if k > 0 {
      SkipBlanks(s, i + 1, k - 1);
    }
  }

  /** A number with any blanks in front, a sign or none, and any leading zeros. */
  predicate Number(s: seq<byte>, i: nat, blanks: nat, sign: seq<byte>, digits: nat) {
    var d := i + blanks + |sign|;
    && d + digits <= |s| && digits > 0
    && (forall j :: i <= j < i + blanks ==> IsBlank(s[j]))
    && sign in [[], Ascii("+"), Ascii("-")] && s[i + blanks..d] == sign
    && Decimals(s[d..d + digits])
  }

  /** `strtol` and `strtoul` read it with its sign, up to the first byte that is no digit. */
  lemma {:induction false} NumberRead(s: seq<byte>, i: nat, blanks: nat, sign: seq<byte>, digits: nat)
    requires Number(s, i, blanks, sign, digits)
    requires var e := i + blanks + |sign| + digits; e < |s| ==> !('0' as int <= s[e] <= '9' as int)
    ensures var d := i + blanks + |sign|;
            ScanSigned(s, i) == (sign == Ascii("-"), Numeral(s[d..d + digits]), d + digits)
  {
    var w, d := i + blanks, i + blanks + |sign|;
    assert Ascii("+") == [43] && Ascii("-") == [45];
    assert sign != [] ==> s[w] == s[w..d][0] == sign[0];
    assert s[d..d + digits][0] == s[d];
    SkipBlanks(s, i, blanks);
    ScanPrefix(s, d, digits);
  }

  /** Without a digit behind blanks and sign nothing is read. */
  lemma {:induction false} NoNumberRead(s: seq<byte>, i: nat, blanks: nat)
    requires i + blanks <= |s| && (forall j :: i <= j < i + blanks ==> IsBlank(s[j])) && !IsBlank(Peek(s, i + blanks))
    requires var w := i + blanks;
             var d := if Peek(s, w) == '+' as int || Peek(s, w) == '-' as int then w + 1 else w;
             !('0' as int <= Peek(s, d) <= '9' as int)
    ensures ScanSigned(s, i) == (false, 0, i)
  {
    SkipBlanks(s, i, blanks);
  }

  /** What is printed of a number are its decimal digits without leading zeros. */
  lemma {:induction false} DigitsExact(n: nat)
    ensures Decimals(Digits(n)) && Numeral(Digits(n)) == n
    ensures Digits(n)[0] == '0' as int ==> n == 0 && Digits(n) == Ascii("0")
    decreases n
  {
    if n >= 10 {
      DigitsExact(n / 10);
      assert Digits(n)[..|Digits(n)| - 1] == Digits(n / 10);
      assert Digits(n)[0] == Digits(n / 10)[0];
    } else {
      assert Digits(n)[..0] == [];
    }
  }

  /** Decimals without leading zeros are all that spells a number. */
  lemma {:induction false} DigitsOnly(t: seq<byte>)
    requires t != [] && Decimals(t) && (t[0] == '0' as int ==> |t| == 1)
    ensures t == Digits(Numeral(t))
    decreases |t|
  {
    var front := t[..|t| - 1];
    if front != [] {
      DigitsOnly(front);
      Positive(front);
      assert t == front + [t[|t| - 1]];
    }
  }

  lemma {:induction false} Positive(t: seq<byte>)
    requires t != [] && Decimals(t) && t[0] != '0' as int
    ensures Numeral(t) > 0
    decreases |t|
  {
    if |t| > 1 {
      Positive(t[..|t| - 1]);
    }
  }

  /** A sign stands in front of negative numbers only. */
  lemma {:induction false} DecimalExact(z: int)
    ensures z >= 0 ==> Decimal(z) == Digits(z)
    ensures z < 0 ==> Decimal(z) == Ascii("-") + Digits(-z)
  {
  }

  /** `strtoul` gives the number modulo 2^64, and the largest word beyond it. */
  lemma {:induction false} ULongExact(neg: bool, m: nat)
    ensures var r := ClampULong(neg, m);
            if m >= 18446744073709551616 then r == 18446744073709551615
            else r < 18446744073709551616 && r == if !neg || m == 0 then m else 18446744073709551616 - m
  {
  }

  /** Subtraction of unsigned 32-bit words. */
  lemma {:induction false} Sub32Exact(a: nat, b: nat)
    requires a < 4294967296 && b < 4294967296
    ensures Sub32(a, b) == if b <= a then a - b else a - b + 4294967296
  {
  }
}
