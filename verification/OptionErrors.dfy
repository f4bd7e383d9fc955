/** What the option scanner answers on command lines that are not written as the table of
    options asks: unknown letters and names, missing values, colons. */
module OptionErrors {
  import opened Wrappers
  import opened Bytes
  import opened Getopt

  /** Option `k` stands before the end of the table. */
  predicate Listed(opts: seq<Opt>, k: nat) {
    k < |opts| && forall j :: 0 <= j <= k ==> opts[j].ch != '-' as int
  }

  /** A letter finds the first listed option of that letter. */
  lemma {:induction false} FindShortExact(opts: seq<Opt>, c: byte, from: nat, k: nat)
    requires from <= |opts| && forall j :: 0 <= j < from ==> opts[j].ch != '-' as int
    ensures FindShort(opts, c, from) == Some(k) <==>
            from <= k && Listed(opts, k) && opts[k].ch == c && forall j :: from <= j < k ==> opts[j].ch != c
    decreases |opts| - from
  {
    if from < |opts| && opts[from].ch != MINUS && opts[from].ch != c {
      FindShortExact(opts, c, from + 1, k);
    }
  }

  /** A name finds the first listed option of that name. */
  lemma {:induction false} FindLongExact(opts: seq<Opt>, name: seq<byte>, from: nat, k: nat)
    requires from <= |opts| && forall j :: 0 <= j < from ==> opts[j].ch != '-' as int
    ensures FindLong(opts, name, from) == Some(k) <==>
            && from <= k && Listed(opts, k) && opts[k].name.Some? && opts[k].name.value == name
            && forall j :: from <= j < k ==> opts[j].name.None? || opts[j].name.value != name
    decreases |opts| - from
  {
    if from < |opts| && opts[from].ch != MINUS && !(opts[from].name.Some? && opts[from].name.value == name) {
      FindLongExact(opts, name, from + 1, k);
    }
  }

  /** No listed option has the letter. */
  predicate UnknownLetter(opts: seq<Opt>, c: byte) {
    forall k :: 0 <= k < |opts| && Listed(opts, k) ==> opts[k].ch != c
  }

  predicate UnknownName(opts: seq<Opt>, name: seq<byte>) {
    forall k :: 0 <= k < |opts| && Listed(opts, k) ==> opts[k].name.None? || opts[k].name.value != name
  }

  /** An unknown letter is an error, and the scan goes on with the next letter. */
  lemma {:induction false} LetterRefused(opts: seq<Opt>, args: seq<Text>, p: Place, i: nat, j: nat)
    requires InCluster(args, p, i, j) && args[i][1 + j] != ':' as int && UnknownLetter(opts, args[i][1 + j])
    ensures Next(opts, args, p) ==
            (Bad, if 2 + j == |args[i]| then Place(i + 1, 1 + j, false) else Place(i, 2 + j, true))
  {
    var found := FindShort(opts, args[i][1 + j]);
    if found.Some? {
      FindShortExact(opts, args[i][1 + j], 0, found.value);
    }
    hide FindShort;
  }

  /** A colon is an error that ends its argument. */
  lemma {:induction false} ColonRefused(opts: seq<Opt>, args: seq<Text>, p: Place, i: nat, j: nat)
    requires InCluster(args, p, i, j) && args[i][1 + j] == ':' as int
    ensures Next(opts, args, p) == (Bad, Place(i + 1, 1 + j, false))
  {
    hide FindShort;
  }

  /** An unknown name is an error that uses up its argument. */
  lemma {:induction false} NameRefused(opts: seq<Opt>, args: seq<Text>, p: Place)
    requires p.optind < |args| && !p.dash && |args[p.optind]| > 2
    requires args[p.optind][0] == '-' as int && args[p.optind][1] == '-' as int
    requires UnknownName(opts, LongName(args[p.optind]))
    ensures Next(opts, args, p) == (Bad, Place(p.optind + 1, p.optchr, false))
  {
    var name := LongName(args[p.optind]);
    var found := FindLong(opts, name);
    if found.Some? {
      FindLongExact(opts, name, 0, found.value);
    }
    hide FindLong, LongName;
  }

  /** The name of a long option ends before the first `=` that is not its last byte, and
      goes to the end of the argument if there is none. */
  lemma {:induction false} NameExact(arg: Text, n: nat)
    requires |arg| > 2 && 2 + n <= |arg|
    ensures LongName(arg) == arg[2..2 + n] && |LongName(arg)| == n <==>
            && (forall j :: 2 <= j < 2 + n && j < |arg| - 1 ==> arg[j] != '=' as int)
            && (2 + n == |arg| || (2 + n < |arg| - 1 && arg[2 + n] == '=' as int))
  {
    MemChrFirst(arg, 2, EQUALS, |arg| - 3);
    hide MemChr;
  }

  lemma {:induction false} MemChrFirst(s: seq<byte>, i: nat, c: byte, n: nat)
    ensures var r := MemChr(s, i, c, n);
            forall k :: i <= k < (if r.Some? then r.value else i + n) && k < |s| ==> s[k] != c
    decreases n
  {
    if n > 0 && i < |s| && s[i] != c {
      MemChrFirst(s, i + 1, c, n - 1);
    }
  }

  /** An option at the end of its argument takes the next argument if it must have a value,
      and is an error if there is none; an optional value is not looked for there. */
  lemma {:induction false} ValueApart(opts: seq<Opt>, args: seq<Text>, p: Place, i: nat, j: nat, k: nat)
    requires InCluster(args, p, i, j) && ShortOk(opts, k) && opts[k].need != 0
    requires args[i][1 + j] == opts[k].ch && 2 + j == |args[i]|
    ensures Next(opts, args, p) ==
            if opts[k].need != 1 then (Got(k, None), Place(i + 1, 1 + j, false))
            else if i + 1 < |args| then (Got(k, Some(args[i + 1])), Place(i + 2, 1 + j, false))
            else (Bad, Place(i + 1, 1 + j, false))
  {
    hide FindShort, Next;
    LetterStep(opts, args, p, i, j, k);
  }

  /** The same for a long option. */
  lemma {:induction false} LongApart(opts: seq<Opt>, args: seq<Text>, p: Place, k: nat)
    requires LongOk(opts, k) && opts[k].need != 0 && p.optind < |args| && !p.dash
    requires args[p.optind] == [MINUS, MINUS] + opts[k].name.value
    ensures var i := p.optind;
            Next(opts, args, p) ==
            if opts[k].need != 1 then (Got(k, None), Place(i + 1, 0, false))
            else if i + 1 < |args| then (Got(k, Some(args[i + 1])), Place(i + 2, 0, false))
            else (Bad, Place(i + 1, 0, false))
  {
    hide FindLong, MemChr, EqualsAt;
    PlainName(args[p.optind], opts[k].name.value);
  }

  /** What a letter of a cluster without values raises. */
  function Raises(opts: seq<Opt>, c: byte): Event {
    if FindShort(opts, c).Some? then Got(FindShort(opts, c).value, None) else Bad
  }

  function AllRaise(opts: seq<Opt>, letters: seq<byte>): seq<Event> {
    if letters == [] then [] else [Raises(opts, letters[0])] + AllRaise(opts, letters[1..])
  }

  /** Errors do not swallow what follows: every letter of a cluster of flags and unknown
      letters is answered, in order, and the next argument comes after them. */
  lemma {:induction false} MixedCluster(opts: seq<Opt>, args: seq<Text>, p: Place, i: nat, j: nat) returns (q: Place)
    requires Placed(args, p) && InCluster(args, p, i, j)
    requires forall l :: 1 + j <= l < |args[i]| ==> args[i][l] != ':' as int
    requires forall l :: 1 + j <= l < |args[i]| ==>
               var found := FindShort(opts, args[i][l]); found.Some? ==> opts[found.value].need == 0
    ensures Placed(args, q) && q.optind == i + 1 && !q.dash
    ensures var r := Collect(opts, args, q);
            Collect(opts, args, p) == (AllRaise(opts, args[i][1 + j..]) + r.0, r.1)
    decreases |args[i]| - j
  {
    hide Collect, Next;
    var letters := args[i][1 + j..];
    LetterAnswered(opts, args, p, i, j);
    CollectStep(opts, args, p);
    q := Next(opts, args, p).1;
    assert letters[1..] == args[i][2 + j..];
    if 2 + j < |args[i]| {
      var p1 := q;
      q := MixedCluster(opts, args, p1, i, j + 1);
    } else {
      assert letters[1..] == [];
    }
    var rest := Collect(opts, args, q).0;
    assert [Raises(opts, letters[0])] + (AllRaise(opts, letters[1..]) + rest) == AllRaise(opts, letters) + rest;
    assert 2 + j == |args[i]| ==> AllRaise(opts, letters[1..]) + rest == rest;
  }

  lemma {:induction false} LetterAnswered(opts: seq<Opt>, args: seq<Text>, p: Place, i: nat, j: nat)
    requires InCluster(args, p, i, j) && args[i][1 + j] != ':' as int
    requires var found := FindShort(opts, args[i][1 + j]); found.Some? ==> opts[found.value].need == 0
    ensures Next(opts, args, p) ==
            (Raises(opts, args[i][1 + j]), if 2 + j == |args[i]| then Place(i + 1, 1 + j, false) else Place(i, 2 + j, true))
  {
    hide FindShort, Value;
  }
}
