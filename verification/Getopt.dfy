/** The option scanner of `getopt.c`, which keeps its place between calls. */
module Getopt {
  import opened Wrappers
  import opened Bytes

  /** A C string. */
  type Text = s: seq<byte> | forall i :: 0 <= i < |s| ==> s[i] != NUL

  const EQUALS: byte := 61

  /** `need` is 0 for a flag, 1 for a required value, anything else for an optional one. */
  datatype Opt = Opt(ch: byte, need: nat, name: Option<Text>)

  /** What a call returns: the end, an error, or an option with the value it stores. */
  datatype Event = End | Bad | Got(opt: nat, value: Option<Text>)

  /** `*optind` and the two static variables: inside a cluster of short options `dash` is
      set and `optchr` is the character that comes next. */
  datatype Place = Place(optind: nat, optchr: nat, dash: bool)

  /** The first option with that letter; a `-` entry ends the table. */
  function FindShort(opts: seq<Opt>, c: byte, from: nat := 0): (r: Option<nat>)
    requires from <= |opts|
    ensures r.Some? ==> from <= r.value < |opts| && opts[r.value].ch == c && c != MINUS
    decreases |opts| - from
  {
    if from == |opts| || opts[from].ch == MINUS then None
    else if opts[from].ch == c then Some(from)
    else FindShort(opts, c, from + 1)
  }

  /** The first option with that name. */
  function FindLong(opts: seq<Opt>, name: seq<byte>, from: nat := 0): (r: Option<nat>)
    requires from <= |opts|
    ensures r.Some? ==> from <= r.value < |opts| && opts[r.value].name.Some? && opts[r.value].name.value == name
    decreases |opts| - from
  {
    if from == |opts| || opts[from].ch == MINUS then None
    else if opts[from].name.Some? && opts[from].name.value == name then Some(from)
    else FindLong(opts, name, from + 1)
  }

  /** The value of option `k`, whose text would start at `start` of the current argument;
      also the arguments used up. */
  function Value(opts: seq<Opt>, k: nat, args: seq<Text>, i: nat, start: nat): (r: (Event, nat))
    requires k < |opts| && i < |args|
  {
    var arg := args[i];
    if Peek(arg, start) == NUL then
      if i + 1 == |args| then (if opts[k].need == 1 then Bad else Got(k, None), i + 1)
      else if opts[k].need == 1 then (Got(k, Some(args[i + 1])), i + 2)
      else (Got(k, None), i + 1)
    else if arg[start] == EQUALS then (Got(k, Some(arg[start + 1..])), i + 1)
    else (Got(k, Some(arg[start..])), i + 1)
  }

  /** Where the `=` of a long option stands; one in last place is not seen. */
  function EqualsAt(arg: Text): Option<nat>
    requires |arg| > 2
  {
    MemChr(arg, 2, EQUALS, |arg| - 3)
  }

  function LongName(arg: Text): seq<byte>
    requires |arg| > 2
  {
    if EqualsAt(arg).Some? then arg[2..EqualsAt(arg).value] else arg[2..]
  }

  function NextLong(opts: seq<Opt>, args: seq<Text>, p: Place): (Event, Place)
    requires p.optind < |args|
  {
    var arg := args[p.optind];
    if |arg| <= 2 then (End, p.(optind := p.optind + 1))
    else
      var found := FindLong(opts, LongName(arg));
      if found.None? then (Bad, p.(optind := p.optind + 1))
      else
        var k := found.value;
        if opts[k].need != 0 then
          var r := Value(opts, k, args, p.optind, |LongName(arg)| + if EqualsAt(arg).Some? then 3 else 2);
          (r.0, Place(r.1, 0, false))
        else
          (Got(k, None), Place(p.optind + 1, 0, false))
  }

  /** The place after the character of a cluster. */
  function Onward(args: seq<Text>, p: Place): Place
    requires p.optind < |args|
  {
    if Peek(args[p.optind], p.optchr + 1) == NUL then Place(p.optind + 1, p.optchr, false)
    else Place(p.optind, p.optchr + 1, true)
  }

  function NextShort(opts: seq<Opt>, args: seq<Text>, p: Place): (Event, Place)
    requires p.optind < |args|
  {
    var c := Peek(args[p.optind], p.optchr);
    if c == COLON then (Bad, Place(p.optind + 1, p.optchr, false))
    else
      var found := FindShort(opts, c);
      if found.None? then (Bad, Onward(args, p))
      else
        var k := found.value;
        if opts[k].need != 0 then
          var r := Value(opts, k, args, p.optind, p.optchr + 1);
          (r.0, Place(r.1, p.optchr, false))
        else
          (Got(k, None), Onward(args, p))
  }

  /** One call. */
  function Next(opts: seq<Opt>, args: seq<Text>, p: Place): (Event, Place) {
    if p.optind >= |args| then (End, p)
    else
      var arg := args[p.optind];
      if !p.dash && (Peek(arg, 0) != MINUS || Peek(arg, 1) == NUL) then (End, p)
      else if Peek(arg, 0) == MINUS && Peek(arg, 1) == MINUS then NextLong(opts, args, p)
      else NextShort(opts, args, if p.dash then p else Place(p.optind, 1, true))
  }

  /** A place the scanner can be in: inside a cluster there is a character to read. */
  predicate Placed(args: seq<Text>, p: Place) {
    p.optind <= |args| &&
    (p.dash ==>
       && p.optind < |args| && 1 <= p.optchr < |args[p.optind]|
       && args[p.optind][0] == MINUS && args[p.optind][1] != MINUS)
  }

  function CharsLeft(args: seq<Text>, p: Place): nat
    requires Placed(args, p)
  {
    if p.optind == |args| then 0
    else if p.dash then |args[p.optind]| - p.optchr
    else |args[p.optind]| + 1
  }

  /** Every call leaves the scanner well placed, and one that is not the end has used up an
      argument or a character of the cluster. */
  lemma {:induction false} Progress(opts: seq<Opt>, args: seq<Text>, p: Place)
    requires Placed(args, p)
    ensures var (e, q) := Next(opts, args, p);
            && Placed(args, q) && p.optind <= q.optind
            && (e != End ==> q.optind > p.optind || (q.optind == p.optind && CharsLeft(args, q) < CharsLeft(args, p)))
            && (e == End ==> q.optind <= p.optind + 1 && !q.dash)
  {
    hide FindShort, FindLong, MemChr;
  }

  /** What repeated calls return, up to the end, and where they leave off. */
  function Collect(opts: seq<Opt>, args: seq<Text>, p: Place): (r: (seq<Event>, Place))
    requires Placed(args, p)
    decreases |args| - p.optind, CharsLeft(args, p)
  {
    Progress(opts, args, p);
    var (e, q) := Next(opts, args, p);
    if e == End then ([], q)
    else var r := Collect(opts, args, q); ([e] + r.0, r.1)
  }

  /* ---------- command lines and what they mean ---------- */

  /** How a value stands to its option: in the next argument, behind it, behind a `=`. */
  datatype Style = Apart | Joined | Equals

  /** An option of a command line; `flags` are short options without value that share the
      argument. Options are given by their place in the table. */
  datatype Item =
    | LongFlag(opt: nat)
    | LongValue(opt: nat, apart: bool, value: Text)
    | Flags(flags: seq<nat>)
    | ShortValue(flags: seq<nat>, opt: nat, style: Style, value: Text)

  /** The letter finds the option, and can be written in a cluster. */
  predicate ShortOk(opts: seq<Opt>, k: nat) {
    k < |opts| && FindShort(opts, opts[k].ch) == Some(k) && opts[k].ch != COLON && opts[k].ch != NUL
  }

  predicate LongOk(opts: seq<Opt>, k: nat) {
    && k < |opts| && opts[k].name.Some? && opts[k].name.value != [] && EQUALS !in opts[k].name.value
    && FindLong(opts, opts[k].name.value) == Some(k)
  }

  predicate FlagsOk(opts: seq<Opt>, flags: seq<nat>) {
    forall i :: 0 <= i < |flags| ==> ShortOk(opts, flags[i]) && opts[flags[i]].need == 0
  }

  /** A value that stands behind its option begins with something other than `=`. */
  predicate Attachable(v: Text) { v != [] && v[0] != EQUALS }

  predicate ItemOk(opts: seq<Opt>, item: Item) {
    match item
    case LongFlag(k) => LongOk(opts, k) && opts[k].need == 0
    case LongValue(k, apart, v) =>
      LongOk(opts, k) && if apart then opts[k].need == 1 else opts[k].need != 0 && Attachable(v)
    case Flags(flags) => flags != [] && FlagsOk(opts, flags)
    case ShortValue(flags, k, style, v) =>
      && FlagsOk(opts, flags) && ShortOk(opts, k) && opts[k].need != 0
      && (style.Apart? ==> opts[k].need == 1) && (style.Joined? ==> Attachable(v))
  }

  function Letters(opts: seq<Opt>, flags: seq<nat>): (r: Text)
    requires forall i :: 0 <= i < |flags| ==> ShortOk(opts, flags[i])
    ensures |r| == |flags|
    ensures forall i :: 0 <= i < |flags| ==> flags[i] < |opts| && r[i] == opts[flags[i]].ch
  {
    if flags == [] then [] else assert ShortOk(opts, flags[0]); [opts[flags[0]].ch] + Letters(opts, flags[1..])
  }

  /** The arguments an option is written as. */
  function Render(opts: seq<Opt>, item: Item): (r: seq<Text>)
    requires ItemOk(opts, item)
    ensures 1 <= |r| <= 2
  {
    match item
    case LongFlag(k) => [[MINUS, MINUS] + opts[k].name.value]
    case LongValue(k, apart, v) =>
      if apart then [[MINUS, MINUS] + opts[k].name.value, v]
      else [[MINUS, MINUS] + opts[k].name.value + [EQUALS] + v]
    case Flags(flags) => [[MINUS] + Letters(opts, flags)]
    case ShortValue(flags, k, style, v) =>
      var head: Text := [MINUS] + Letters(opts, flags) + [opts[k].ch];
      match style
      case Apart => [head, v]
      case Joined => [head + v]
      case Equals => [head + [EQUALS] + v]
  }

  function Raised(flags: seq<nat>): (r: seq<Event>)
    ensures |r| == |flags|
  {
    if flags == [] then [] else [Got(flags[0], None)] + Raised(flags[1..])
  }

  /** What it means. */
  function Meaning(item: Item): seq<Event> {
    match item
    case LongFlag(k) => [Got(k, None)]
    case LongValue(k, _, v) => [Got(k, Some(v))]
    case Flags(flags) => Raised(flags)
    case ShortValue(flags, k, _, v) => Raised(flags) + [Got(k, Some(v))]
  }

  /* ---------- long options ---------- */

  lemma {:induction false} MemChrAbsent(s: seq<byte>, i: nat, c: byte, n: nat)
    requires forall j :: i <= j < |s| && j < i + n ==> s[j] != c
    ensures MemChr(s, i, c, n) == None
    decreases n
  {
    if n > 0 && i < |s| {
      MemChrAbsent(s, i + 1, c, n - 1);
    }
  }

  lemma {:induction false} PlainName(arg: Text, name: Text)
    requires name != [] && EQUALS !in name && arg == [MINUS, MINUS] + name
    ensures EqualsAt(arg) == None && LongName(arg) == name
  {
    forall j | 2 <= j < |arg|
      ensures arg[j] != EQUALS
    {
      assert arg[j] == name[j - 2] && name[j - 2] in name;
    }
    MemChrAbsent(arg, 2, EQUALS, |arg| - 3);
  }

  lemma {:induction false} NameBeforeEquals(arg: Text, name: Text, v: Text)
    requires name != [] && EQUALS !in name && v != [] && arg == [MINUS, MINUS] + name + [EQUALS] + v
    ensures EqualsAt(arg) == Some(2 + |name|) && LongName(arg) == name
  {
    forall j | 2 <= j < 2 + |name|
      ensures arg[j] != EQUALS
    {
      assert arg[j] == name[j - 2] && name[j - 2] in name;
    }
    MemChrPast(arg, 2, EQUALS, |arg| - 3, |name|);
  }

  lemma {:induction false} LongStep(opts: seq<Opt>, args: seq<Text>, p: Place, item: Item)
    requires item.LongFlag? || item.LongValue?
    requires ItemOk(opts, item) && !p.dash
    requires p.optind + |Render(opts, item)| <= |args|
    requires args[p.optind..p.optind + |Render(opts, item)|] == Render(opts, item)
    ensures Meaning(item) == [Next(opts, args, p).0]
    ensures Next(opts, args, p).1 == Place(p.optind + |Render(opts, item)|, 0, false)
  {
    hide FindLong, MemChr, EqualsAt;
    var texts := Render(opts, item);
    var arg, name := args[p.optind], opts[item.opt].name.value;
    assert arg == args[p.optind..p.optind + |texts|][0] == texts[0];
    if item.LongFlag? || item.apart {
      PlainName(arg, name);
      assert |texts| == 2 ==> args[p.optind + 1] == args[p.optind..p.optind + |texts|][1];
    } else {
      NameBeforeEquals(arg, name, item.value);
      assert arg[3 + |name|..] == item.value;
    }
  }

  /* ---------- short options ---------- */

  /** The scanner is at letter `j` of argument `i`. */
  predicate InCluster(args: seq<Text>, p: Place, i: nat, j: nat) {
    && p.optind == i < |args| && 1 + j < |args[i]|
    && args[i][0] == MINUS && args[i][1] != MINUS
    && if p.dash then p.optchr == 1 + j else j == 0
  }

  lemma {:induction false} LetterStep(opts: seq<Opt>, args: seq<Text>, p: Place, i: nat, j: nat, k: nat)
    requires InCluster(args, p, i, j) && ShortOk(opts, k) && args[i][1 + j] == opts[k].ch
    ensures Next(opts, args, p) ==
            if opts[k].need == 0 then (Got(k, None), Onward(args, Place(i, 1 + j, true)))
            else (Value(opts, k, args, i, 2 + j).0, Place(Value(opts, k, args, i, 2 + j).1, 1 + j, false))
  {
    hide FindShort, Value, Onward;
  }

  /** The flags of a cluster are returned one by one. */
  lemma {:induction false} ClusterRun(opts: seq<Opt>, args: seq<Text>, p: Place, i: nat, j: nat, flags: seq<nat>) returns (q: Place)
    requires Placed(args, p) && FlagsOk(opts, flags) && j <= |flags| && InCluster(args, p, i, j)
    requires 1 + |flags| <= |args[i]| && args[i][1..1 + |flags|] == Letters(opts, flags)
    ensures Placed(args, q)
    ensures 1 + |flags| < |args[i]| ==> InCluster(args, q, i, |flags|)
    ensures 1 + |flags| == |args[i]| ==> q.optind == i + 1 && !q.dash
    ensures var r := Collect(opts, args, q);
            Collect(opts, args, p) == (Raised(flags[j..]) + r.0, r.1)
    decreases |flags| - j
  {
    hide Letters, Collect, Next;
    if j == |flags| {
      q := p;
      assert flags[j..] == [];
      Nothing(Collect(opts, args, q).0);
    } else {
      var k := flags[j];
      assert args[i][1 + j] == args[i][1..1 + |flags|][j] == opts[k].ch;
      LetterStep(opts, args, p, i, j, k);
      CollectStep(opts, args, p);
      var p1 := Next(opts, args, p).1;
      assert Raised(flags[j..]) == [Got(k, None)] + Raised(flags[j..][1..]);
      assert flags[j..][1..] == flags[j + 1..];
      if 2 + j < |args[i]| {
        q := ClusterRun(opts, args, p1, i, j + 1, flags);
        Regroup(Got(k, None), Raised(flags[j + 1..]), Collect(opts, args, q).0);
      } else {
        q := p1;
        assert flags[j + 1..] == [];
        Regroup(Got(k, None), Raised(flags[j + 1..]), Collect(opts, args, q).0);
        Nothing(Collect(opts, args, q).0);
      }
    }
  }

  lemma {:induction false} Nothing(rest: seq<Event>)
    ensures Raised([]) == [] && Raised([]) + rest == rest
  {
  }

  lemma {:induction false} Regroup(e: Event, more: seq<Event>, rest: seq<Event>)
    ensures [e] + (more + rest) == ([e] + more) + rest
  {
  }

  lemma {:induction false} CollectStep(opts: seq<Opt>, args: seq<Text>, p: Place)
    requires Placed(args, p) && Next(opts, args, p).0 != End
    ensures Placed(args, Next(opts, args, p).1)
    ensures var r := Collect(opts, args, Next(opts, args, p).1);
            Collect(opts, args, p) == ([Next(opts, args, p).0] + r.0, r.1)
  {
    hide Next;
    Progress(opts, args, p);
  }

  lemma {:induction false} ShortItem(opts: seq<Opt>, args: seq<Text>, p: Place, item: Item) returns (q: Place)
    requires item.Flags? || item.ShortValue?
    requires ItemOk(opts, item) && Placed(args, p) && !p.dash
    requires p.optind + |Render(opts, item)| <= |args|
    requires args[p.optind..p.optind + |Render(opts, item)|] == Render(opts, item)
    ensures Placed(args, q) && q.optind == p.optind + |Render(opts, item)| && !q.dash
    ensures var r := Collect(opts, args, q);
            Collect(opts, args, p) == (Meaning(item) + r.0, r.1)
  {
    hide FindShort, Collect, Next, Value;
    var texts, i, flags := Render(opts, item), p.optind, item.flags;
    var arg, letters := args[i], Letters(opts, flags);
    assert arg == args[i..i + |texts|][0] == texts[0];
    assert arg[1..1 + |flags|] == letters;
    assert arg[1] == if flags != [] then opts[flags[0]].ch else opts[item.opt].ch;
    q := ClusterRun(opts, args, p, i, 0, flags);
    assert flags[0..] == flags;
    if item.ShortValue? {
      var k, at := item.opt, q;
      LetterStep(opts, args, at, i, |flags|, k);
      AttachedValue(opts, args, i, item);
      CollectStep(opts, args, at);
      q := Next(opts, args, at).1;
      Append(Raised(flags), Got(k, Some(item.value)), Collect(opts, args, q).0);
    }
  }

  lemma {:induction false} Append(before: seq<Event>, e: Event, rest: seq<Event>)
    ensures before + ([e] + rest) == (before + [e]) + rest
  {
  }

  /** The three ways to write a value give it back. */
  lemma {:induction false} AttachedValue(opts: seq<Opt>, args: seq<Text>, i: nat, item: Item)
    requires item.ShortValue? && ItemOk(opts, item)
    requires i + |Render(opts, item)| <= |args|
    requires args[i..i + |Render(opts, item)|] == Render(opts, item)
    ensures Value(opts, item.opt, args, i, 2 + |item.flags|) ==
            (Got(item.opt, Some(item.value)), i + |Render(opts, item)|)
  {
    hide FindShort;
    var texts, n := Render(opts, item), |item.flags|;
    var arg := args[i];
    assert arg == args[i..i + |texts|][0] == texts[0];
    match item.style
    case Apart => assert args[i + 1] == args[i..i + |texts|][1];
    case Joined => assert arg[2 + n..] == item.value;
    case Equals => assert arg[3 + n..] == item.value && arg[2 + n] == EQUALS;
  }

  lemma {:induction false} ItemCalls(opts: seq<Opt>, args: seq<Text>, p: Place, item: Item) returns (q: Place)
    requires ItemOk(opts, item) && Placed(args, p) && !p.dash
    requires p.optind + |Render(opts, item)| <= |args|
    requires args[p.optind..p.optind + |Render(opts, item)|] == Render(opts, item)
    ensures Placed(args, q) && q.optind == p.optind + |Render(opts, item)| && !q.dash
    ensures var r := Collect(opts, args, q);
            Collect(opts, args, p) == (Meaning(item) + r.0, r.1)
  {
    if item.LongFlag? || item.LongValue? {
      hide Next, Collect, Render;
      LongStep(opts, args, p, item);
      CollectStep(opts, args, p);
      q := Next(opts, args, p).1;
    } else {
      q := ShortItem(opts, args, p, item);
    }
  }

  predicate AllOk(opts: seq<Opt>, items: seq<Item>) {
    forall i :: 0 <= i < |items| ==> ItemOk(opts, items[i])
  }

  function RenderAll(opts: seq<Opt>, items: seq<Item>): seq<Text>
    requires AllOk(opts, items)
  {
    if items == [] then [] else Render(opts, items[0]) + RenderAll(opts, items[1..])
  }

  function MeaningAll(items: seq<Item>): seq<Event> {
    if items == [] then [] else Meaning(items[0]) + MeaningAll(items[1..])
  }

  lemma {:induction false} AllCalls(opts: seq<Opt>, pre: seq<Text>, items: seq<Item>, post: seq<Text>, p: Place) returns (q: Place)
    requires AllOk(opts, items) && p.optind == |pre| && !p.dash
    ensures var args := pre + RenderAll(opts, items) + post;
            && Placed(args, p) && Placed(args, q)
            && q.optind == |pre| + |RenderAll(opts, items)| && !q.dash
            && Collect(opts, args, p) == (MeaningAll(items) + Collect(opts, args, q).0, Collect(opts, args, q).1)
    decreases |items|
  {
    hide Collect, Render, Meaning, ItemOk;
    if items == [] {
      q := p;
      assert MeaningAll(items) + Collect(opts, pre + RenderAll(opts, items) + post, q).0 ==
             Collect(opts, pre + RenderAll(opts, items) + post, q).0;
    } else {
      var first, rest := Render(opts, items[0]), RenderAll(opts, items[1..]);
      var args := pre + RenderAll(opts, items) + post;
      assert args == (pre + first) + rest + post;
      assert args[|pre|..|pre| + |first|] == first;
      var m := ItemCalls(opts, args, p, items[0]);
      q := AllCalls(opts, pre + first, items[1..], post, m);
      assert Meaning(items[0]) + (MeaningAll(items[1..]) + Collect(opts, args, q).0) ==
             MeaningAll(items) + Collect(opts, args, q).0;
    }
  }

  /** Where the options end: nothing is left, an argument that is no option, or `--`. */
  predicate Ends(post: seq<Text>) {
    post == [] || Peek(post[0], 0) != MINUS || |post[0]| == 1 || post[0] == [MINUS, MINUS]
  }

  /** The calls return exactly the options a command line was written from, with their
      values, in order, and then the end; `--` is used up, anything else is left. */
  lemma {:induction false} ReturnsExactly(opts: seq<Opt>, pre: seq<Text>, items: seq<Item>, post: seq<Text>, p: Place)
    requires AllOk(opts, items) && Ends(post) && p.optind == |pre| && !p.dash
    ensures var args := pre + RenderAll(opts, items) + post;
            && Placed(args, p)
            && Collect(opts, args, p).0 == MeaningAll(items)
            && Collect(opts, args, p).1.optind ==
               |pre| + |RenderAll(opts, items)| + (if post != [] && post[0] == [MINUS, MINUS] then 1 else 0)
  {
    hide RenderAll, MeaningAll, AllOk, NextShort, Collect;
    var q := AllCalls(opts, pre, items, post, p);
    var args := pre + RenderAll(opts, items) + post;
    assert post != [] ==> args[q.optind] == post[0];
    AtEnd(opts, args, q);
    assert MeaningAll(items) + [] == MeaningAll(items);
  }

  lemma {:induction false} AtEnd(opts: seq<Opt>, args: seq<Text>, q: Place)
    requires Placed(args, q) && !q.dash && Ends(args[q.optind..])
    ensures var r := Collect(opts, args, q);
            r.0 == [] && r.1.optind ==
                         q.optind + (if q.optind < |args| && args[q.optind] == [MINUS, MINUS] then 1 else 0)
  {
    hide NextShort;
    assert q.optind < |args| ==> args[q.optind..][0] == args[q.optind];
  }

  /** A value written behind `--name=` comes back exactly when it is not empty and does not
      begin with `=`. */
  lemma {:induction false} LongAttached(opts: seq<Opt>, args: seq<Text>, p: Place, k: nat, v: Text)
    requires LongOk(opts, k) && opts[k].need != 0
    requires p.optind < |args| && !p.dash
    requires args[p.optind] == [MINUS, MINUS] + opts[k].name.value + [EQUALS] + v
    ensures Next(opts, args, p) == (Got(k, Some(v)), Place(p.optind + 1, 0, false)) <==> Attachable(v)
  {
    hide FindLong, MemChr, EqualsAt;
    var arg, name := args[p.optind], opts[k].name.value;
    if v != [] {
      NameBeforeEquals(arg, name, v);
      assert arg[3 + |name|..] == v;
    } else {
      LastEqualsUnseen(arg, name);
    }
  }

  lemma {:induction false} LastEqualsUnseen(arg: Text, name: Text)
    requires name != [] && EQUALS !in name && arg == [MINUS, MINUS] + name + [EQUALS] + []
    ensures LongName(arg) == name + [EQUALS]
  {
    forall j | 2 <= j < |arg| - 1
      ensures arg[j] != EQUALS
    {
      assert arg[j] == name[j - 2] && name[j - 2] in name;
    }
    MemChrAbsent(arg, 2, EQUALS, |arg| - 3);
    assert arg[2..] == name + [EQUALS];
  }

  /** The same for a value written behind a letter, the first of its argument or one
      behind flags. */
  lemma {:induction false} ShortAttached(opts: seq<Opt>, args: seq<Text>, p: Place, i: nat, j: nat, k: nat, v: Text)
    requires InCluster(args, p, i, j) && ShortOk(opts, k) && opts[k].need != 0
    requires args[i][1 + j] == opts[k].ch && args[i][2 + j..] == v
    ensures Next(opts, args, p) == (Got(k, Some(v)), Place(i + 1, 1 + j, false)) <==> Attachable(v)
  {
    hide FindShort, Next;
    LetterStep(opts, args, p, i, j, k);
    assert v != [] ==> args[i][2 + j] == v[0];
  }

  /* ---------- the scanner itself ---------- */

  /** `memnstr` for the single character it is called with, and in general: where `needle`
      first stands in `haystack`. */
  method MemNStr(haystack: seq<byte>, needle: seq<byte>) returns (r: Option<nat>)
    requires needle != []
    ensures r.Some? ==> At(haystack, r.value, needle) && forall i: nat :: i < r.value ==> !At(haystack, i, needle)
    ensures r.None? ==> forall i: nat :: !At(haystack, i, needle)
    ensures |needle| == 1 ==> r == MemChr(haystack, 0, needle[0], |haystack|)
  {
    if |needle| == 1 {
      r := MemChr(haystack, 0, needle[0], |haystack|);
      FirstByte(haystack, needle, 0, |haystack|);
      return;
    }
    if |needle| > |haystack| {
      return None;
    }
    var end := |haystack| - |needle|;
    var p := 0;
    while p <= end
      invariant 0 <= p <= end + 1
      invariant forall i: nat :: i < p ==> !At(haystack, i, needle)
    {
      var found := MemChr(haystack, p, needle[0], end - p + 1);
      SkipTo(haystack, needle, p, end - p + 1);
      if found.None? {
        return None;
      }
      p := found.value;
      if haystack[p + |needle| - 1] == needle[|needle| - 1]
         && haystack[p..p + |needle| - 1] == needle[..|needle| - 1] {
        assert haystack[p..p + |needle|] == haystack[p..p + |needle| - 1] + [haystack[p + |needle| - 1]];
        assert needle == needle[..|needle| - 1] + [needle[|needle| - 1]];
        return Some(p);
      }
      AtEnds(haystack, p, needle);
      p := p + 1;
    }
    r := None;
  }

  lemma {:induction false} AtEnds(s: seq<byte>, p: nat, t: seq<byte>)
    requires t != []
    ensures At(s, p, t) ==> s[p] == t[0] && s[p + |t| - 1] == t[|t| - 1] && s[p..p + |t| - 1] == t[..|t| - 1]
  {
    if At(s, p, t) {
      assert s[p..p + |t|][0] == s[p];
      assert s[p..p + |t|][|t| - 1] == s[p + |t| - 1];
      assert s[p..p + |t|][..|t| - 1] == s[p..p + |t| - 1];
    }
  }

  /** No occurrence begins before the first place of its first byte. */
  lemma {:induction false} SkipTo(s: seq<byte>, needle: seq<byte>, i: nat, n: nat)
    requires needle != [] && i + n <= |s|
    ensures var r := MemChr(s, i, needle[0], n);
            forall j: nat :: i <= j < (if r.Some? then r.value else i + n) ==> !At(s, j, needle)
    decreases n
  {
    if n > 0 {
      if s[i] != needle[0] {
        SkipTo(s, needle, i + 1, n - 1);
        AtEnds(s, i, needle);
      }
    }
  }

  lemma {:induction false} FirstByte(s: seq<byte>, needle: seq<byte>, i: nat, n: nat)
    requires |needle| == 1 && i + n == |s|
    ensures var r := MemChr(s, i, needle[0], n);
            && (r.Some? ==> At(s, r.value, needle))
            && forall j: nat :: i <= j && (r.Some? ==> j < r.value) ==> !At(s, j, needle)
  {
    SkipTo(s, needle, i, n);
  }

  /** `rtcsp_getopt` with the variables that live between calls; the end of the table stands
      for its `-` entry. */
  class Scanner {
    var optind: nat
    var optchr: nat
    var dash: bool
    var optidx: int

    function Here(): Place
      reads this
    {
      Place(optind, optchr, dash)
    }

    constructor (optind: nat)
      ensures Here() == Place(optind, 0, false)
    {
      this.optind, optchr, dash, optidx := optind, 0, false, -1;
    }

    method Getopt(opts: seq<Opt>, args: seq<Text>) returns (e: Event)
      requires Placed(args, Here())
      modifies this
      ensures (e, Here()) == Next(opts, args, old(Here()))
      ensures e.Got? ==> optidx == e.opt
      ensures Placed(args, Here())
    {
      Progress(opts, args, Here());
      optidx := -1;
      if optind >= |args| {
        return End;
      }
      var arg := args[optind];
      if !dash && (Peek(arg, 0) != MINUS || Peek(arg, 1) == NUL) {
        return End;
      }
      if Peek(arg, 0) == MINUS && Peek(arg, 1) == MINUS {
        e := Long(opts, args);
      } else {
        if !dash {
          dash, optchr := true, 1;
        }
        e := Short(opts, args);
      }
    }

    /** The programs' loop over their command line. */
    method Options(opts: seq<Opt>, args: seq<Text>) returns (events: seq<Event>)
      requires Placed(args, Here())
      modifies this
      ensures Placed(args, Here())
      ensures (events, Here()) == Collect(opts, args, old(Here()))
    {
      hide Next;
      events := [];
      assert events + Collect(opts, args, Here()).0 == Collect(opts, args, Here()).0;
      while true
        invariant Placed(args, Here())
        invariant events + Collect(opts, args, Here()).0 == Collect(opts, args, old(Here())).0
        invariant Collect(opts, args, Here()).1 == Collect(opts, args, old(Here())).1
        decreases |args| - optind, CharsLeft(args, Here())
      {
        ghost var p := Here();
        Progress(opts, args, p);
        var e := Getopt(opts, args);
        if e == End {
          assert events + [] == events;
          return;
        }
        CollectStep(opts, args, p);
        assert events + ([e] + Collect(opts, args, Here()).0) == (events + [e]) + Collect(opts, args, Here()).0;
        events := events + [e];
      }
    }

    method Long(opts: seq<Opt>, args: seq<Text>) returns (e: Event)
      requires optind < |args| && |args[optind]| >= 2
      modifies this
      ensures (e, Here()) == NextLong(opts, args, old(Here()))
      ensures e.Got? ==> optidx == e.opt
    {
      var arg := args[optind];
      if |arg| == 2 {
        optind := optind + 1;
        return End;
      }
      var pos := MemNStr(arg[2..|arg| - 1], [EQUALS]);
      MemChrShift(arg, 2, EQUALS, |arg| - 1);
      var nameLen, start := |arg| - 2, 2;
      if pos.Some? {
        nameLen, start := pos.value, 3;
      }
      assert arg[2..2 + nameLen] == LongName(arg);
      var k: nat := 0;
      while k < |opts| && opts[k].ch != MINUS && !(opts[k].name.Some? && arg[2..2 + nameLen] == opts[k].name.value)
        invariant k <= |opts| && optind == old(optind) && optchr == old(optchr) && dash == old(dash)
        invariant FindLong(opts, LongName(arg), k) == FindLong(opts, LongName(arg))
      {
        k := k + 1;
      }
      optidx := k;
      if k == |opts| || opts[k].ch == MINUS {
        optind := optind + 1;
        return Bad;
      }
      optchr, dash := 0, false;
      start := start + nameLen;
      if opts[k].need != 0 {
        e := TakeValue(opts, k, args, start);
      } else {
        optind := optind + 1;
        e := Got(k, None);
      }
    }

    method Short(opts: seq<Opt>, args: seq<Text>) returns (e: Event)
      requires optind < |args| && dash
      modifies this
      ensures (e, Here()) == NextShort(opts, args, old(Here()))
      ensures e.Got? ==> optidx == e.opt
    {
      var arg := args[optind];
      var c := Peek(arg, optchr);
      if c == COLON {
        dash, optind := false, optind + 1;
        return Bad;
      }
      var k: nat := 0;
      while k < |opts| && opts[k].ch != MINUS && c != opts[k].ch
        invariant k <= |opts| && optind == old(optind) && optchr == old(optchr) && dash == old(dash)
        invariant FindShort(opts, c, k) == FindShort(opts, c)
      {
        k := k + 1;
      }
      optidx := k;
      if k == |opts| || opts[k].ch == MINUS {
        Move(args);
        return Bad;
      }
      if opts[k].need != 0 {
        dash := false;
        e := TakeValue(opts, k, args, optchr + 1);
      } else {
        Move(args);
        e := Got(k, None);
      }
    }

    /** Past one letter of a cluster. */
    method Move(args: seq<Text>)
      requires optind < |args| && dash
      modifies this`optind, this`optchr, this`dash
      ensures Here() == Onward(args, old(Here()))
    {
      if Peek(args[optind], optchr + 1) == NUL {
        dash, optind := false, optind + 1;
      } else {
        optchr := optchr + 1;
      }
    }

    method TakeValue(opts: seq<Opt>, k: nat, args: seq<Text>, start: nat) returns (e: Event)
      requires k < |opts| && optind < |args|
      modifies this`optind
      ensures (e, optind) == Value(opts, k, args, old(optind), start)
    {
      var arg := args[optind];
      e := Got(k, None);
      if Peek(arg, start) == NUL {
        optind := optind + 1;
        if optind == |args| {
          if opts[k].need == 1 {
            return Bad;
          }
        } else if opts[k].need == 1 {
          e := Got(k, Some(args[optind]));
          optind := optind + 1;
        }
      } else {
        var from := if arg[start] == EQUALS then start + 1 else start;
        e := Got(k, Some(arg[from..]));
        optind := optind + 1;
      }
    }
  }

  /** Searching part of a string is searching the string within bounds. */
  lemma {:induction false} MemChrShift(s: seq<byte>, lo: nat, c: byte, hi: nat)
    requires lo <= hi <= |s|
    ensures var r := MemChr(s[lo..hi], 0, c, |s[lo..hi]|);
            MemChr(s, lo, c, hi - lo) == if r.Some? then Some(lo + r.value) else None
  {
    MemChrFrom(s, lo, c, hi, 0);
  }

  lemma {:induction false} MemChrFrom(s: seq<byte>, lo: nat, c: byte, hi: nat, k: nat)
    requires lo + k <= hi <= |s|
    ensures var r := MemChr(s[lo..hi], k, c, hi - lo - k);
            MemChr(s, lo + k, c, hi - lo - k) == if r.Some? then Some(lo + r.value) else None
    decreases hi - lo - k
  {
    if lo + k < hi {
      assert s[lo..hi][k] == s[lo + k];
      MemChrFrom(s, lo, c, hi, k + 1);
    }
  }
}
