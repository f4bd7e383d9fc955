/** The printed text, byte by byte: which letter opens a value of which type, and which
    bytes stand around its parts. */
module Spelling {
  import opened Bytes
  import opened Schema
  import opened Printer
  import opened Scanning

  /** A text opens with the letter of the format's type, and no other type's, and a colon. */
  predicate Opens(f: Format, text: seq<byte>) {
    && |text| >= 2 && text[1] == ':' as int
    && (text[0] == 'b' as int <==> f.FBool?)
    && (text[0] == 'c' as int <==> f.FChar?)
    && (text[0] == 'y' as int <==> f == FInt(Byte))
    && (text[0] == 'Y' as int <==> f == FInt(UByte))
    && (text[0] == 't' as int <==> f == FInt(Short))
    && (text[0] == 'T' as int <==> f == FInt(UShort))
    && (text[0] == 'i' as int <==> f == FInt(Int))
    && (text[0] == 'I' as int <==> f == FInt(UInt))
    && (text[0] == 'l' as int <==> f == FInt(Long))
    && (text[0] == 'L' as int <==> f == FInt(ULong))
    && (text[0] == 's' as int <==> f.FStr?)
    && (text[0] == 'S' as int <==> f.FFixStr?)
    && (text[0] == 'o' as int <==> f.FObj?)
    && (text[0] == 'a' as int <==> f.FArr?)
    && (text[0] == 'A' as int <==> f.FFixArr?)
    && (text[0] == 'h' as int <==> f.FTable?)
  }

  lemma {:induction false} TagLetter(f: Format, body: seq<byte>)
    ensures Opens(f, [f.Tag(), COLON] + body)
  {
  }

  /** Every print opens so. */
  lemma {:induction false} PrintOpens(f: Format, v: Value)
    ensures Opens(f, Print(f, v))
  {
    hide PrintBody, Opens;
    TagLetter(f, PrintBody(f, v));
  }

  /** The range of each integer type. */
  lemma {:induction false} Ranges(z: int)
    ensures Byte.Holds(z) <==> -128 <= z <= 127
    ensures UByte.Holds(z) <==> 0 <= z <= 255
    ensures Short.Holds(z) <==> -32768 <= z <= 32767
    ensures UShort.Holds(z) <==> 0 <= z <= 65535
    ensures Int.Holds(z) <==> -2147483648 <= z <= 2147483647
    ensures UInt.Holds(z) <==> 0 <= z <= 4294967295
    ensures Long.Holds(z) <==> -9223372036854775808 <= z <= 9223372036854775807
    ensures ULong.Holds(z) <==> 0 <= z <= 18446744073709551615
  {
  }

  /** What stands behind the colon of a scalar or string: its value and a semicolon. */
  lemma {:induction false} LeafSpelled(f: Format, v: Value)
    requires f.IsLeaf() && Typed(f, v)
    ensures var body := Print(f, v)[2..];
            match v
            case VBool(b) => body == Ascii(if b then "1;" else "0;")
            case VChar(c) => body == [c] + Ascii(";")
            case VInt(z) => body == (if z < 0 then Ascii("-") + Digits(-z) else Digits(z)) + Ascii(";")
            case VStr(bytes) => body == Digits(|bytes|) + Ascii(":") + bytes + Ascii(";")
            case VFixStr(bytes) => body == Digits(|bytes|) + Ascii(":") + bytes + Ascii(";")
            case _ => false
  {
    hide Digits, Ascii;
    Marks();
  }

  lemma {:induction false} Marks()
    ensures Ascii(";") == [SEMI] && Ascii(":") == [COLON] && Ascii("-") == [MINUS]
    ensures Ascii("1;") == [49, SEMI] && Ascii("0;") == [48, SEMI]
    ensures Ascii("{") == [LBRACE] && Ascii("}") == [RBRACE] && Ascii("[") == [LBRACKET] && Ascii("]") == [RBRACKET]
    ensures Ascii("(") == [LPAREN] && Ascii(")") == [RPAREN]
    ensures Ascii("s:") == [115, COLON] && Ascii("I:") == [73, COLON]
  {
  }

  /** The prints of parts, one after the other. */
  function Joined(texts: seq<seq<byte>>): seq<byte> {
    if texts == [] then [] else Joined(texts[..|texts| - 1]) + texts[|texts| - 1]
  }

  lemma {:induction false} JoinedCons(first: seq<byte>, rest: seq<seq<byte>>)
    ensures Joined([first] + rest) == first + Joined(rest)
    decreases |rest|
  {
    var all := [first] + rest;
    if rest == [] {
      assert all[..0] == [] && all[0] == first;
    } else {
      assert all[..|all| - 1] == [first] + rest[..|rest| - 1] && all[|all| - 1] == rest[|rest| - 1];
      JoinedCons(first, rest[..|rest| - 1]);
    }
  }

  /** A string: its length, a colon, its bytes, a semicolon. */
  function StringText(bytes: seq<byte>): seq<byte> {
    Ascii("s:") + Digits(|bytes|) + Ascii(":") + bytes + Ascii(";")
  }

  /** A field: its key as a string and its value. */
  function FieldText(f: Format, vs: seq<Value>, i: nat): seq<byte>
    requires f.FObj? && i < |f.fields| && i < |vs|
  {
    StringText(f.fields[i].key) + Print(f.fields[i].fmt, vs[i])
  }

  /** An entry: its key as an unsigned number or a string, and its value. */
  function EntryText(f: Format, e: Entry): seq<byte>
    requires f.FTable?
  {
    (match e.key case IntKey(i) => Ascii("I:") + Digits(i) + Ascii(";") case StrKey(s) => StringText(CStr(s)))
    + Print(f.elem, e.val)
  }

  lemma {:induction false} ElemsJoined(e: Format, es: seq<Value>)
    ensures PrintElems(e, es) == Joined(seq(|es|, i requires 0 <= i < |es| => Print(e, es[i])))
    decreases |es|
  {
    hide Print;
    var texts := seq(|es|, i requires 0 <= i < |es| => Print(e, es[i]));
    if es != [] {
      var rest := seq(|es[1..]|, i requires 0 <= i < |es[1..]| => Print(e, es[1..][i]));
      ElemsJoined(e, es[1..]);
      assert texts == [Print(e, es[0])] + rest;
      JoinedCons(Print(e, es[0]), rest);
    }
  }

  lemma {:induction false} FieldsJoined(f: Format, vs: seq<Value>, i: nat)
    requires f.FObj? && |vs| == |f.fields| && i <= |vs|
    ensures PrintMembers(f, vs, i) == Joined(seq(|vs| - i, j requires 0 <= j < |vs| - i => FieldText(f, vs, i + j)))
    decreases |vs| - i
  {
    hide Print, Digits, Ascii;
    var texts := seq(|vs| - i, j requires 0 <= j < |vs| - i => FieldText(f, vs, i + j));
    if i < |vs| {
      var rest := seq(|vs| - (i + 1), j requires 0 <= j < |vs| - (i + 1) => FieldText(f, vs, i + 1 + j));
      FieldsJoined(f, vs, i + 1);
      assert texts == [FieldText(f, vs, i)] + rest;
      JoinedCons(FieldText(f, vs, i), rest);
      Marks();
    }
  }

  lemma {:induction false} EntriesJoined(f: Format, entries: seq<Entry>)
    requires f.FTable?
    ensures PrintEntries(f, entries) == Joined(seq(|entries|, i requires 0 <= i < |entries| => EntryText(f, entries[i])))
    decreases |entries|
  {
    hide Print, Digits, Ascii, CStr;
    var texts := seq(|entries|, i requires 0 <= i < |entries| => EntryText(f, entries[i]));
    if entries != [] {
      var rest := seq(|entries[1..]|, i requires 0 <= i < |entries[1..]| => EntryText(f, entries[1..][i]));
      EntriesJoined(f, entries[1..]);
      assert texts == [EntryText(f, entries[0])] + rest;
      JoinedCons(EntryText(f, entries[0]), rest);
      Marks();
    }
  }

  /** What stands behind the colon of a composite: the count of an array, and the parts in
      order between brackets of its kind. */
  lemma {:induction false} PartsSpelled(f: Format, v: Value)
    requires !f.IsLeaf() && Typed(f, v)
    ensures var body := Print(f, v)[2..];
            match v
            case VObj(vs) =>
              && f.FObj? && |vs| == |f.fields|
              && body == Ascii("{") + Joined(seq(|vs|, i requires 0 <= i < |vs| => FieldText(f, vs, i))) + Ascii("}")
            case VArr(es) =>
              && f.FArr?
              && body == Digits(|es|) + Ascii("[") + Joined(seq(|es|, i requires 0 <= i < |es| => Print(f.elem, es[i]))) + Ascii("]")
            case VFixArr(len, slots) =>
              && f.FFixArr? && len <= |slots|
              && body == Digits(len) + Ascii("[") + Joined(seq(len, i requires 0 <= i < len => Print(f.elem, slots[i]))) + Ascii("]")
            case VTable(entries) =>
              && f.FTable?
              && body == Ascii("(") + Joined(seq(|entries|, i requires 0 <= i < |entries| => EntryText(f, entries[i]))) + Ascii(")")
            case VNull => body == Ascii("()")
            case _ => false
  {
    hide Digits, Ascii, PrintElems, PrintMembers, PrintEntries, FieldText, EntryText, Joined;
    Marks();
    NoParts();
    match (f, v)
    case (FObj(_), VObj(vs)) =>
      FieldsJoined(f, vs, 0);
      assert seq(|vs| - 0, j requires 0 <= j < |vs| - 0 => FieldText(f, vs, 0 + j))
          == seq(|vs|, i requires 0 <= i < |vs| => FieldText(f, vs, i));
    case (FArr(elem), VArr(es)) => ElemsJoined(elem, es);
    case (FFixArr(_, elem), VFixArr(len, slots)) =>
      ElemsJoined(elem, slots[..len]);
      assert seq(|slots[..len]|, i requires 0 <= i < |slots[..len]| => Print(elem, slots[..len][i]))
          == seq(len, i requires 0 <= i < len => Print(f.elem, slots[i]));
    case (FTable(_, _), VTable(entries)) => EntriesJoined(f, entries);
    case _ =>
  }

  lemma {:induction false} NoParts()
    ensures Ascii("()") == [LPAREN, RPAREN]
  {
  }
}
