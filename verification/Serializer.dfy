/** The serializer as the program runs it: recursive procedures that advance a cursor,
    append to a `GString`, write the object's memory in place and bump `forcelen`. Each
    computes the function of the same shape in `Printer`, `Skipper` and `Parser`. */
module Serializer {
  import opened Wrappers
  import opened Bytes
  import opened Schema
  import opened Skipper
  import opened Parser
  import opened Printer
  import opened Spelling

  /** An append buffer. */
  class GString {
    var str: seq<byte>

    constructor ()
      ensures str == []
    {
      str := [];
    }

    method Append(bytes: seq<byte>)
      modifies this
      ensures str == old(str) + bytes
    {
      str := str + bytes;
    }
  }

  /** `*forcelen`: the bytes taken by skipped values. */
  class Counter {
    var n: nat

    constructor ()
      ensures n == 0
    {
      n := 0;
    }
  }

  /* ---------- printing ---------- */

  /** `serialize_string_ex`. */
  method SerializeString(gstr: GString, v: Value, f: Format)
    modifies gstr
    ensures gstr.str == old(gstr.str) + Print(f, v)
    ensures Opens(f, gstr.str[|old(gstr.str)|..])
    decreases f, 3
  {
    hide PrintBody, Opens;
    PrintOpens(f, v);
    gstr.Append([f.Tag(), COLON]);
    if f.IsLeaf() {
      SerializeLeaf(gstr, v, f);
    } else {
      SerializeComposite(gstr, v, f);
    }
    assert gstr.str[|old(gstr.str)|..] == Print(f, v);
  }

  /** The object, array and table cases of `serialize_string_ex`. */
  method SerializeComposite(gstr: GString, v: Value, f: Format)
    requires !f.IsLeaf()
    modifies gstr
    ensures gstr.str == old(gstr.str) + PrintBody(f, v)
    decreases f, 2
  {
    hide PrintElems, PrintMembers, PrintEntries, Digits, Decimal, Live;
    match (f, v)
    case (FObj(_), VObj(vs)) =>
      gstr.Append([LBRACE]);
      SerializeStringObject(gstr, vs, f);
      gstr.Append([RBRACE]);
    case (FArr(elem), VArr(es)) => SerializeArray(gstr, |es|, es, elem);
    case (FFixArr(_, elem), VFixArr(len, slots)) => SerializeArray(gstr, len, Live(len, slots), elem);
    case (FTable(_, _), _) => SerializeHash(gstr, v, f);
    case _ =>
  }

  /** A table between its brackets; a null pointer prints as an empty one. */
  method SerializeHash(gstr: GString, v: Value, f: Format)
    requires f.FTable?
    modifies gstr
    ensures gstr.str == old(gstr.str) + PrintBody(f, v)
    decreases f, 1
  {
    hide PrintElems, PrintMembers, PrintEntries, Digits, Decimal, Live;
    if v.VTable? {
      gstr.Append([LPAREN]);
      SerializeTable(gstr, v.entries, f);
      gstr.Append([RPAREN]);
    } else if v.VNull? {
      gstr.Append([LPAREN]);
      gstr.Append([RPAREN]);
    }
  }

  method SerializeArray(gstr: GString, len: nat, es: seq<Value>, elem: Format)
    modifies gstr
    ensures gstr.str == old(gstr.str) + (Digits(len) + [LBRACKET] + PrintElems(elem, es) + [RBRACKET])
    decreases elem, 5
  {
    hide PrintElems, Digits;
    gstr.Append(Digits(len) + [LBRACKET]);
    SerializeElements(gstr, es, elem);
    gstr.Append([RBRACKET]);
  }

  /** The scalar and string cases of `serialize_string_ex`. */
  method SerializeLeaf(gstr: GString, v: Value, f: Format)
    requires f.IsLeaf()
    modifies gstr
    ensures gstr.str == old(gstr.str) + PrintBody(f, v)
  {
    hide Digits, Decimal;
    match (f, v)
    case (FBool, VBool(b)) => gstr.Append([if b then 49 else 48]); gstr.Append([SEMI]);
    case (FChar, VChar(c)) => gstr.Append([c]); gstr.Append([SEMI]);
    case (FInt(_), VInt(z)) => gstr.Append(Decimal(z)); gstr.Append([SEMI]);
    case (FStr, VStr(bytes)) => gstr.Append(Digits(|bytes|) + [COLON]); gstr.Append(bytes); gstr.Append([SEMI]);
    case (FFixStr(_), VFixStr(bytes)) => gstr.Append(Digits(|bytes|) + [COLON]); gstr.Append(bytes); gstr.Append([SEMI]);
    case _ =>
  }

  /** The element loop of arrays. */
  method SerializeElements(gstr: GString, es: seq<Value>, elem: Format)
    modifies gstr
    ensures gstr.str == old(gstr.str) + PrintElems(elem, es)
    decreases elem, 4
  {
    hide Print;
    for i := 0 to |es|
      invariant gstr.str + PrintElems(elem, es[i..]) == old(gstr.str) + PrintElems(elem, es)
    {
      assert es[i..][0] == es[i] && es[i..][1..] == es[i + 1..];
      SerializeString(gstr, es[i], elem);
    }
    assert es[|es|..] == [];
  }

  /** `serialize_string_object_ex`: the fields in schema order. */
  method SerializeStringObject(gstr: GString, vs: seq<Value>, f: Format)
    requires f.FObj?
    modifies gstr
    ensures gstr.str == old(gstr.str) + PrintMembers(f, vs, 0)
    decreases f, 0
  {
    hide Print, PrintKey;
    var i := 0;
    while i < |f.fields| && i < |vs|
      invariant 0 <= i
      invariant gstr.str + PrintMembers(f, vs, i) == old(gstr.str) + PrintMembers(f, vs, 0)
    {
      gstr.Append(PrintKey(f.fields[i].key));
      SerializeString(gstr, vs[i], f.fields[i].fmt);
      i := i + 1;
    }
  }

  /** `g_hash_table_foreach` with `_serialize_foreach_ht`. */
  method SerializeTable(gstr: GString, entries: seq<Entry>, f: Format)
    requires f.FTable?
    modifies gstr
    ensures gstr.str == old(gstr.str) + PrintEntries(f, entries)
    decreases f, 0
  {
    hide Print, PrintTableKey;
    for i := 0 to |entries|
      invariant gstr.str + PrintEntries(f, entries[i..]) == old(gstr.str) + PrintEntries(f, entries)
    {
      assert entries[i..][0] == entries[i] && entries[i..][1..] == entries[i + 1..];
      gstr.Append(PrintTableKey(entries[i].key));
      SerializeString(gstr, entries[i].val, f.elem);
    }
    assert entries[|entries|..] == [];
  }

  /* ---------- skipping ---------- */

  /** `_serialize_parse_force`. */
  method SerializeParseForce(s: seq<byte>, start: nat, announced: nat) returns (n: nat)
    requires announced < TWO32
    ensures n == Skip(s, start, announced)
    decreases Rem(s, start), 0
  {
    hide MemChr, SkipItems, StrToUl;
    var buffer := start;
    if announced < 2 {
      return 0;
    }
    var tag := Peek(s, buffer);
    if ScalarTag(tag) {
      var ptr := MemChr(s, buffer, SEMI, announced);
      if ptr == None {
        return 0;
      }
      buffer := ptr.value + 1;
    } else if tag == 115 || tag == 83 {
      var (n64, ptr) := StrToUl(s, buffer + 2);
      var len := n64 % 0x1_0000_0000;
      if (len + 1) % 0x1_0000_0000 > announced {
        return 0;
      }
      len := (ptr - buffer + len + 1) % 0x1_0000_0000;
      buffer := buffer + len;
      if Sub32(announced, len) < 1 || Peek(s, buffer) != SEMI {
        return 0;
      }
      buffer := buffer + 1;
    } else if Opener(tag) != NUL {
      var ptr := MemChr(s, buffer, Opener(tag), announced);
      if ptr == None {
        return 0;
      }
      buffer := ptr.value + 1;
      var end := ForceItems(s, buffer, Sub32(announced, buffer - start), Opener(tag), Closer(tag));
      if end == None {
        return 0;
      }
      buffer := end.value + 1;
    } else {
      return 0;
    }
    return buffer - start;
  }

  /** The bracket loop of `_serialize_parse_force`: objects and tables take their items in
      pairs, and the closing bracket may also come after the first of a pair. The end is
      the position of the closing bracket. */
  method ForceItems(s: seq<byte>, start: nat, announced: nat, open: byte, close: byte) returns (end: Option<nat>)
    requires announced < TWO32 && close != NUL
    ensures end == SkipItems(s, start, announced, close)
    decreases Rem(s, start), 1
  {
    hide Skip;
    var buffer: nat, buflen: nat := start, announced;
    while buflen > 0 && Peek(s, buffer) != close
      invariant start <= buffer && buflen < TWO32
      invariant SkipItems(s, buffer, buflen, close) == SkipItems(s, start, announced, close)
      decreases Rem(s, buffer)
    {
      var len := SerializeParseForce(s, buffer, buflen);
      if len == 0 {
        return None;
      }
      buffer := buffer + len;
      buflen := Sub32(buflen, len);
      if open == LBRACKET {
        continue;
      }
      if buflen == 0 || Peek(s, buffer) == close {
        break;
      }
      len := SerializeParseForce(s, buffer, buflen);
      if len == 0 {
        return None;
      }
      buffer := buffer + len;
      buflen := Sub32(buflen, len);
    }
    if buflen < 1 || Peek(s, buffer) != close {
      return None;
    }
    return Some(buffer);
  }

  /* ---------- parsing ---------- */

  /** `_serialize_parse` into `obj[at]`: consumed bytes, 0 on failure. On success the
      memory holds what `ParseVal` says and `forcelen` grew by the skipped bytes; other
      memory is never touched. */
  method SerializeParse(zeroed: bool, obj: array<Value>, at: nat, f: Format, s: seq<byte>, start: nat, announced: nat,
                        forcelen: Counter) returns (n: nat)
    requires at < obj.Length && announced < TWO32
    modifies obj, forcelen
    ensures var r := ParseVal(zeroed, s, f, old(obj[at]), start, announced);
            if r.Fail? then n == 0
            else n == r.n && obj[at] == r.v && forcelen.n == old(forcelen.n) + r.skipped
    ensures forall j :: 0 <= j < obj.Length && j != at ==> obj[j] == old(obj[j])
    ensures forcelen.n >= old(forcelen.n)
    decreases f, 3
  {
    hide ParseLeaf, ParseBody, Resync;
    var buffer, buflen := Resynchronise(s, f.Tag(), start, announced, forcelen);
    if buflen == 0 || Peek(s, buffer) != f.Tag() || Peek(s, buffer + 1) != COLON {
      return 0;
    }
    if f.IsLeaf() {
      var r := ParseLeaf(s, f, obj[at], start, buffer + 2, buflen);
      if r.Fail? {
        return 0;
      }
      obj[at] := r.v;
      n := r.n;
    } else {
      n := SerializeParseBody(zeroed, obj, at, f, s, start, buffer + 2, buflen, forcelen);
    }
  }

  /** The loop at the head of `_serialize_parse` that skips values of other types. */
  method Resynchronise(s: seq<byte>, tag: byte, start: nat, announced: nat, forcelen: Counter)
      returns (buffer: nat, buflen: nat)
    requires announced < TWO32 && tag != NUL
    modifies forcelen
    ensures forcelen.n >= old(forcelen.n)
    ensures Resync(s, tag, start, announced) == Sync(buffer, buflen, forcelen.n - old(forcelen.n)) && buflen < TWO32
  {
    hide Skip;
    buffer, buflen := start, announced;
    var skipped: nat := 0;
    while buflen > 0 && Peek(s, buffer) != tag
      invariant buflen < TWO32 && forcelen.n == old(forcelen.n) + skipped
      invariant var r := Resync(s, tag, buffer, buflen);
                Resync(s, tag, start, announced) == r.(skipped := skipped + r.skipped)
      decreases Rem(s, buffer)
    {
      var tmplen := SerializeParseForce(s, buffer, buflen);
      if tmplen == 0 {
        break;
      }
      buffer := buffer + tmplen;
      buflen := Sub32(buflen, tmplen);
      skipped := skipped + tmplen;
      forcelen.n := forcelen.n + tmplen;
    }
  }

  /** The composite cases of `_serialize_parse`, from behind the colon. */
  method SerializeParseBody(zeroed: bool, obj: array<Value>, at: nat, f: Format, s: seq<byte>, start: nat, q: nat,
                            buflen: nat, forcelen: Counter) returns (n: nat)
    requires at < obj.Length && !f.IsLeaf() && start < q && buflen < TWO32
    modifies obj, forcelen
    ensures var r := ParseBody(zeroed, s, f, old(obj[at]), start, q, buflen);
            if r.Fail? then n == 0
            else n == r.n && obj[at] == r.v && forcelen.n == old(forcelen.n) + r.skipped
    ensures forall j :: 0 <= j < obj.Length && j != at ==> obj[j] == old(obj[j])
    ensures forcelen.n >= old(forcelen.n)
    decreases f, 2
  {
    hide ParseObject, ParseArray, ParseEntries, StrChr;
    if f.FObj? {
      var open := StrChr(s, q, LBRACE);
      if open == None {
        return 0;
      }
      var d := open.value + 1;
      var members := Members(obj[at], |f.fields|);
      var memory := new Value[|members|](i requires 0 <= i < |members| => members[i]);
      assert memory[..] == members;
      var vallen := SerializeParseObject(zeroed, memory, f, s, d, buflen, forcelen);
      if vallen == 0 || Peek(s, d + vallen) != RBRACE {
        return 0;
      }
      obj[at] := VObj(memory[..]);
      n := d + vallen + 1 - start;
    } else if f.FTable? {
      var open := StrChr(s, q, LPAREN);
      if open == None || obj[at] != VNull {
        return 0;
      }
      var entries, end := SerializeParseTable(zeroed, f, s, open.value + 1, buflen, forcelen);
      if end == None || Peek(s, end.value) != RPAREN {
        return 0;
      }
      obj[at] := VTable(entries);
      n := end.value + 1 - start;
    } else {
      n := SerializeParseArray(zeroed, obj, at, f, s, start, q, buflen, forcelen);
    }
  }

  method SerializeParseArray(zeroed: bool, obj: array<Value>, at: nat, f: Format, s: seq<byte>, start: nat, q: nat,
                             buflen: nat, forcelen: Counter) returns (n: nat)
    requires at < obj.Length && (f.FArr? || f.FFixArr?) && start < q && buflen < TWO32
    modifies obj, forcelen
    ensures var r := ParseArray(zeroed, s, f, old(obj[at]), start, q, buflen);
            if r.Fail? then n == 0
            else n == r.n && obj[at] == r.v && forcelen.n == old(forcelen.n) + r.skipped
    ensures forall j :: 0 <= j < obj.Length && j != at ==> obj[j] == old(obj[j])
    ensures forcelen.n >= old(forcelen.n)
    decreases f, 1
  {
    hide StrChr, StrToUl, ParseElems, Zero;
    var (n64, e) := StrToUl(s, q);
    var vallen := n64 % 0x1_0000_0000;
    var open := StrChr(s, e, LBRACKET);
    if open == None {
      return 0;
    }
    var d := open.value + 1;
    if vallen == 0 {
      return d + 1 - start;
    }
    if buflen - (d - start) < vallen || (f.FArr? && obj[at] != VArr([])) {
      return 0;
    }
    var slots := if f.FArr? then Blank(vallen, Zero(f.elem)) else Slots(obj[at], f.cap);
    var count := if vallen < |slots| then vallen else |slots|;
    var memory := new Value[|slots|](i requires 0 <= i < |slots| => slots[i]);
    assert memory[..] == slots;
    var end := SerializeParseElements(zeroed, memory, count, f.elem, s, d, buflen, forcelen);
    if end == None || Peek(s, end.value) != RBRACKET {
      return 0;
    }
    obj[at] := if f.FArr? then VArr(memory[..]) else VFixArr(count, memory[..]);
    n := end.value + 1 - start;
  }

  lemma {:induction false} NoneSkipped<T>(r: Loop<T>)
    ensures More(0, r) == r
  {
  }

  /** One entry joins those already parsed. */
  lemma {:induction false} EntryStep(zeroed: bool, s: seq<byte>, f: Format, entries: seq<Entry>, q: nat, b: nat, skipped: nat)
    requires f.FTable? && b > 0 && Peek(s, q) != RPAREN
    ensures var m := ParseEntry(zeroed, s, f, entries, q, b);
            More(skipped, ParseEntries(zeroed, s, f, entries, q, b)) ==
            if m.Stop? then Stop
            else More(skipped + m.skipped, ParseEntries(zeroed, s, f, m.parts, m.q, Sub32(b, m.q - q)))
  {
    hide ParseEntry, Sub32, Peek;
  }

  lemma {:induction false} EntriesEnd(zeroed: bool, s: seq<byte>, f: Format, entries: seq<Entry>, q: nat, b: nat, skipped: nat)
    requires f.FTable? && !(b > 0 && Peek(s, q) != RPAREN)
    ensures More(skipped, ParseEntries(zeroed, s, f, entries, q, b)) == Reached(q, entries, skipped)
  {
    hide ParseEntry, Sub32, Peek;
  }

  /** One field joins those already parsed. */
  lemma {:induction false} MemberStep(zeroed: bool, s: seq<byte>, f: Format, ts: seq<Value>, q: nat, b: nat, skipped: nat)
    requires f.FObj? && |ts| == |f.fields|
    requires b > 2 && Peek(s, q) == 115 && Peek(s, q + 1) == COLON
    ensures var m := ParseMember(zeroed, s, f, ts, q, b);
            More(skipped, ParseObject(zeroed, s, f, ts, q, b)) ==
            if m.Stop? then Stop
            else More(skipped + m.skipped, ParseObject(zeroed, s, f, m.parts, m.q, Sub32(b, m.q - q)))
  {
    hide ParseMember, Sub32, Peek;
  }

  lemma {:induction false} MembersEnd(zeroed: bool, s: seq<byte>, f: Format, ts: seq<Value>, q: nat, b: nat, skipped: nat)
    requires f.FObj? && |ts| == |f.fields| && !(b > 2 && Peek(s, q) == 115 && Peek(s, q + 1) == COLON)
    ensures More(skipped, ParseObject(zeroed, s, f, ts, q, b)) == Reached(q, ts, skipped)
  {
    hide ParseMember, Sub32, Peek;
  }

  /** One element joins those already parsed. */
  lemma {:induction false} ElementStep(zeroed: bool, s: seq<byte>, e: Format, slots: seq<Value>, i: nat, n: nat, q: nat, b: nat,
                                       skipped: nat)
    requires i < n <= |slots|
    ensures var r := ParseVal(zeroed, s, e, slots[i], q, b);
            More(skipped, ParseElems(zeroed, s, e, slots, i, n, q, b)) ==
            if r.Fail? then Stop
            else More(skipped + r.skipped, ParseElems(zeroed, s, e, slots[i := r.v], i + 1, n, q + r.n, Sub32(b, r.n)))
  {
    hide ParseVal, Sub32;
  }

  lemma {:induction false} ElementsEnd(zeroed: bool, s: seq<byte>, e: Format, slots: seq<Value>, n: nat, q: nat, b: nat, skipped: nat)
    requires n <= |slots|
    ensures More(skipped, ParseElems(zeroed, s, e, slots, n, n, q, b)) == Reached(q, slots, skipped)
  {
  }

  /** The element loop: the first `count` slots, one after the other, in place. */
  method SerializeParseElements(zeroed: bool, memory: array<Value>, count: nat, elem: Format, s: seq<byte>, start: nat,
                                announced: nat, forcelen: Counter) returns (end: Option<nat>)
    requires count <= memory.Length && announced < TWO32
    modifies memory, forcelen
    ensures forcelen.n >= old(forcelen.n)
    ensures var r := ParseElems(zeroed, s, elem, old(memory[..]), 0, count, start, announced);
            if r.Stop? then end == None
            else end == Some(r.q) && memory[..] == r.parts && forcelen.n == old(forcelen.n) + r.skipped
    decreases elem, 4
  {
    hide ParseVal, ParseElems, Sub32, More;
    NoneSkipped(ParseElems(zeroed, s, elem, memory[..], 0, count, start, announced));
    var buffer: nat, buflen: nat := start, announced;
    ghost var all := ParseElems(zeroed, s, elem, memory[..], 0, count, start, announced);
    ghost var skipped: nat := 0;
    var i := 0;
    while i < count
      invariant i <= count && buflen < TWO32
      invariant forcelen.n == old(forcelen.n) + skipped
      invariant all == More(skipped, ParseElems(zeroed, s, elem, memory[..], i, count, buffer, buflen))
    {
      ghost var before, counted := memory[..], forcelen.n;
      ElementStep(zeroed, s, elem, before, i, count, buffer, buflen, skipped);
      var tmplen := SerializeParse(zeroed, memory, i, elem, s, buffer, buflen, forcelen);
      if tmplen == 0 {
        return None;
      }
      assert memory[..] == before[i := memory[i]];
      skipped := skipped + (forcelen.n - counted);
      buffer := buffer + tmplen;
      buflen := Sub32(buflen, tmplen);
      i := i + 1;
    }
    ElementsEnd(zeroed, s, elem, memory[..], count, buffer, buflen, skipped);
    return Some(buffer);
  }

  /** `_serialize_parse_object` into the members `obj`; 0 is failure or no field. */
  method SerializeParseObject(zeroed: bool, obj: array<Value>, f: Format, s: seq<byte>, start: nat, announced: nat,
                              forcelen: Counter) returns (n: nat)
    requires f.FObj? && obj.Length == |f.fields| && announced < TWO32
    modifies obj, forcelen
    ensures forcelen.n >= old(forcelen.n)
    ensures var r := ParseObject(zeroed, s, f, old(obj[..]), start, announced);
            if r.Stop? then n == 0
            else n == r.q - start && obj[..] == r.parts && forcelen.n == old(forcelen.n) + r.skipped
    decreases f, 1
  {
    hide ParseMember, ParseObject, More, Sub32;
    NoneSkipped(ParseObject(zeroed, s, f, obj[..], start, announced));
    var buffer: nat, buflen: nat := start, announced;
    ghost var all := ParseObject(zeroed, s, f, obj[..], start, announced);
    ghost var skipped: nat := 0;
    while buflen > 2 && Peek(s, buffer) == 115 && Peek(s, buffer + 1) == COLON
      invariant start <= buffer && buflen < TWO32
      invariant forcelen.n == old(forcelen.n) + skipped
      invariant all == More(skipped, ParseObject(zeroed, s, f, obj[..], buffer, buflen))
      decreases Rem(s, buffer)
    {
      ghost var counted := forcelen.n;
      MemberStep(zeroed, s, f, obj[..], buffer, buflen, skipped);
      var tmplen := SerializeParseMember(zeroed, obj, f, s, buffer, buflen, forcelen);
      if tmplen == 0 {
        return 0;
      }
      skipped := skipped + (forcelen.n - counted);
      buffer := buffer + tmplen;
      buflen := Sub32(buflen, tmplen);
    }
    MembersEnd(zeroed, s, f, obj[..], buffer, buflen, skipped);
    n := buffer - start;
  }

  /** One round of the object loop: a key and its value. */
  method SerializeParseMember(zeroed: bool, obj: array<Value>, f: Format, s: seq<byte>, start: nat, announced: nat,
                              forcelen: Counter) returns (n: nat)
    requires f.FObj? && obj.Length == |f.fields| && announced < TWO32
    modifies obj, forcelen
    ensures forcelen.n >= old(forcelen.n)
    ensures var r := ParseMember(zeroed, s, f, old(obj[..]), start, announced);
            if r.Stop? then n == 0
            else n > 0 && r == Reached(start + n, obj[..], forcelen.n - old(forcelen.n))
    decreases f, 0
  {
    hide ParseVal, ParseKey, Skip, Lookup;
    var parsed := ParseKey(s, start, announced);
    if parsed == None {
      return 0;
    }
    var (key, d) := parsed.value;
    var buflen := Sub32(announced, d - start);
    var i := Lookup(f.fields, key);
    if i == -1 {
      n := SerializeParseForce(s, d, buflen);
      if n == 0 {
        return 0;
      }
      n := d + n - start;
      forcelen.n := forcelen.n + n;
    } else {
      n := SerializeParse(zeroed, obj, i, f.fields[i].fmt, s, d, buflen, forcelen);
      if n == 0 {
        return 0;
      }
      n := d + n - start;
      assert obj[..] == old(obj[..])[i := obj[i]];
    }
  }

  /** The entry loop of a hash table; `end` is where it stopped, `None` on failure. */
  method SerializeParseTable(zeroed: bool, f: Format, s: seq<byte>, start: nat, announced: nat, forcelen: Counter)
      returns (entries: seq<Entry>, end: Option<nat>)
    requires f.FTable? && announced < TWO32
    modifies forcelen
    ensures forcelen.n >= old(forcelen.n)
    ensures var r := ParseEntries(zeroed, s, f, [], start, announced);
            if r.Stop? then end == None
            else end == Some(r.q) && entries == r.parts && forcelen.n == old(forcelen.n) + r.skipped
    decreases f, 1
  {
    hide ParseEntry, ParseEntries, More, Sub32;
    NoneSkipped(ParseEntries(zeroed, s, f, [], start, announced));
    var buffer: nat, buflen: nat := start, announced;
    entries := [];
    ghost var all := ParseEntries(zeroed, s, f, entries, start, announced);
    ghost var skipped: nat := 0;
    while buflen > 0 && Peek(s, buffer) != RPAREN
      invariant start <= buffer && buflen < TWO32
      invariant forcelen.n == old(forcelen.n) + skipped
      invariant all == More(skipped, ParseEntries(zeroed, s, f, entries, buffer, buflen))
      decreases Rem(s, buffer)
    {
      ghost var counted := forcelen.n;
      EntryStep(zeroed, s, f, entries, buffer, buflen, skipped);
      var tmplen;
      entries, tmplen := SerializeParseEntry(zeroed, entries, f, s, buffer, buflen, forcelen);
      if tmplen == 0 {
        return [], None;
      }
      skipped := skipped + (forcelen.n - counted);
      buffer := buffer + tmplen;
      buflen := Sub32(buflen, tmplen);
    }
    EntriesEnd(zeroed, s, f, entries, buffer, buflen, skipped);
    return entries, Some(buffer);
  }

  /** One round of the entry loop: a key, fresh memory for the value, and the value. */
  method SerializeParseEntry(zeroed: bool, entries: seq<Entry>, f: Format, s: seq<byte>, start: nat, announced: nat,
                             forcelen: Counter) returns (grown: seq<Entry>, n: nat)
    requires f.FTable? && announced < TWO32
    modifies forcelen
    ensures forcelen.n >= old(forcelen.n)
    ensures var r := ParseEntry(zeroed, s, f, entries, start, announced);
            if r.Stop? then n == 0
            else n > 0 && r == Reached(start + n, grown, forcelen.n - old(forcelen.n))
    decreases f, 0
  {
    hide ParseVal, ParseEntryKey, Insert, HashInit;
    var parsed := ParseEntryKey(s, f.isint, entries, start, announced);
    if parsed == None {
      return entries, 0;
    }
    var (key, d, k) := parsed.value;
    forcelen.n := forcelen.n + k;
    var hval := new Value[1](_ => HashInit(zeroed, f.elem));
    n := SerializeParse(zeroed, hval, 0, f.elem, s, d, Sub32(announced, d - start), forcelen);
    if n == 0 {
      return entries, 0;
    }
    grown := Insert(entries, key, hval[0]);
    n := d + n - start;
  }
}
