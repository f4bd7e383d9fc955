/** The format trees of `serialize.h` and the C objects they describe. */
module Schema {
  import opened Bytes

  /** The eight integer types and their tags. `char` is signed, as on x86. */
  datatype IntKind = Byte | UByte | Short | UShort | Int | UInt | Long | ULong {
    function Tag(): byte {
      match this
      case Byte => 121
      case UByte => 89
      case Short => 116
      case UShort => 84
      case Int => 105
      case UInt => 73
      case Long => 108
      case ULong => 76
    }

    predicate IsSigned() { Byte? || Short? || Int? || Long? }

    /** Number of values of the type. */
    function Span(): nat {
      match this
      case Byte | UByte => 0x100
      case Short | UShort => 0x1_0000
      case Int | UInt => TWO32
      case Long | ULong => TWO64
    }

    predicate Holds(z: int) {
      if IsSigned() then -(Span() / 2) <= z < Span() / 2 else 0 <= z < Span()
    }

    /** Conversion of a wider integer on assignment: wrap-around. */
    function Wrap(z: int): (r: int)
      ensures Holds(r)
      ensures Holds(z) ==> r == z
    {
      var u := z % Span();
      if IsSigned() && u >= Span() / 2 then u - Span() else u
    }

    /** What the parser stores for a number with the given sign and magnitude:
        `strtol` or `strtoul`, then truncation to the field. */
    function Store(neg: bool, m: nat): (r: int)
      ensures Holds(r)
      ensures Holds(Signed(neg, m)) ==> r == Signed(neg, m)
    {
      if IsSigned() then Wrap(ClampLong(Signed(neg, m))) else Wrap(ClampULong(neg, m))
    }
  }

  datatype Format =
    | FBool
    | FChar
    | FInt(kind: IntKind)
    | FStr                                 // dynamic string
    | FFixStr(cap: nat)                    // fixed string: at most cap bytes
    | FObj(fields: seq<Field>)
    | FArr(elem: Format)                   // dynamic array
    | FFixArr(cap: nat, elem: Format)      // fixed array: cap slots
    | FTable(isint: bool, elem: Format)    // hash table
  {
    function Tag(): byte {
      match this
      case FBool => 98
      case FChar => 99
      case FInt(k) => k.Tag()
      case FStr => 115
      case FFixStr(_) => 83
      case FObj(_) => 111
      case FArr(_) => 97
      case FFixArr(_, _) => 65
      case FTable(_, _) => 104
    }

    predicate IsLeaf() { FBool? || FChar? || FInt? || FStr? || FFixStr? }
  }

  datatype Field = Field(key: seq<byte>, fmt: Format)

  datatype Key = IntKey(i: nat) | StrKey(s: seq<byte>)

  datatype Entry = Entry(key: Key, val: Value)

  /** The contents of the memory a format describes. A dynamic string or array is a
      null pointer exactly when it is empty; a table is listed in the order a walk
      visits it. `VUninit` is memory straight from `malloc`. */
  datatype Value =
    | VBool(b: bool)
    | VChar(c: byte)
    | VInt(z: int)
    | VStr(bytes: seq<byte>)
    | VFixStr(bytes: seq<byte>)
    | VObj(vs: seq<Value>)
    | VArr(es: seq<Value>)
    | VFixArr(len: nat, slots: seq<Value>)
    | VNull                                // table pointer not set
    | VTable(entries: seq<Entry>)
    | VUninit

  /** Zeroed memory of a format. */
  function Zero(f: Format): Value {
    match f
    case FBool => VBool(false)
    case FChar => VChar(NUL)
    case FInt(_) => VInt(0)
    case FStr => VStr([])
    case FFixStr(_) => VFixStr([])
    case FObj(fields) => VObj(seq(|fields|, i requires 0 <= i < |fields| => Zero(fields[i].fmt)))
    case FArr(_) => VArr([])
    case FFixArr(cap, elem) => VFixArr(0, Blank(cap, Zero(elem)))
    case FTable(_, _) => VNull
  }

  function Blank(n: nat, v: Value): (r: seq<Value>)
    ensures |r| == n
    ensures forall i :: 0 <= i < n ==> r[i] == v
  {
    seq(n, _ => v)
  }

  /** Fresh memory for a hash-table value: `malloc` leaves it undefined unless the
      allocator happens to zero it. */
  function HashInit(zeroed: bool, f: Format): Value {
    if zeroed then Zero(f) else VUninit
  }

  /** The members of an object's memory, the slots of a fixed array's. */
  function Members(t: Value, n: nat): (r: seq<Value>)
    ensures |r| == n
  {
    if t.VObj? && |t.vs| == n then t.vs else Blank(n, VUninit)
  }

  function Slots(t: Value, n: nat): (r: seq<Value>)
    ensures |r| == n
  {
    if t.VFixArr? && |t.slots| == n then t.slots else Blank(n, VUninit)
  }

  /** A C string ends at its first NUL. */
  function CStr(s: seq<byte>): (r: seq<byte>)
    ensures NUL !in s ==> r == s
    ensures NUL !in r && r <= s
  {
    if s == [] || s[0] == NUL then [] else [s[0]] + CStr(s[1..])
  }

  /** `find_serialize_format`: a later field replaces an earlier one of the same name. */
  function Lookup(fields: seq<Field>, key: seq<byte>): (r: int)
    ensures -1 <= r < |fields|
    ensures r >= 0 ==> fields[r].key == key
    ensures r == -1 ==> forall i :: 0 <= i < |fields| ==> fields[i].key != key
    ensures forall i :: r < i < |fields| ==> fields[i].key != key
  {
    if fields == [] then -1
    else if fields[|fields| - 1].key == key then |fields| - 1
    else Lookup(fields[..|fields| - 1], key)
  }

  /** `g_hash_table_insert`: an equal key keeps its place and gets the new value. */
  function Insert(entries: seq<Entry>, key: Key, v: Value): (r: seq<Entry>)
    ensures (forall e <- entries :: e.key != key) ==> r == entries + [Entry(key, v)]
  {
    if entries == [] then [Entry(key, v)]
    else if entries[0].key == key then [Entry(key, v)] + entries[1..]
    else [entries[0]] + Insert(entries[1..], key, v)
  }
}
