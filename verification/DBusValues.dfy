/** Values of any type on their way into and out of D-Bus messages.

    A string-keyed map is given by its entries in increasing order of keys, which is how it is
    visited. A text is its octets; a floating-point number is the real number it denotes.
 */
module DBusValues {
  import opened Options
  import opened Spinel

  type Text = seq<Byte>

  datatype Entry = Entry(key: Text, value: Any)

  datatype Dict = Dict(entries: seq<Entry>)

  datatype Any =
    | Empty
    | Str(text: Text)
    | CharPtr(text: Text)
    | Bool(flag: bool)
    | UInt8(n: int) | Int8(n: int)
    | UInt16(n: int) | Int16(n: int)
    | UInt32(n: int) | Int32(n: int)
    | UInt64(n: int) | Int64(n: int)
    | Double(x: real)
    | Float(x: real)
    | Data(data: seq<Byte>)
    | ByteVector(data: seq<Byte>)
    | StringList(texts: seq<Text>)
    | StringSet(texts: seq<Text>)
    | IntSet(numbers: seq<int>)
    | ValueMap(entries: seq<Entry>)
    | ValueMapList(maps: seq<Dict>)
    | Unsupported

  // What lies in a message. A variant carries the signature declared for it.
  datatype Wire =
    | WString(text: Text)
    | WBoolean(flag: bool)
    | WByte(n: int)
    | WInt16(n: int) | WUInt16(n: int)
    | WInt32(n: int) | WUInt32(n: int)
    | WInt64(n: int) | WUInt64(n: int)
    | WDouble(x: real)
    | WVariant(declared: string, inner: Wire)
    | WArray(of: string, elements: seq<Wire>)
    | WDictEntry(key: Wire, value: Wire)

  const DICT_ENTRY := "{sv}"
  const DICT := "a{sv}"

  /* Writing. No result means that an exception was thrown. */

  // any_to_dbus_type_string
  function TypeString(v: Any): string {
    match v
    case Str(_) => "s"
    case Bool(_) => "b"
    case UInt8(_) => "y"
    case Int8(_) => "n"
    case UInt16(_) => "q"
    case Int16(_) => "n"
    case UInt32(_) => "u"
    case Int32(_) => "i"
    case UInt64(_) => "t"
    case Int64(_) => "x"
    case Double(_) => "d"
    case Float(_) => "d"
    case Data(_) => "ay"
    case ByteVector(_) => "ay"
    case StringList(_) => "as"
    case StringSet(_) => "as"
    case ValueMap(_) => DICT
    case ValueMapList(_) => "a" + DICT
    case _ => ""
  }

  function ByteWires(data: seq<Byte>): seq<Wire> {
    seq(|data|, i requires 0 <= i < |data| => WByte(data[i]))
  }

  function TextWires(texts: seq<Text>): seq<Wire> {
    seq(|texts|, i requires 0 <= i < |texts| => WString(CString(texts[i])))
  }

  function IntWires(numbers: seq<int>): seq<Wire> {
    seq(|numbers|, i requires 0 <= i < |numbers| => WInt32(numbers[i]))
  }

  // append_any_to_dbus_iter
  function Write(v: Any): Option<Wire>
    decreases v, 1
  {
    match v
    case Empty => None
    case Unsupported => None
    case Str(s) => Some(WString(CString(s)))
    case CharPtr(s) => Some(WString(CString(s)))
    case Bool(b) => Some(WBoolean(b))
    case UInt8(n) => Some(WByte(n))
    case Int8(n) => Some(WInt16(n))
    case UInt16(n) => Some(WUInt16(n))
    case Int16(n) => Some(WInt16(n))
    case UInt32(n) => Some(WUInt32(n))
    case Int32(n) => Some(WInt32(n))
    case UInt64(n) => Some(WUInt64(n))
    case Int64(n) => Some(WInt64(n))
    case Double(x) => Some(WDouble(x))
    case Float(x) => Some(WDouble(x))
    case Data(d) => Some(WArray("y", ByteWires(d)))
    case ByteVector(d) => Some(WArray("y", ByteWires(d)))
    case StringList(l) => Some(WArray("s", TextWires(l)))
    case StringSet(l) => Some(WArray("s", TextWires(l)))
    case IntSet(l) => Some(WArray("i", IntWires(l)))
    case ValueMap(entries) => WriteMap(entries)
    case ValueMapList(maps) =>
      var ws := WriteMaps(maps);
      if ws.Some? then Some(WArray(DICT, ws.value)) else None
  }

  function WriteMap(entries: seq<Entry>): Option<Wire>
    decreases entries, 1
  {
    var ws := WriteEntries(entries);
    if ws.Some? then Some(WArray(DICT_ENTRY, ws.value)) else None
  }

  // append_dict_entry for each
  function WriteEntries(entries: seq<Entry>): Option<seq<Wire>>
    decreases entries, 0
  {
    if entries == [] then Some([])
    else
      var e := entries[0];
      var w, rest := Write(e.value), WriteEntries(entries[1..]);
      if w.Some? && rest.Some?
      then Some([WDictEntry(WString(CString(e.key)), WVariant(TypeString(e.value), w.value))] + rest.value)
      else None
  }

  function WriteMaps(maps: seq<Dict>): Option<seq<Wire>>
    decreases maps, 0
  {
    if maps == [] then Some([])
    else
      var w, rest := WriteMap(maps[0].entries), WriteMaps(maps[1..]);
      if w.Some? && rest.Some? then Some([w.value] + rest.value) else None
  }

  /* Reading. */

  // The signature of what is actually there.
  function Signature(w: Wire): string {
    match w
    case WString(_) => "s"
    case WBoolean(_) => "b"
    case WByte(_) => "y"
    case WInt16(_) => "n"
    case WUInt16(_) => "q"
    case WInt32(_) => "i"
    case WUInt32(_) => "u"
    case WInt64(_) => "x"
    case WUInt64(_) => "t"
    case WDouble(_) => "d"
    case WVariant(_, _) => "v"
    case WArray(of, _) => "a" + of
    case WDictEntry(key, value) => "{" + Signature(key) + Signature(value) + "}"
  }

  // The order of keys.
  predicate Before(a: Text, b: Text) {
    b != [] && (a == [] || a[0] < b[0] || (a[0] == b[0] && Before(a[1..], b[1..])))
  }

  // map[key] = value
  function Put(entries: seq<Entry>, key: Text, value: Any): seq<Entry> {
    if entries == [] || Before(key, entries[0].key) then [Entry(key, value)] + entries
    else if entries[0].key == key then [Entry(key, value)] + entries[1..]
    else [entries[0]] + Put(entries[1..], key, value)
  }

  predicate AllBytes(ws: seq<Wire>) {
    forall i :: 0 <= i < |ws| ==> ws[i].WByte? && 0 <= ws[i].n < 0x100
  }

  function BytesOf(ws: seq<Wire>): seq<Byte>
    requires AllBytes(ws)
  {
    seq(|ws|, i requires 0 <= i < |ws| => ws[i].n)
  }

  // any_from_dbus_iter: an array is looked at through its first element, and one that is neither
  // bytes nor a dictionary, or has no elements at all, is read as nothing. What is inside a variant
  // is read by its declared signature, so nothing comes of one that was declared as something else.
  function Read(w: Wire): Option<Any>
    decreases w, 1
  {
    match w
    case WString(s) => Some(Str(s))
    case WBoolean(b) => Some(Bool(b))
    case WByte(n) => Some(UInt8(n))
    case WInt16(n) => Some(Int16(n))
    case WUInt16(n) => Some(UInt16(n))
    case WInt32(n) => Some(Int32(n))
    case WUInt32(n) => Some(UInt32(n))
    case WInt64(n) => Some(Int64(n))
    case WUInt64(n) => Some(UInt64(n))
    case WDouble(x) => Some(Double(x))
    case WVariant(declared, inner) => if declared == Signature(inner) then Read(inner) else None
    case WArray(_, elements) =>
      if elements != [] && elements[0].WByte? && AllBytes(elements) then Some(Data(BytesOf(elements)))
      else if elements != [] && elements[0].WDictEntry? then
        var entries := ReadEntries([], elements);
        if entries.Some? then Some(ValueMap(entries.value)) else None
      else Some(Empty)
    case WDictEntry(_, _) => Some(Empty)
  }

  // value_map_from_dbus_iter, on top of what has been read already
  function ReadEntries(sofar: seq<Entry>, ws: seq<Wire>): Option<seq<Entry>>
    decreases ws, 0
  {
    if ws == [] then Some(sofar)
    else
      match ws[0]
      case WDictEntry(WString(key), v) =>
        assert v < ws[0];
        var value := Read(v);
        if value.None? then None else ReadEntries(Put(sofar, key, value.value), ws[1..])
      case _ => None
  }

  // No C string and no set of int as the value of a map entry: those have no declared signature.
  predicate Declarable(v: Any) {
    !v.CharPtr? && !v.IntSet?
  }

  // All entries of the value, if it is a map, and of the maps that are entries of it are declarable.
  // Lists of maps are not looked into by the reader.
  predicate Readable(v: Any)
    decreases v, 1
  {
    v.ValueMap? ==> ReadableEntries(v.entries)
  }

  predicate ReadableEntries(entries: seq<Entry>)
    decreases entries, 0
  {
    entries == [] ||
    (Declarable(entries[0].value) && Readable(entries[0].value) && ReadableEntries(entries[1..]))
  }

  lemma {:induction false} TypeStringIsSignature(v: Any)
    requires Write(v).Some?
    ensures TypeString(v) == Signature(Write(v).value) <==> Declarable(v)
  {
  }

  /* What a written value consists of. */

  // A list of texts, of numbers or of bytes is written element by element, in order.
  lemma WrittenLists(v: Any)
    ensures v.StringList? || v.StringSet? ==>
      && Write(v).Some? && Write(v).value.WArray? && Write(v).value.of == "s"
      && |Write(v).value.elements| == |v.texts|
      && forall i :: 0 <= i < |v.texts| ==> Write(v).value.elements[i] == WString(CString(v.texts[i]))
    ensures v.IntSet? ==>
      && Write(v).Some? && Write(v).value.WArray? && Write(v).value.of == "i"
      && |Write(v).value.elements| == |v.numbers|
      && forall i :: 0 <= i < |v.numbers| ==> Write(v).value.elements[i] == WInt32(v.numbers[i])
    ensures v.Data? || v.ByteVector? ==>
      && Write(v).Some? && Write(v).value.WArray? && Write(v).value.of == "y"
      && |Write(v).value.elements| == |v.data|
      && forall i :: 0 <= i < |v.data| ==> Write(v).value.elements[i] == WByte(v.data[i])
  {
  }

  // A map is written entry by entry, in order: the key, and the value in a variant.
  lemma WrittenMap(entries: seq<Entry>)
    requires Write(ValueMap(entries)).Some?
    ensures var w := Write(ValueMap(entries)).value;
      && w.WArray? && w.of == "{sv}" && |w.elements| == |entries|
      && forall i :: 0 <= i < |entries| ==>
        && Write(entries[i].value).Some?
        && w.elements[i] == WDictEntry(
             WString(CString(entries[i].key)), WVariant(TypeString(entries[i].value), Write(entries[i].value).value))
  {
    WrittenEntries(entries);
  }

  lemma {:induction false} WrittenEntries(entries: seq<Entry>)
    requires WriteEntries(entries).Some?
    ensures var ws := WriteEntries(entries).value;
      && |ws| == |entries|
      && forall i :: 0 <= i < |entries| ==>
        && Write(entries[i].value).Some?
        && ws[i] == WDictEntry(
             WString(CString(entries[i].key)), WVariant(TypeString(entries[i].value), Write(entries[i].value).value))
    decreases |entries|
  {
    if entries != [] {
      WrittenEntries(entries[1..]);
      forall i | 1 <= i < |entries| ensures entries[i] == entries[1..][i - 1] {}
    }
  }

  // A list of maps is written map by map, in order, each as it would be on its own.
  lemma WrittenMapList(maps: seq<Dict>)
    requires Write(ValueMapList(maps)).Some?
    ensures var w := Write(ValueMapList(maps)).value;
      && w.WArray? && w.of == "a{sv}" && |w.elements| == |maps|
      && forall i :: 0 <= i < |maps| ==> Write(ValueMap(maps[i].entries)) == Some(w.elements[i])
  {
    WrittenMaps(maps);
  }

  lemma {:induction false} WrittenMaps(maps: seq<Dict>)
    requires WriteMaps(maps).Some?
    ensures var ws := WriteMaps(maps).value;
      |ws| == |maps| && forall i :: 0 <= i < |maps| ==> Write(ValueMap(maps[i].entries)) == Some(ws[i])
    decreases |maps|
  {
    if maps != [] {
      WrittenMaps(maps[1..]);
      forall i | 1 <= i < |maps| ensures maps[i] == maps[1..][i - 1] {}
    }
  }

  /* What comes back of a value. */

  function Back(v: Any): Any
    decreases v, 1
  {
    match v
    case Str(s) => Str(CString(s))
    case CharPtr(s) => Str(CString(s))
    case Int8(n) => Int16(n)
    case Float(x) => Double(x)
    case Data(d) => if d == [] then Empty else v
    case ByteVector(d) => if d == [] then Empty else Data(d)
    case StringList(_) => Empty
    case StringSet(_) => Empty
    case IntSet(_) => Empty
    case ValueMapList(_) => Empty
    case ValueMap(entries) => if entries == [] then Empty else ValueMap(BackEntries([], entries))
    case _ => v
  }

  function BackEntries(sofar: seq<Entry>, entries: seq<Entry>): seq<Entry>
    decreases entries, 0
  {
    if entries == [] then sofar
    else BackEntries(Put(sofar, CString(entries[0].key), Back(entries[0].value)), entries[1..])
  }

  lemma {:induction false} ReadWrittenBytes(v: Any)
    requires v.Data? || v.ByteVector?
    ensures Read(Write(v).value) == Some(Back(v))
  {
    assert BytesOf(ByteWires(v.data)) == v.data;
  }

  lemma {:induction false} ReadWrittenList(v: Any)
    requires v.StringList? || v.StringSet? || v.IntSet? || (v.ValueMapList? && Write(v).Some?)
    ensures Read(Write(v).value) == Some(Back(v))
  {
    if v.ValueMapList? && v.maps != [] { assert WriteMaps(v.maps).value[0].WArray?; }
  }

  // Whatever can be written is read back as this, and not at all if an entry that the reader meets is
  // not declarable.
  lemma {:induction false} ReadWritten(v: Any)
    requires Write(v).Some?
    ensures Read(Write(v).value) == if Readable(v) then Some(Back(v)) else None
    decreases v, 1
  {
    if v.Data? || v.ByteVector? {
      ReadWrittenBytes(v);
    } else if v.StringList? || v.StringSet? || v.IntSet? || v.ValueMapList? {
      ReadWrittenList(v);
    } else if v.ValueMap? {
      ReadWrittenEntries([], v.entries);
    }
  }

  lemma {:induction false} ReadWrittenVariant(v: Any)
    requires Write(v).Some?
    ensures Read(WVariant(TypeString(v), Write(v).value))
         == if Declarable(v) && Readable(v) then Some(Back(v)) else None
    decreases v, 2
  {
    TypeStringIsSignature(v);
    ReadWritten(v);
  }

  lemma {:induction false} ReadWrittenEntries(sofar: seq<Entry>, entries: seq<Entry>)
    requires WriteEntries(entries).Some?
    ensures ReadEntries(sofar, WriteEntries(entries).value)
         == if ReadableEntries(entries) then Some(BackEntries(sofar, entries)) else None
    decreases entries, 0
  {
    if entries != [] {
      var v := entries[0].value;
      ReadWrittenVariant(v);
      var ws := WriteEntries(entries).value;
      assert ws[0] == WDictEntry(WString(CString(entries[0].key)), WVariant(TypeString(v), Write(v).value));
      assert ws[1..] == WriteEntries(entries[1..]).value;
      ReadWrittenEntries(Put(sofar, CString(entries[0].key), Back(v)), entries[1..]);
    }
  }

  /* When the value itself comes back. */

  ghost predicate Sorted(entries: seq<Entry>) {
    forall i, j :: 0 <= i < j < |entries| ==> Before(entries[i].key, entries[j].key)
  }

  // Maps are sorted, at every level.
  ghost predicate WellFormed(v: Any)
    decreases v, 1
  {
    v.ValueMap? ==> WellFormedEntries(v.entries)
  }

  ghost predicate WellFormedEntries(entries: seq<Entry>)
    decreases entries, 0
  {
    Sorted(entries) && forall e :: e in entries ==> WellFormed(e.value)
  }

  // Built from texts without zeros, flags, numbers other than int8_t and float, non-empty data and
  // non-empty maps.
  predicate Stable(v: Any)
    decreases v, 1
  {
    match v
    case Str(s) => NulFree(s)
    case Data(d) => d != []
    case ValueMap(entries) => entries != [] && StableEntries(entries)
    case CharPtr(_) => false
    case Int8(_) => false
    case Float(_) => false
    case ByteVector(_) => false
    case StringList(_) => false
    case StringSet(_) => false
    case IntSet(_) => false
    case ValueMapList(_) => false
    case _ => true
  }

  predicate StableEntries(entries: seq<Entry>)
    decreases entries, 0
  {
    forall i :: 0 <= i < |entries| ==> NulFree(entries[i].key) && Stable(entries[i].value)
  }

  lemma {:induction false} BeforeAsymmetric(a: Text, b: Text)
    requires Before(a, b)
    ensures !Before(b, a) && a != b
  {
    if a != [] && a[0] == b[0] { BeforeAsymmetric(a[1..], b[1..]); }
  }

  // A key after all others goes to the end.
  lemma {:induction false} PutAppends(entries: seq<Entry>, key: Text, value: Any)
    requires forall i :: 0 <= i < |entries| ==> Before(entries[i].key, key)
    ensures Put(entries, key, value) == entries + [Entry(key, value)]
  {
    if entries != [] {
      BeforeAsymmetric(entries[0].key, key);
      PutAppends(entries[1..], key, value);
    }
  }

  ghost predicate KeysNulFree(entries: seq<Entry>) {
    forall i :: 0 <= i < |entries| ==> NulFree(entries[i].key)
  }

  lemma {:induction false} PutNulFree(entries: seq<Entry>, key: Text, value: Any)
    requires KeysNulFree(entries) && NulFree(key)
    ensures KeysNulFree(Put(entries, key, value))
  {
    if entries != [] { PutNulFree(entries[1..], key, value); }
  }

  // Nothing that comes back has a zero in a key.
  lemma {:induction false} BackNulFree(sofar: seq<Entry>, entries: seq<Entry>)
    requires KeysNulFree(sofar)
    ensures KeysNulFree(BackEntries(sofar, entries))
    decreases |entries|
  {
    if entries != [] {
      PutNulFree(sofar, CString(entries[0].key), Back(entries[0].value));
      BackNulFree(Put(sofar, CString(entries[0].key), Back(entries[0].value)), entries[1..]);
    }
  }

  function BackAll(entries: seq<Entry>): seq<Entry> {
    seq(|entries|, i requires 0 <= i < |entries| => Entry(entries[i].key, Back(entries[i].value)))
  }

  // With keys in order and free of zeros, every entry comes back in its place.
  lemma {:induction false} BackInPlace(done: seq<Entry>, entries: seq<Entry>)
    requires Sorted(done + entries) && KeysNulFree(entries)
    ensures BackEntries(BackAll(done), entries) == BackAll(done + entries)
    decreases |entries|
  {
    if entries == [] {
      assert done + entries == done;
    } else {
      var e, all := entries[0], done + entries;
      assert all[|done|] == e;
      forall i | 0 <= i < |done| ensures Before(BackAll(done)[i].key, e.key) { assert all[i] == done[i]; }
      PutAppends(BackAll(done), e.key, Back(e.value));
      assert BackAll(done) + [Entry(e.key, Back(e.value))] == BackAll(done + [e]);
      assert done + [e] + entries[1..] == done + entries;
      BackInPlace(done + [e], entries[1..]);
    }
  }

  lemma {:induction false} BackIsSelfIff(v: Any)
    requires WellFormed(v)
    ensures Back(v) == v <==> Stable(v)
    decreases v, 1
  {
    if v.ValueMap? && v.entries != [] { BackEntriesIsSelfIff(v.entries); }
  }

  lemma {:induction false} BackEntriesIsSelfIff(entries: seq<Entry>)
    requires WellFormedEntries(entries)
    ensures BackEntries([], entries) == entries <==> StableEntries(entries)
    decreases entries, 0
  {
    if KeysNulFree(entries) {
      BackInOrder(entries);
      BackAllIsSelfIff(entries);
    } else {
      ZeroInKeyIsLost(entries);
    }
  }

  lemma {:induction false} BackInOrder(entries: seq<Entry>)
    requires Sorted(entries) && KeysNulFree(entries)
    ensures BackEntries([], entries) == BackAll(entries)
  {
    assert BackAll([]) == [] && [] + entries == entries;
    BackInPlace([], entries);
  }

  lemma {:induction false} ZeroInKeyIsLost(entries: seq<Entry>)
    requires !KeysNulFree(entries)
    ensures BackEntries([], entries) != entries && !StableEntries(entries)
  {
    BackNulFree([], entries);
  }

  lemma {:induction false} BackAllIsSelfIff(entries: seq<Entry>)
    requires WellFormedEntries(entries) && KeysNulFree(entries)
    ensures BackAll(entries) == entries <==> StableEntries(entries)
    decreases entries, 0, 0
  {
    forall i | 0 <= i < |entries| ensures Back(entries[i].value) == entries[i].value <==> Stable(entries[i].value) {
      assert entries[i] in entries;
      BackIsSelfIff(entries[i].value);
    }
    AllSelf(entries);
  }

  lemma {:induction false} AllSelf(entries: seq<Entry>)
    ensures BackAll(entries) == entries <==>
      forall i :: 0 <= i < |entries| ==> Back(entries[i].value) == entries[i].value
  {
    if BackAll(entries) == entries {
      forall i | 0 <= i < |entries| ensures Back(entries[i].value) == entries[i].value {
        assert BackAll(entries)[i] == entries[i];
      }
    }
  }

  // Nothing empty and nothing of a foreign type, at any level.
  predicate Writable(v: Any)
    decreases v, 1
  {
    match v
    case Empty => false
    case Unsupported => false
    case ValueMap(entries) => WritableEntries(entries)
    case ValueMapList(maps) => forall m :: m in maps ==> WritableEntries(m.entries)
    case _ => true
  }

  predicate WritableEntries(entries: seq<Entry>)
    decreases entries, 0
  {
    forall e :: e in entries ==> Writable(e.value)
  }

  lemma {:induction false} WriteSucceedsIff(v: Any)
    ensures Write(v).Some? <==> Writable(v)
    decreases v, 1
  {
    if v.ValueMap? {
      WriteEntriesSucceedsIff(v.entries);
    } else if v.ValueMapList? {
      WriteMapsSucceedsIff(v.maps);
    }
  }

  lemma {:induction false} WriteEntriesSucceedsIff(entries: seq<Entry>)
    ensures WriteEntries(entries).Some? <==> WritableEntries(entries)
    decreases entries, 0
  {
    if entries != [] {
      WriteSucceedsIff(entries[0].value);
      WriteEntriesSucceedsIff(entries[1..]);
      assert entries == [entries[0]] + entries[1..];
    }
  }

  lemma {:induction false} WriteMapsSucceedsIff(maps: seq<Dict>)
    ensures WriteMaps(maps).Some? <==> forall m :: m in maps ==> WritableEntries(m.entries)
    decreases maps, 0
  {
    if maps != [] {
      WriteEntriesSucceedsIff(maps[0].entries);
      WriteMapsSucceedsIff(maps[1..]);
      assert maps == [maps[0]] + maps[1..];
    }
  }

  /* What a map that is read holds: under each key the value that came last, in the order of keys. */

  // The order is that of the first difference, a text coming before those it begins.
  lemma {:induction false} BeforeIff(a: Text, b: Text)
    ensures Before(a, b) <==> exists n: nat :: DiffersAt(a, b, n)
  {
    if Before(a, b) {
      if a == [] || a[0] < b[0] {
        assert DiffersAt(a, b, 0);
      } else {
        BeforeIff(a[1..], b[1..]);
        var n: nat :| DiffersAt(a[1..], b[1..], n);
        DiffersLater(a, b, n + 1);
      }
    }
    forall n: nat | DiffersAt(a, b, n) ensures Before(a, b) { FirstDifference(a, b, n); }
  }

  ghost predicate DiffersAt(a: Text, b: Text, n: nat) {
    n <= |a| && n < |b| && a[..n] == b[..n] && (n == |a| || a[n] < b[n])
  }

  lemma DiffersLater(a: Text, b: Text, n: nat)
    requires n > 0 && a != [] && b != [] && a[0] == b[0]
    ensures DiffersAt(a, b, n) <==> DiffersAt(a[1..], b[1..], n - 1)
  {
    if n <= |a| && n < |b| {
      assert a[1..][..n - 1] == a[..n][1..] && b[1..][..n - 1] == b[..n][1..];
      assert a[..n] == [a[0]] + a[..n][1..] && b[..n] == [b[0]] + b[..n][1..];
    }
  }

  lemma {:induction false} FirstDifference(a: Text, b: Text, n: nat)
    requires DiffersAt(a, b, n)
    ensures Before(a, b)
  {
    if n > 0 {
      assert a[0] == a[..n][0] == b[..n][0] == b[0];
      DiffersLater(a, b, n);
      FirstDifference(a[1..], b[1..], n - 1);
    }
  }

  lemma {:induction false} BeforeIrreflexive(a: Text)
    ensures !Before(a, a)
  {
    if a != [] { BeforeIrreflexive(a[1..]); }
  }

  lemma {:induction false} BeforeTotal(a: Text, b: Text)
    ensures Before(a, b) || a == b || Before(b, a)
  {
    if a != [] && b != [] && a[0] == b[0] {
      BeforeTotal(a[1..], b[1..]);
      if a[1..] == b[1..] { assert a == [a[0]] + a[1..] && b == [b[0]] + b[1..]; }
    }
  }

  lemma {:induction false} BeforeTransitive(a: Text, b: Text, c: Text)
    requires Before(a, b) && Before(b, c)
    ensures Before(a, c)
  {
    if a != [] && a[0] == b[0] == c[0] { BeforeTransitive(a[1..], b[1..], c[1..]); }
  }

  lemma SortedCons(e: Entry, entries: seq<Entry>)
    ensures Sorted([e] + entries) <==>
      Sorted(entries) && forall i :: 0 <= i < |entries| ==> Before(e.key, entries[i].key)
  {
    var all := [e] + entries;
    if Sorted(all) {
      assert forall i :: 0 <= i < |entries| ==> all[i + 1] == entries[i];
      forall i | 0 <= i < |entries| ensures Before(e.key, entries[i].key) { assert all[0] == e; }
    }
  }

  // Storing under a key puts that value there, leaves all other keys alone and keeps the order.
  lemma {:induction false} PutStores(entries: seq<Entry>, key: Text, value: Any)
    requires Sorted(entries)
    ensures Sorted(Put(entries, key, value))
    ensures forall e :: e in Put(entries, key, value) <==> e == Entry(key, value) || (e in entries && e.key != key)
  {
    if entries == [] {
      assert Put(entries, key, value) == [Entry(key, value)];
    } else {
      var first, rest := entries[0], entries[1..];
      assert entries == [first] + rest;
      SortedCons(first, rest);
      if first.key == key {
        BeforeIrreflexive(key);
        SortedCons(Entry(key, value), rest);
        NotAmong(key, rest);
      } else if Before(key, first.key) {
        forall i | 0 <= i < |entries| ensures Before(key, entries[i].key) {
          if i > 0 { BeforeTransitive(key, first.key, entries[i].key); }
        }
        SortedCons(Entry(key, value), entries);
        NotAmong(key, entries);
      } else {
        PutStores(rest, key, value);
        BeforeTotal(key, first.key);
        PutAfter(first, rest, key, value);
      }
    }
  }

  lemma NotAmong(key: Text, entries: seq<Entry>)
    requires forall i :: 0 <= i < |entries| ==> Before(key, entries[i].key)
    ensures forall e :: e in entries ==> e.key != key
  {
    forall i | 0 <= i < |entries| ensures entries[i].key != key { BeforeAsymmetric(key, entries[i].key); }
  }

  lemma PutAfter(first: Entry, rest: seq<Entry>, key: Text, value: Any)
    requires Sorted([first] + rest) && Before(first.key, key)
    requires Sorted(Put(rest, key, value))
    requires forall e :: e in Put(rest, key, value) <==> e == Entry(key, value) || (e in rest && e.key != key)
    ensures Sorted([first] + Put(rest, key, value))
  {
    SortedCons(first, rest);
    var stored := Put(rest, key, value);
    forall i | 0 <= i < |stored| ensures Before(first.key, stored[i].key) {
      assert stored[i] in stored;
      if stored[i] != Entry(key, value) { assert stored[i] in rest; }
    }
    SortedCons(first, stored);
  }

  // No entry from the k-th on has this key.
  ghost predicate NoneFrom(ws: seq<Wire>, k: nat, key: Text) {
    forall j :: k <= j < |ws| ==> !(ws[j].WDictEntry? && ws[j].key == WString(key))
  }

  // The i-th entry has the key of `e` and reads as its value, and no later one has that key.
  ghost predicate LastOf(ws: seq<Wire>, i: nat, e: Entry) {
    && i < |ws| && ws[i].WDictEntry? && ws[i].key == WString(e.key)
    && Read(ws[i].value) == Some(e.value)
    && NoneFrom(ws, i + 1, e.key)
  }

  lemma LastOfCons(w: Wire, ws: seq<Wire>, e: Entry)
    ensures (exists i: nat :: LastOf([w] + ws, i, e)) <==> (exists i: nat :: LastOf(ws, i, e)) || LastOf([w] + ws, 0, e)
  {
    var all := [w] + ws;
    forall i: nat ensures LastOf(ws, i, e) <==> LastOf(all, i + 1, e) {
      assert i < |ws| ==> all[i + 1] == ws[i];
      NoneFromCons(w, ws, i + 1, e.key);
    }
    if i: nat :| LastOf(all, i, e) && i > 0 { assert LastOf(ws, i - 1, e); }
    if i: nat :| LastOf(ws, i, e) { assert LastOf(all, i + 1, e); }
  }

  lemma NoneFromCons(w: Wire, ws: seq<Wire>, k: nat, key: Text)
    ensures NoneFrom([w] + ws, k + 1, key) <==> NoneFrom(ws, k, key)
  {
    var all := [w] + ws;
    assert forall j :: 0 <= j < |ws| ==> all[j + 1] == ws[j];
    if NoneFrom(all, k + 1, key) {
      forall j | k <= j < |ws| ensures !(ws[j].WDictEntry? && ws[j].key == WString(key)) {
        assert all[j + 1] == ws[j];
      }
    }
    if NoneFrom(ws, k, key) {
      forall j | k + 1 <= j < |all| ensures !(all[j].WDictEntry? && all[j].key == WString(key)) {
        assert all[j] == ws[j - 1];
      }
    }
  }

  lemma {:induction false} LastValueWins(sofar: seq<Entry>, ws: seq<Wire>)
    requires Sorted(sofar) && ReadEntries(sofar, ws).Some?
    ensures Sorted(ReadEntries(sofar, ws).value)
    ensures forall e :: e in ReadEntries(sofar, ws).value <==>
      (exists i: nat :: LastOf(ws, i, e)) || (e in sofar && NoneFrom(ws, 0, e.key))
    decreases |ws|
  {
    if ws != [] {
      var key, value := ws[0].key.text, Read(ws[0].value).value;
      var stored := Put(sofar, key, value);
      PutStores(sofar, key, value);
      LastValueWins(stored, ws[1..]);
      assert ws == [ws[0]] + ws[1..];
      forall e ensures e in ReadEntries(sofar, ws).value <==>
        (exists i: nat :: LastOf(ws, i, e)) || (e in sofar && NoneFrom(ws, 0, e.key))
      {
        LastOfCons(ws[0], ws[1..], e);
        NoneFromCons(ws[0], ws[1..], 0, e.key);
      }
    }
  }

  // A dictionary with keys in any order, some of them perhaps repeated, is read as a sorted map that
  // holds exactly the last value of every key.
  lemma MapHoldsLastValues(of: string, ws: seq<Wire>)
    requires ws != [] && ws[0].WDictEntry? && Read(WArray(of, ws)).Some?
    ensures var v := Read(WArray(of, ws)).value;
      && v.ValueMap? && Sorted(v.entries)
      && forall e :: e in v.entries <==> exists i: nat :: LastOf(ws, i, e)
  {
    LastValueWins([], ws);
  }

  // A value written to a message is received as it was exactly when it is stable and writable.
  lemma {:induction false} RoundTripIff(v: Any)
    requires WellFormed(v)
    ensures Write(v).Some? && Receive(Write(v).value) == Some(v) <==> Writable(v) && Stable(v)
  {
    WriteSucceedsIff(v);
    if Write(v).Some? {
      ReceiveWritten(v);
      BackIsSelfIff(v);
      if Stable(v) { StableIsDeclared(v); }
    }
  }

  lemma {:induction false} StableIsDeclared(v: Any)
    requires Stable(v)
    ensures Declared(v)
    decreases v, 1
  {
    if v.ValueMap? { StableEntriesDeclared(v.entries); }
  }

  lemma {:induction false} StableEntriesDeclared(entries: seq<Entry>)
    requires StableEntries(entries)
    ensures DeclaredEntries(entries)
    decreases entries, 0
  {
    if entries != [] {
      StableIsDeclared(entries[0].value);
      StableEntriesDeclared(entries[1..]);
    }
  }

  /* Values that come back widened. */

  // int8_t becomes int16_t, float becomes double, a vector of octets becomes data and a C string a
  // string.
  function Widen(v: Any): Any
    decreases v, 1
  {
    match v
    case Int8(n) => Int16(n)
    case Float(x) => Double(x)
    case ByteVector(d) => Data(d)
    case CharPtr(s) => Str(s)
    case ValueMap(entries) => ValueMap(WidenAll(entries))
    case _ => v
  }

  function WidenAll(entries: seq<Entry>): (r: seq<Entry>)
    ensures |r| == |entries|
    ensures forall i :: 0 <= i < |r| ==> r[i] == Entry(entries[i].key, Widen(entries[i].value))
    decreases entries, 0
  {
    if entries == [] then []
    else [Entry(entries[0].key, Widen(entries[0].value))] + WidenAll(entries[1..])
  }

  // Nested values of texts without zeros, flags, numbers, non-empty data and non-empty maps.
  predicate Plain(v: Any)
    decreases v, 1
  {
    match v
    case Str(s) => NulFree(s)
    case CharPtr(s) => NulFree(s)
    case Data(d) => d != []
    case ByteVector(d) => d != []
    case ValueMap(entries) => entries != [] && PlainEntries(entries)
    case StringList(_) => false
    case StringSet(_) => false
    case IntSet(_) => false
    case ValueMapList(_) => false
    case Empty => false
    case Unsupported => false
    case _ => true
  }

  predicate PlainEntries(entries: seq<Entry>)
    decreases entries, 0
  {
    forall e :: e in entries ==> NulFree(e.key) && Plain(e.value)
  }

  lemma {:induction false} PlainIsWritable(v: Any)
    requires Plain(v)
    ensures Writable(v)
    decreases v, 1
  {
    if v.ValueMap? {
      forall e | e in v.entries ensures Writable(e.value) { PlainIsWritable(e.value); }
    }
  }

  lemma {:induction false} BackWidens(v: Any)
    requires WellFormed(v) && Plain(v)
    ensures Back(v) == Widen(v)
    decreases v, 1
  {
    if v.ValueMap? {
      PlainKeys(v.entries);
      BackInOrder(v.entries);
      BackAllWidens(v.entries);
    }
  }

  lemma {:induction false} PlainKeys(entries: seq<Entry>)
    requires PlainEntries(entries)
    ensures KeysNulFree(entries)
  {
    forall i | 0 <= i < |entries| ensures NulFree(entries[i].key) { assert entries[i] in entries; }
  }

  lemma {:induction false} BackAllWidens(entries: seq<Entry>)
    requires WellFormedEntries(entries) && PlainEntries(entries)
    ensures BackAll(entries) == WidenAll(entries)
    decreases entries, 0
  {
    forall i | 0 <= i < |entries| ensures BackAll(entries)[i] == WidenAll(entries)[i] {
      assert entries[i] in entries;
      BackWidens(entries[i].value);
    }
  }

  // Every nested plain value can be written, and comes back, widened, exactly when all its map
  // entries are declarable.
  lemma {:induction false} RoundTripWidens(v: Any)
    requires WellFormed(v) && Plain(v)
    ensures Write(v).Some?
    ensures Receive(Write(v).value) == if Declared(v) then Some(Widen(v)) else None
  {
    PlainIsWritable(v);
    WriteSucceedsIff(v);
    ReceiveWritten(v);
    BackWidens(v);
  }

  // For instance a map with one entry, a C string: it is written with an empty signature.
  lemma {:induction false} CStringEntryIsLost(key: Text, text: Text)
    ensures var v := ValueMap([Entry(key, CharPtr(text))]);
      && Write(v).Some? && !Consistent(Write(v).value) && !Declared(v)
      && Read(Write(v).value) == None && Receive(Write(v).value) == None
  {
    var e := Entry(key, CharPtr(text));
    var v := ValueMap([e]);
    assert Writable(e.value) && !Declarable(e.value);
    assert forall f :: f in [e] ==> f == e;
    WriteSucceedsIff(v);
    ReadWritten(v);
    SignaturesMatchIff(v);
  }

  /* The reader as the program runs it. */

  method AnyFromIter(w: Wire) returns (r: Option<Any>)
    ensures r == Read(w)
    decreases w, 1
  {
    match w {
      case WVariant(declared, inner) =>
        if declared == Signature(inner) {
          r := AnyFromIter(inner);
        } else {
          r := None;
        }
      case WArray(_, elements) =>
        if elements != [] && elements[0].WByte? && AllBytes(elements) {
          r := Some(Data(BytesOf(elements)));
        } else if elements != [] && elements[0].WDictEntry? {
          var entries := ValueMapFromIter(elements);
          r := if entries.Some? then Some(ValueMap(entries.value)) else None;
        } else {
          r := Some(Empty);
        }
      case WString(s) => r := Some(Str(s));
      case WBoolean(b) => r := Some(Bool(b));
      case WByte(n) => r := Some(UInt8(n));
      case WInt16(n) => r := Some(Int16(n));
      case WUInt16(n) => r := Some(UInt16(n));
      case WInt32(n) => r := Some(Int32(n));
      case WUInt32(n) => r := Some(UInt32(n));
      case WInt64(n) => r := Some(Int64(n));
      case WUInt64(n) => r := Some(UInt64(n));
      case WDouble(x) => r := Some(Double(x));
      case WDictEntry(_, _) => r := Some(Empty);
    }
  }

  method ValueMapFromIter(elements: seq<Wire>) returns (r: Option<seq<Entry>>)
    ensures r == ReadEntries([], elements)
    decreases elements, 0
  {
    var sofar: seq<Entry> := [];
    var k := 0;
    while k < |elements|
      invariant 0 <= k <= |elements|
      invariant ReadEntries(sofar, elements[k..]) == ReadEntries([], elements)
    {
      assert elements[k..][0] == elements[k] && elements[k..][1..] == elements[k + 1..];
      match elements[k] {
        case WDictEntry(WString(key), v) =>
          assert v < elements[k];
          var value := AnyFromIter(v);
          if value.None? { return None; }
          sofar := Put(sofar, key, value.value);
        case _ => return None;
      }
      k := k + 1;
    }
    r := Some(sofar);
  }

  /* Signatures. */

  // What is declared is what is there: inside variants and for the elements of arrays.
  predicate Consistent(w: Wire)
    decreases w, 1
  {
    match w
    case WVariant(declared, inner) => declared == Signature(inner) && Consistent(inner)
    case WArray(of, elements) => ConsistentAll(of, elements)
    case WDictEntry(key, value) => Consistent(key) && Consistent(value)
    case _ => true
  }

  predicate ConsistentAll(of: string, ws: seq<Wire>)
    decreases ws, 0
  {
    ws == [] || (Signature(ws[0]) == of && Consistent(ws[0]) && ConsistentAll(of, ws[1..]))
  }

  predicate Declared(v: Any)
    decreases v, 1
  {
    match v
    case ValueMap(entries) => DeclaredEntries(entries)
    case ValueMapList(maps) => DeclaredMaps(maps)
    case _ => true
  }

  predicate DeclaredEntries(entries: seq<Entry>)
    decreases entries, 0
  {
    entries == [] ||
    (Declarable(entries[0].value) && Declared(entries[0].value) && DeclaredEntries(entries[1..]))
  }

  predicate DeclaredMaps(maps: seq<Dict>)
    decreases maps, 0
  {
    maps == [] || (DeclaredEntries(maps[0].entries) && DeclaredMaps(maps[1..]))
  }

  lemma {:induction false} ConsistentUniform(of: string, ws: seq<Wire>)
    requires forall i :: 0 <= i < |ws| ==> Signature(ws[i]) == of
    requires forall i :: 0 <= i < |ws| ==> !ws[i].WVariant? && !ws[i].WArray? && !ws[i].WDictEntry?
    ensures ConsistentAll(of, ws)
    decreases |ws|
  {
    if ws != [] { ConsistentUniform(of, ws[1..]); }
  }

  // The signatures in a written message are right exactly when all its entries are declarable.
  lemma {:induction false} SignaturesMatchIff(v: Any)
    requires Write(v).Some?
    ensures Consistent(Write(v).value) <==> Declared(v)
    decreases v, 1
  {
    if v.ValueMap? {
      EntrySignaturesMatchIff(v.entries);
    } else if v.ValueMapList? {
      MapSignaturesMatchIff(v.maps);
    } else if Write(v).value.WArray? {
      ConsistentUniform(Write(v).value.of, Write(v).value.elements);
    }
  }

  lemma {:induction false} EntrySignaturesMatchIff(entries: seq<Entry>)
    requires WriteEntries(entries).Some?
    ensures ConsistentAll(DICT_ENTRY, WriteEntries(entries).value) <==> DeclaredEntries(entries)
    decreases entries, 0
  {
    if entries != [] {
      var ws, v := WriteEntries(entries).value, entries[0].value;
      assert ws[1..] == WriteEntries(entries[1..]).value;
      var inner := WVariant(TypeString(v), Write(v).value);
      assert Signature(ws[0]) == "{" + "s" + "v" + "}" == DICT_ENTRY;
      assert Consistent(inner) <==> TypeString(v) == Signature(Write(v).value) && Consistent(Write(v).value);
      assert Consistent(ws[0]) <==> Consistent(WString(CString(entries[0].key))) && Consistent(inner);
      TypeStringIsSignature(v);
      SignaturesMatchIff(v);
      EntrySignaturesMatchIff(entries[1..]);
    }
  }

  lemma {:induction false} MapSignaturesMatchIff(maps: seq<Dict>)
    requires WriteMaps(maps).Some?
    ensures ConsistentAll(DICT, WriteMaps(maps).value) <==> DeclaredMaps(maps)
    decreases maps, 0
  {
    if maps != [] {
      var ws := WriteMaps(maps).value;
      assert ws[1..] == WriteMaps(maps[1..]).value;
      assert Signature(ws[0]) == "a" + DICT_ENTRY == DICT;
      EntrySignaturesMatchIff(maps[0].entries);
      MapSignaturesMatchIff(maps[1..]);
    }
  }

  /* Whole messages. */

  // What is received of a message: nothing if a signature in it, at any level, is not that of what
  // is there, since no such message can be made.
  function Receive(w: Wire): Option<Any> {
    if Consistent(w) then Read(w) else None
  }

  lemma {:induction false} DeclaredIsReadable(v: Any)
    requires Declared(v)
    ensures Readable(v)
    decreases v, 1
  {
    if v.ValueMap? { DeclaredEntriesReadable(v.entries); }
  }

  lemma {:induction false} DeclaredEntriesReadable(entries: seq<Entry>)
    requires DeclaredEntries(entries)
    ensures ReadableEntries(entries)
    decreases entries, 0
  {
    if entries != [] {
      DeclaredIsReadable(entries[0].value);
      DeclaredEntriesReadable(entries[1..]);
    }
  }

  // Whatever can be written is received as stated exactly when all map entries in it, those of maps
  // in lists included, are declarable, and otherwise not at all.
  lemma {:induction false} ReceiveWritten(v: Any)
    requires Write(v).Some?
    ensures Receive(Write(v).value) == if Declared(v) then Some(Back(v)) else None
  {
    SignaturesMatchIff(v);
    ReadWritten(v);
    if Declared(v) { DeclaredIsReadable(v); }
  }
}
