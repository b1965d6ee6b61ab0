/** The JSON form of a decoded value: MarshalJSON and UnmarshalJSON over JSON trees.
    Printing and reading JSON text is the standard encoder's, which keeps a tree
    except that it coerces strings to valid UTF-8. */
module Json {
  import opened Wrappers
  import opened Numerals
  import opened Decoder
  import Limbs
  import Utf8

  datatype Json =
    | JNull | JBool(b: bool) | JNumber(n: int) | JString(s: string)
    | JArray(items: seq<Json>) | JObject(fields: seq<Field>)

  datatype Field = Field(name: string, value: Json)

  datatype JsonError = WrongType

  function KindName(k: Kind): string {
    match k
    case KAddress => "address" case KSymbol => "symbol" case KString => "string" case KBool => "bool"
    case KBytes => "bytes" case KU32 => "u32" case KI32 => "i32" case KU64 => "u64" case KI64 => "i64"
    case KU128 => "u128" case KI128 => "i128" case KU256 => "u256" case KI256 => "i256"
    case KTimepoint => "timepoint" case KDuration => "duration" case KVec => "vec" case KMap => "map"
    case KVoid => "void" case KUnknown => "unknown" case Named(name) => name
  }

  function KindOf(name: string): Kind {
    if name == "address" then KAddress else if name == "symbol" then KSymbol
    else if name == "string" then KString else if name == "bool" then KBool
    else if name == "bytes" then KBytes else if name == "u32" then KU32
    else if name == "i32" then KI32 else if name == "u64" then KU64
    else if name == "i64" then KI64 else if name == "u128" then KU128
    else if name == "i128" then KI128 else if name == "u256" then KU256
    else if name == "i256" then KI256 else if name == "timepoint" then KTimepoint
    else if name == "duration" then KDuration else if name == "vec" then KVec
    else if name == "map" then KMap else if name == "void" then KVoid
    else if name == "unknown" then KUnknown else Named(name)
  }

  lemma TextNamesRead()
    ensures KindOf("address") == KAddress && KindOf("symbol") == KSymbol && KindOf("string") == KString
    ensures KindOf("bool") == KBool && KindOf("bytes") == KBytes && KindOf("unknown") == KUnknown
  {
  }

  lemma NumberNamesRead()
    ensures KindOf("u32") == KU32 && KindOf("i32") == KI32 && KindOf("u64") == KU64 && KindOf("i64") == KI64
    ensures KindOf("u128") == KU128 && KindOf("i128") == KI128 && KindOf("u256") == KU256 && KindOf("i256") == KI256
  {
  }

  lemma TimeNamesRead()
    ensures KindOf("timepoint") == KTimepoint && KindOf("duration") == KDuration
  {
  }

  lemma OtherNamesRead()
    ensures KindOf("vec") == KVec && KindOf("map") == KMap && KindOf("void") == KVoid
  {
  }

  lemma {:induction false} KindNameReads(k: Kind)
    requires !k.Named?
    ensures KindOf(KindName(k)) == k
  {
    hide KindOf;
    TextNamesRead();
    NumberNamesRead();
    TimeNamesRead();
    OtherNamesRead();
  }

  lemma {:induction false} KindNameIsAscii(k: Kind)
    requires !k.Named?
    ensures Utf8.Ascii(KindName(k))
  {
  }

  lemma {:induction false} KindNameSurvives(k: Kind)
    requires !k.Named?
    ensures KindOf(Utf8.Coerce(KindName(k))) == k
  {
    hide KindName, KindOf, Utf8.Coerce, Utf8.Valid;
    KindNameReads(k);
    KindNameIsAscii(k);
    Utf8.AsciiIsValid(KindName(k));
    Utf8.ValidIsKept(KindName(k));
  }

  // ---- MarshalJSON ----

  function Text(s: string): Json {
    JString(Utf8.Coerce(s))
  }

  function Marshal(d: DecodedValue): Json
    decreases d, 1
  {
    var value: seq<Field> :=
      if d.kind == KMap then
        [Field("value", JArray(match d.entries case Entries(list) => MarshalEntries(list) case NoEntries => []))]
      else if d.kind == KVoid then []
      else match d.value
           case Nil => []
           case Bool(b) => [Field("value", JBool(b))]
           case Int(n) => [Field("value", JNumber(n))]
           case Str(s) => [Field("value", Text(s))]
           case List(items) => [Field("value", JArray(MarshalItems(items)))];
    Object(KindName(d.kind), value, d.xdr)
  }

  function XdrField(xdr: string): seq<Field> {
    if xdr == "" then [] else [Field("xdr", Text(xdr))]
  }

  /** The payload object: a type, a value unless it is omitted, and a non-empty xdr. */
  function Object(name: string, value: seq<Field>, xdr: string): Json {
    JObject([Field("type", Text(name))] + value + XdrField(xdr))
  }

  function MarshalItems(items: seq<DecodedValue>): (r: seq<Json>)
    ensures |r| == |items|
    decreases items, 0
  {
    if items == [] then [] else MarshalItems(items[..|items| - 1]) + [Marshal(items[|items| - 1])]
  }

  function MarshalEntries(list: seq<MapEntry>): (r: seq<Json>)
    ensures |r| == |list|
    decreases list, 0
  {
    if list == [] then [] else MarshalEntries(list[..|list| - 1]) + [MarshalEntry(list[|list| - 1])]
  }

  function MarshalEntry(e: MapEntry): Json
    decreases e, 1
  {
    JObject([Field("key", Marshal(e.key)), Field("value", Marshal(e.value))])
  }

  // ---- UnmarshalJSON ----

  /** A member name with its case folded: the letters, and the two code points beyond ASCII
      that fold to one, U+017F to s and U+212A to k. */
  function Fold(name: string): string {
    if name == "" then ""
    else if 'A' <= name[0] <= 'Z' then [(name[0] as int - 'A' as int + 'a' as int) as char] + Fold(name[1..])
    else if LONG_S <= name then "s" + Fold(name[2..])
    else if KELVIN <= name then "k" + Fold(name[3..])
    else [name[0]] + Fold(name[1..])
  }

  const LONG_S := "\U{C5}\U{BF}"
  const KELVIN := "\U{E2}\U{84}\U{AA}"

  /** Whether encoding/json takes a member for a struct field. */
  predicate Names(f: Field, name: string) {
    Fold(f.name) == name
  }

  /** The last member taken for a field; the count of members if none. */
  function Find(fields: seq<Field>, name: string): (k: nat)
    ensures k <= |fields|
    ensures k < |fields| ==> Names(fields[k], name)
  {
    if fields == [] then 0
    else if Names(fields[|fields| - 1], name) then |fields| - 1
    else
      var k := Find(fields[..|fields| - 1], name);
      if k == |fields| - 1 then |fields| else k
  }

  /** Reading into a string field, member by member: null leaves it as it is, and a member
      of another type fails the whole even if a later one would do. */
  function ReadText(fields: seq<Field>, name: string): Result<string, JsonError> {
    if fields == [] then Ok("")
    else
      var before, last := ReadText(fields[..|fields| - 1], name), fields[|fields| - 1];
      if before.Err? || !Names(last, name) || last.value.JNull? then before
      else if last.value.JString? then Ok(last.value.s)
      else Err(WrongType)
  }

  const Zero := DecodedValue(Named(""), Nil, NoEntries, "")

  function Unmarshal(j: Json): Result<DecodedValue, JsonError>
    decreases j, 2
  {
    if j.JNull? then Ok(Zero)
    else if !j.JObject? then Err(WrongType)
    else
      var name := ReadText(j.fields, "type");
      var xdr := ReadText(j.fields, "xdr");
      if name.Err? then Err(name.error)
      else if xdr.Err? then Err(xdr.error)
      else
        var k := Find(j.fields, "value");
        if k == |j.fields| then Ok(DecodedValue(KindOf(name.value), Nil, NoEntries, xdr.value))
        else FromValue(KindOf(name.value), j.fields[k].value, xdr.value)
  }

  /** What a present value field is read as, by type. */
  function FromValue(kind: Kind, j: Json, xdr: string): Result<DecodedValue, JsonError>
    decreases j, 1
  {
    if kind == KMap then
      var entries := UnmarshalEntryList(j);
      if entries.Err? then Err(entries.error) else Ok(DecodedValue(kind, Nil, entries.value, xdr))
    else
      var value := UnmarshalContent(kind, j);
      if value.Err? then Err(value.error) else Ok(DecodedValue(kind, value.value, NoEntries, xdr))
  }

  function UnmarshalContent(kind: Kind, j: Json): Result<Content, JsonError>
    decreases j, 0
  {
    match kind
    case KVec =>
      (match j
       case JNull => Ok(List([]))
       case JArray(items) => (match UnmarshalItems(items) case Ok(list) => Ok(List(list)) case Err(e) => Err(e))
       case _ => Err(WrongType))
    case KU32 => UnmarshalInt(j)
    case KI32 => UnmarshalInt(j)
    case KBool => (match j case JNull => Ok(Bool(false)) case JBool(b) => Ok(Bool(b)) case _ => Err(WrongType))
    case _ => (match j case JNull => Ok(Str("")) case JString(s) => Ok(Str(s)) case _ => Err(WrongType))
  }

  function UnmarshalInt(j: Json): Result<Content, JsonError> {
    match j
    case JNull => Ok(Int(0))
    case JNumber(n) => if MIN_INT64 <= n <= MAX_INT64 then Ok(Int(n)) else Err(WrongType)
    case _ => Err(WrongType)
  }

  function UnmarshalItems(items: seq<Json>): Result<seq<DecodedValue>, JsonError>
    decreases items, 0
  {
    if items == [] then Ok([])
    else
      match UnmarshalItems(items[..|items| - 1])
      case Err(e) => Err(e)
      case Ok(init) =>
        match Unmarshal(items[|items| - 1])
        case Err(e) => Err(e)
        case Ok(last) => Ok(init + [last])
  }

  function UnmarshalEntryList(j: Json): Result<Entries, JsonError>
    decreases j, 0
  {
    match j
    case JNull => Ok(NoEntries)
    case JArray(items) => (match UnmarshalEntries(items) case Ok(list) => Ok(Entries(list)) case Err(e) => Err(e))
    case _ => Err(WrongType)
  }

  function UnmarshalEntries(items: seq<Json>): Result<seq<MapEntry>, JsonError>
    decreases items, 0
  {
    if items == [] then Ok([])
    else
      match UnmarshalEntries(items[..|items| - 1])
      case Err(e) => Err(e)
      case Ok(init) =>
        match UnmarshalEntry(items[|items| - 1])
        case Err(e) => Err(e)
        case Ok(last) => Ok(init + [last])
  }

  function UnmarshalEntry(j: Json): Result<MapEntry, JsonError>
    decreases j, 1
  {
    match j
    case JNull => Ok(MapEntry(Zero, Zero))
    case JObject(fields) => EntryFrom(fields)
    case _ => Err(WrongType)
  }

  /** Reading into an entry, member by member. */
  function EntryFrom(fields: seq<Field>): Result<MapEntry, JsonError>
    decreases fields, 0
  {
    if fields == [] then Ok(MapEntry(Zero, Zero))
    else
      var before := EntryFrom(fields[..|fields| - 1]);
      if before.Err? then before else MemberInto(before.value, fields[|fields| - 1])
  }

  function MemberInto(e: MapEntry, f: Field): Result<MapEntry, JsonError>
    decreases f, 1
  {
    if !Names(f, "key") && !Names(f, "value") then Ok(e)
    else
      var d := Unmarshal(f.value);
      if d.Err? then Err(d.error)
      else if Names(f, "key") then Ok(e.(key := d.value))
      else Ok(e.(value := d.value))
  }

  // ---- The values Decode produces ----

  /** The content each variant carries, through any nesting. */
  predicate Shaped(d: DecodedValue)
    decreases d, 1
  {
    match d.kind
    case Named(_) => false
    case KMap => d.value == Nil && d.xdr == "" && d.entries.Entries? && ShapedEntries(d.entries.list)
    case KVec => d.value.List? && d.xdr == "" && d.entries == NoEntries && ShapedItems(d.value.items)
    case KVoid => d == DecodedValue(KVoid, Nil, NoEntries, "")
    case KUnknown => d.value == Nil && d.entries == NoEntries && d.xdr != ""
    case KBool => d.value.Bool? && d.entries == NoEntries && d.xdr == ""
    case KU32 => d.value.Int? && MIN_INT64 <= d.value.n <= MAX_INT64 && d.entries == NoEntries && d.xdr == ""
    case KI32 => d.value.Int? && MIN_INT64 <= d.value.n <= MAX_INT64 && d.entries == NoEntries && d.xdr == ""
    case _ => d.value.Str? && d.entries == NoEntries && d.xdr == ""
  }

  predicate ShapedItems(items: seq<DecodedValue>)
    decreases items, 0
  {
    items == [] || (ShapedItems(items[..|items| - 1]) && Shaped(items[|items| - 1]))
  }

  predicate ShapedEntries(list: seq<MapEntry>)
    decreases list, 0
  {
    list == [] || (ShapedEntries(list[..|list| - 1]) && ShapedEntry(list[|list| - 1]))
  }

  predicate ShapedEntry(e: MapEntry)
    decreases e, 1
  {
    Shaped(e.key) && Shaped(e.value)
  }

  /** Every string anywhere in the value is valid UTF-8. */
  predicate CleanText(d: DecodedValue)
    decreases d, 1
  {
    && Utf8.Valid(d.xdr)
    && (match d.value case Str(s) => Utf8.Valid(s) case List(items) => CleanItems(items) case _ => true)
    && (match d.entries case Entries(list) => CleanEntries(list) case NoEntries => true)
  }

  predicate CleanItems(items: seq<DecodedValue>)
    decreases items, 0
  {
    items == [] || (CleanItems(items[..|items| - 1]) && CleanText(items[|items| - 1]))
  }

  predicate CleanEntries(list: seq<MapEntry>)
    decreases list, 0
  {
    list == [] || (CleanEntries(list[..|list| - 1]) && CleanEntry(list[|list| - 1]))
  }

  predicate CleanEntry(e: MapEntry)
    decreases e, 1
  {
    CleanText(e.key) && CleanText(e.value)
  }

  // ---- The round trip ----

  /** The names MarshalJSON writes are taken for their own fields and for no others. */
  lemma {:induction false} FoldsToItself()
    ensures Fold("type") == "type" && Fold("value") == "value" && Fold("xdr") == "xdr" && Fold("key") == "key"
  {
    hide Fold;
    FoldsTypeAndValue();
    FoldsXdrAndKey();
  }

  lemma {:induction false} FoldsTypeAndValue()
    ensures Fold("type") == "type" && Fold("value") == "value"
  {
    hide Fold;
    FoldsLower("type");
    FoldsLower("value");
  }

  lemma {:induction false} FoldsXdrAndKey()
    ensures Fold("xdr") == "xdr" && Fold("key") == "key"
  {
    hide Fold;
    FoldsLower("xdr");
    FoldsLower("key");
  }

  lemma {:induction false} FoldsLower(name: string)
    requires forall i | 0 <= i < |name| :: 'a' <= name[i] <= 'z'
    ensures Fold(name) == name
  {
    if name != "" {
      FoldsLower(name[1..]);
      FoldsFirst(name);
      hide Fold;
      assert [name[0]] + name[1..] == name;
    }
  }

  lemma {:induction false} FoldsFirst(name: string)
    requires name != "" && 'a' <= name[0] <= 'z'
    ensures Fold(name) == [name[0]] + Fold(name[1..])
  {
    assert name[0] != LONG_S[0] && name[0] != KELVIN[0];
    assert !(LONG_S <= name) && !(KELVIN <= name);
  }

  lemma {:induction false} FindLast(fields: seq<Field>, f: Field, name: string)
    ensures Find(fields + [f], name) ==
            if Names(f, name) then |fields|
            else if Find(fields, name) == |fields| then |fields| + 1
            else Find(fields, name)
  {
    assert (fields + [f])[..|fields|] == fields;
  }

  lemma {:induction false} ReadTextLast(fields: seq<Field>, f: Field, name: string)
    requires f.value.JString? || !Names(f, name)
    ensures ReadText(fields + [f], name) ==
            if ReadText(fields, name).Ok? && Names(f, name) then Ok(f.value.s) else ReadText(fields, name)
  {
    assert (fields + [f])[..|fields|] == fields;
  }

  /** Looking up a name in the payload object. */
  lemma {:induction false} PayloadReads(a: Field, b: seq<Field>, c: seq<Field>)
    requires a.name == "type" && a.value.JString?
    requires b == [] || (|b| == 1 && b[0].name == "value")
    requires c == [] || (|c| == 1 && c[0].name == "xdr" && c[0].value.JString?)
    ensures ReadText([a] + b + c, "type") == Ok(a.value.s)
    ensures ReadText([a] + b + c, "xdr") == if c == [] then Ok("") else Ok(c[0].value.s)
    ensures Find([a] + b + c, "value") == if b == [] then 1 + |c| else 1
  {
    FoldsToItself();
    hide Fold;
    ReadTextLast([], a, "type");
    ReadTextLast([], a, "xdr");
    FindLast([], a, "value");
    assert [] + [a] == [a];
    assert ReadText([], "type") == Ok("") && ReadText([], "xdr") == Ok("") && Find([], "value") == 0;
    hide Find, ReadText;
    if b == [] {
      assert [a] + b == [a];
    } else {
      assert b == [b[0]];
      ReadTextLast([a], b[0], "type");
      ReadTextLast([a], b[0], "xdr");
      FindLast([a], b[0], "value");
    }
    if c == [] {
      assert [a] + b + c == [a] + b;
    } else {
      assert c == [c[0]];
      ReadTextLast([a] + b, c[0], "type");
      ReadTextLast([a] + b, c[0], "xdr");
      FindLast([a] + b, c[0], "value");
    }
  }

  /** The payload object reads back field by field. */
  lemma {:induction false} ObjectReads(name: string, value: seq<Field>, xdr: string)
    requires value == [] || (|value| == 1 && value[0].name == "value")
    ensures var fields := Object(name, value, xdr).fields;
            && ReadText(fields, "type") == Ok(Utf8.Coerce(name))
            && ReadText(fields, "xdr") == Ok(Utf8.Coerce(xdr))
            && Find(fields, "value") == (if value == [] then |fields| else 1)
            && (value != [] ==> fields[1] == value[0])
  {
    assert Utf8.Coerce("") == "";
    hide Utf8.Coerce, Find, ReadText;
    PayloadReads(Field("type", Text(name)), value, XdrField(xdr));
  }

  /** The payload object reads back as its type, its value read by that type, and its xdr. */
  lemma {:induction false} UnmarshalObject(kind: Kind, value: seq<Field>, xdr: string)
    requires !kind.Named? && (value == [] || (|value| == 1 && value[0].name == "value"))
    ensures Unmarshal(Object(KindName(kind), value, xdr)) ==
            if value == [] then Ok(DecodedValue(kind, Nil, NoEntries, Utf8.Coerce(xdr)))
            else FromValue(kind, value[0].value, Utf8.Coerce(xdr))
  {
    KindNameSurvives(kind);
    ObjectReads(KindName(kind), value, xdr);
    hide Utf8.Coerce, KindName, KindOf, Find, ReadText, FromValue;
  }

  function LeafValue(c: Content): seq<Field> {
    match c
    case Bool(b) => [Field("value", JBool(b))]
    case Int(n) => [Field("value", JNumber(n))]
    case Str(s) => [Field("value", Text(s))]
    case _ => []
  }

  lemma {:induction false} MarshalLeaf(d: DecodedValue)
    requires Shaped(d) && !d.kind.KVec? && !d.kind.KMap?
    ensures Marshal(d) == Object(KindName(d.kind), LeafValue(d.value), d.xdr)
  {
    hide Object, KindName, Text;
  }

  lemma {:induction false} UnmarshalLeaf(d: DecodedValue, xdr: string)
    requires Shaped(d) && !d.kind.KVec? && !d.kind.KMap? && d.value != Nil
    ensures FromValue(d.kind, LeafValue(d.value)[0].value, xdr) ==
            Ok(DecodedValue(d.kind, if d.value.Str? then Str(Utf8.Coerce(d.value.s)) else d.value, NoEntries, xdr))
  {
    hide Utf8.Coerce;
  }

  lemma {:induction false} CleanLeaf(d: DecodedValue)
    requires Shaped(d) && !d.kind.KVec? && !d.kind.KMap?
    ensures !d.value.List? && d.entries == NoEntries
    ensures CleanText(d) <==> Utf8.Valid(d.xdr) && (d.value.Str? ==> Utf8.Valid(d.value.s))
  {
    hide Utf8.Valid;
  }

  /** A scalar, void or unknown reads back as itself exactly when its text is clean. */
  lemma {:induction false} LeafRoundTrip(d: DecodedValue)
    requires Shaped(d) && !d.kind.KVec? && !d.kind.KMap?
    ensures Unmarshal(Marshal(d)) == Ok(d) <==> CleanText(d)
  {
    MarshalLeaf(d);
    CleanLeaf(d);
    UnmarshalObject(d.kind, LeafValue(d.value), d.xdr);
    Utf8.CoerceKeepsExactlyValid(d.xdr);
    Utf8.CoerceKeepsExactlyValid(if d.value.Str? then d.value.s else "");
    if d.value != Nil {
      UnmarshalLeaf(d, Utf8.Coerce(d.xdr));
    }
    hide Shaped, CleanText, Marshal, Unmarshal, FromValue, Object, KindName, Text, Utf8.Valid, Utf8.Coerce;
  }

  lemma {:induction false} FromArray(items: seq<Json>)
    ensures FromValue(KVec, JArray(items), "") ==
            match UnmarshalItems(items)
            case Ok(list) => Ok(DecodedValue(KVec, List(list), NoEntries, ""))
            case Err(e) => Err(e)
  {
    hide UnmarshalItems;
  }

  lemma {:induction false} MarshalVec(d: DecodedValue)
    requires Shaped(d) && d.kind.KVec?
    ensures Marshal(d) == Object(KindName(KVec), [Field("value", JArray(MarshalItems(d.value.items)))], "")
  {
    hide KindName, Object, MarshalItems, ShapedItems;
  }

  lemma {:induction false} CleanVec(d: DecodedValue)
    requires Shaped(d) && d.kind.KVec?
    ensures d.value.List? && (CleanText(d) <==> CleanItems(d.value.items))
  {
    assert Utf8.Valid("");
    hide Utf8.Valid, CleanItems, ShapedItems;
  }

  lemma {:induction false} VecIsItsItems(d: DecodedValue)
    requires Shaped(d) && d.kind.KVec?
    ensures d == DecodedValue(KVec, List(d.value.items), NoEntries, "")
  {
    hide ShapedItems;
  }

  /** A vec reads back as whatever its items read back as. */
  lemma {:induction false} VecRoundTrip(d: DecodedValue)
    requires Shaped(d) && d.kind.KVec?
    ensures Unmarshal(Marshal(d)) == Ok(d) <==> UnmarshalItems(MarshalItems(d.value.items)) == Ok(d.value.items)
    ensures CleanText(d) <==> CleanItems(d.value.items)
  {
    assert Utf8.Coerce("") == "";
    CleanVec(d);
    MarshalVec(d);
    VecIsItsItems(d);
    hide Utf8.Coerce, KindName, Object, MarshalItems, UnmarshalItems, CleanItems, CleanText, Marshal, Unmarshal,
        Shaped, FromValue;
    var items := MarshalItems(d.value.items);
    FromArray(items);
    UnmarshalObject(KVec, [Field("value", JArray(items))], "");
  }

  /** A map reads back as whatever its entries read back as. */
  lemma {:induction false} MapRoundTrip(d: DecodedValue)
    requires Shaped(d) && d.kind.KMap?
    ensures Unmarshal(Marshal(d)) == Ok(d) <==> UnmarshalEntries(MarshalEntries(d.entries.list)) == Ok(d.entries.list)
    ensures CleanText(d) <==> CleanEntries(d.entries.list)
  {
    assert Utf8.Valid("") && Utf8.Coerce("") == "";
    hide Utf8.Coerce, Utf8.Valid, KindName, Object, MarshalEntries, UnmarshalEntries, CleanEntries, Unmarshal,
        ShapedEntries;
    UnmarshalObject(KMap, [Field("value", JArray(MarshalEntries(d.entries.list)))], "");
    assert Marshal(d) == Object(KindName(KMap), [Field("value", JArray(MarshalEntries(d.entries.list)))], "");
  }

  /** UnmarshalJSON undoes MarshalJSON on everything Decode can produce, at any depth,
      exactly when every string in it is valid UTF-8. */
  lemma {:induction false} RoundTrip(d: DecodedValue)
    requires Shaped(d)
    ensures Unmarshal(Marshal(d)) == Ok(d) <==> CleanText(d)
    decreases d, 1
  {
    hide Marshal, Unmarshal, CleanText, MarshalItems, UnmarshalItems, CleanItems, MarshalEntries, UnmarshalEntries,
        CleanEntries;
    if d.kind.KVec? {
      ItemsRoundTrip(d.value.items);
      VecRoundTrip(d);
    } else if d.kind.KMap? {
      EntriesRoundTrip(d.entries.list);
      MapRoundTrip(d);
    } else {
      LeafRoundTrip(d);
    }
  }

  lemma {:induction false} ItemsRoundTrip(items: seq<DecodedValue>)
    requires ShapedItems(items)
    ensures UnmarshalItems(MarshalItems(items)) == Ok(items) <==> CleanItems(items)
    decreases items, 0
  {
    hide Marshal, Unmarshal, CleanText, Shaped, MarshalItems, UnmarshalItems, CleanItems, ShapedItems;
    if items == [] {
      NoItems();
    } else {
      var init, d := items[..|items| - 1], items[|items| - 1];
      assert items == init + [d];
      MarshalItemsStep(init, d);
      UnmarshalItemsStep(MarshalItems(init), Marshal(d));
      ItemsRoundTrip(init);
      RoundTrip(d);
      if UnmarshalItems(MarshalItems(init)).Ok? && Unmarshal(Marshal(d)).Ok? {
        LastDecides(UnmarshalItems(MarshalItems(init)).value, Unmarshal(Marshal(d)).value, init, d);
      }
    }
  }

  lemma NoItems()
    ensures MarshalItems([]) == [] && UnmarshalItems([]) == Ok([]) && CleanItems([])
    ensures MarshalEntries([]) == [] && UnmarshalEntries([]) == Ok([]) && CleanEntries([])
  {
  }

  lemma LastDecides<T>(a: seq<T>, x: T, b: seq<T>, y: T)
    ensures a + [x] == b + [y] <==> a == b && x == y
  {
    if a + [x] == b + [y] {
      assert (a + [x])[..|a|] == a && (b + [y])[..|b|] == b;
      assert (a + [x])[|a|] == x && (b + [y])[|b|] == y;
    }
  }

  lemma {:induction false} MarshalItemsStep(init: seq<DecodedValue>, d: DecodedValue)
    ensures MarshalItems(init + [d]) == MarshalItems(init) + [Marshal(d)]
    ensures CleanItems(init + [d]) <==> CleanItems(init) && CleanText(d)
    ensures ShapedItems(init + [d]) <==> ShapedItems(init) && Shaped(d)
  {
    hide Marshal, CleanText, Shaped;
    assert (init + [d])[..|init|] == init;
  }

  lemma {:induction false} UnmarshalItemsStep(init: seq<Json>, j: Json)
    ensures UnmarshalItems(init + [j]) ==
            match UnmarshalItems(init)
            case Err(e) => Err(e)
            case Ok(list) => match Unmarshal(j) case Err(e) => Err(e) case Ok(d) => Ok(list + [d])
  {
    hide Unmarshal;
    assert (init + [j])[..|init|] == init;
  }

  lemma {:induction false} EntriesRoundTrip(list: seq<MapEntry>)
    requires ShapedEntries(list)
    ensures UnmarshalEntries(MarshalEntries(list)) == Ok(list) <==> CleanEntries(list)
    decreases list, 0
  {
    hide MarshalEntry, UnmarshalEntry, CleanEntry, ShapedEntry, MarshalEntries, UnmarshalEntries, CleanEntries,
        ShapedEntries;
    if list == [] {
      NoItems();
    } else {
      var init, e := list[..|list| - 1], list[|list| - 1];
      assert list == init + [e];
      MarshalEntriesStep(init, e);
      UnmarshalEntriesStep(MarshalEntries(init), MarshalEntry(e));
      EntriesRoundTrip(init);
      EntryRoundTrip(e);
      if UnmarshalEntries(MarshalEntries(init)).Ok? && UnmarshalEntry(MarshalEntry(e)).Ok? {
        LastDecides(UnmarshalEntries(MarshalEntries(init)).value, UnmarshalEntry(MarshalEntry(e)).value, init, e);
      }
    }
  }

  lemma {:induction false} MarshalEntriesStep(init: seq<MapEntry>, e: MapEntry)
    ensures MarshalEntries(init + [e]) == MarshalEntries(init) + [MarshalEntry(e)]
    ensures CleanEntries(init + [e]) <==> CleanEntries(init) && CleanEntry(e)
    ensures ShapedEntries(init + [e]) <==> ShapedEntries(init) && ShapedEntry(e)
  {
    hide MarshalEntry, CleanEntry, ShapedEntry;
    assert (init + [e])[..|init|] == init;
  }

  lemma {:induction false} UnmarshalEntriesStep(init: seq<Json>, j: Json)
    ensures UnmarshalEntries(init + [j]) ==
            match UnmarshalEntries(init)
            case Err(e) => Err(e)
            case Ok(list) => match UnmarshalEntry(j) case Err(e) => Err(e) case Ok(entry) => Ok(list + [entry])
  {
    hide UnmarshalEntry;
    assert (init + [j])[..|init|] == init;
  }

  lemma {:induction false} EntryRoundTrip(e: MapEntry)
    requires ShapedEntry(e)
    ensures UnmarshalEntry(MarshalEntry(e)) == Ok(e) <==> CleanEntry(e)
    decreases e, 1
  {
    RoundTrip(e.key);
    RoundTrip(e.value);
    EntryOfTwo(Marshal(e.key), Marshal(e.value));
    hide Marshal, Unmarshal, CleanText, Shaped, EntryFrom;
  }

  lemma {:induction false} EntryOfTwo(key: Json, value: Json)
    ensures EntryFrom([Field("key", key), Field("value", value)]) ==
            match Unmarshal(key)
            case Err(e) => Err(e)
            case Ok(k) => match Unmarshal(value) case Err(e) => Err(e) case Ok(v) => Ok(MapEntry(k, v))
  {
    FoldsToItself();
    hide Unmarshal, Fold;
    var k, v := Field("key", key), Field("value", value);
    assert [k, v][..1] == [k] && [k][..0] == [];
    assert EntryFrom([]) == Ok(MapEntry(Zero, Zero));
    assert EntryFrom([k]) == MemberInto(MapEntry(Zero, Zero), k);
    assert EntryFrom([k, v]) == if EntryFrom([k]).Err? then EntryFrom([k]) else MemberInto(EntryFrom([k]).value, v);
  }

  // ---- From ScVal to JSON and back ----

  /** The encoders emit plain ASCII, and the XDR encoder never an empty string. */
  ghost predicate PlainCodec(codec: Codec) {
    && (forall a :: codec.strkey(a).Some? ==> Utf8.Ascii(codec.strkey(a).value))
    && (forall v :: codec.xdr(v).Some? ==> codec.xdr(v).value != "" && Utf8.Ascii(codec.xdr(v).value))
  }

  /** Every string and symbol inside an ScVal is valid UTF-8. */
  predicate TextsValid(v: ScVal)
    decreases v, 1
  {
    match v
    case ScvString(s) => Utf8.Valid(s)
    case ScvSymbol(s) => Utf8.Valid(s)
    case ScvVec(items) => ItemTextsValid(items)
    case ScvMap(entries) => EntryTextsValid(entries)
    case _ => true
  }

  predicate ItemTextsValid(items: seq<ScVal>)
    decreases items, 0
  {
    items == [] || (ItemTextsValid(items[..|items| - 1]) && TextsValid(items[|items| - 1]))
  }

  predicate EntryTextsValid(entries: seq<ScEntry>)
    decreases entries, 0
  {
    entries == [] || (EntryTextsValid(entries[..|entries| - 1]) && EntryTextValid(entries[|entries| - 1]))
  }

  predicate EntryTextValid(e: ScEntry)
    decreases e, 1
  {
    TextsValid(e.key) && TextsValid(e.val)
  }

  lemma {:induction false} FormatIntIsAscii(n: int)
    ensures Utf8.Valid(FormatInt(n))
  {
    FormatNatReads(if n < 0 then -n else n);
    Utf8.AsciiIsValid(FormatInt(n));
  }

  lemma {:induction false} HexIsAscii(bytes: seq<Byte>)
    ensures Utf8.Ascii(Hex(bytes))
  {
    if bytes != [] {
      HexIsAscii(bytes[1..]);
    }
  }

  lemma {:induction false} LeafDecodes(codec: Codec, v: ScVal)
    requires PlainCodec(codec) && !v.ScvVec? && !v.ScvMap?
    ensures Shaped(Decoded(codec, v)) && !Decoded(codec, v).kind.KVec? && !Decoded(codec, v).kind.KMap?
    ensures CleanText(Decoded(codec, v)) <==> TextsValid(v)
  {
    LeafShape(codec, v);
    LeafText(codec, v);
    CleanLeaf(Decoded(codec, v));
    hide Decoded, CleanText, Shaped, TextsValid;
  }

  lemma {:induction false} LeafShape(codec: Codec, v: ScVal)
    requires PlainCodec(codec) && !v.ScvVec? && !v.ScvMap?
    ensures Shaped(Decoded(codec, v)) && !Decoded(codec, v).kind.KVec? && !Decoded(codec, v).kind.KMap?
  {
    hide FormatInt, Hex, Limbs.U128Value, Limbs.I128Value, Limbs.U256Value, Limbs.I256Value;
  }

  lemma {:induction false} LeafText(codec: Codec, v: ScVal)
    requires PlainCodec(codec) && !v.ScvVec? && !v.ScvMap?
    ensures var d := Decoded(codec, v);
            Utf8.Valid(d.xdr) && (d.value.Str? ==> (Utf8.Valid(d.value.s) <==> TextsValid(v)))
                && (!d.value.Str? ==> TextsValid(v))
  {
    assert Utf8.Ascii("") && Utf8.Ascii(UNENCODABLE_MARKER);
    var d := Decoded(codec, v);
    Utf8.AsciiIsValid(d.xdr);
    match v {
      case ScvU64(n) => FormatIntIsAscii(n);
      case ScvI64(n) => FormatIntIsAscii(n);
      case ScvTimepoint(t) => FormatIntIsAscii(t);
      case ScvDuration(t) => FormatIntIsAscii(t);
      case ScvU128(hi, lo) => FormatIntIsAscii(Limbs.U128Value(hi, lo));
      case ScvI128(hi, lo) => FormatIntIsAscii(Limbs.I128Value(hi, lo));
      case ScvU256(a, b, c, e) => FormatIntIsAscii(Limbs.U256Value(a, b, c, e));
      case ScvI256(a, b, c, e) => FormatIntIsAscii(Limbs.I256Value(a, b, c, e));
      case ScvBytes(bytes) =>
        HexIsAscii(bytes);
        Utf8.AsciiIsValid(Hex(bytes));
      case ScvAddress(a) =>
        if codec.strkey(a).Some? {
          Utf8.AsciiIsValid(codec.strkey(a).value);
        }
      case _ =>
    }
  }

  /** Everything Decode produces has its variant's shape, and its text is clean exactly when the ScVal's is. */
  lemma {:induction false} DecodeIsShaped(codec: Codec, v: ScVal)
    requires PlainCodec(codec)
    ensures Shaped(Decoded(codec, v))
    ensures CleanText(Decoded(codec, v)) <==> TextsValid(v)
    decreases v, 1
  {
    hide PlainCodec, Decoded, Shaped, CleanText, TextsValid;
    if v.ScvVec? {
      ItemsAreShaped(codec, v.items);
      VecDecodes(codec, v);
    } else if v.ScvMap? {
      EntriesAreShaped(codec, v.entries);
      MapDecodes(codec, v);
    } else {
      LeafDecodes(codec, v);
    }
  }

  lemma EmptyIsValid()
    ensures Utf8.Valid("")
  {
  }

  lemma VecDecodes(codec: Codec, v: ScVal)
    requires v.ScvVec? && ShapedItems(DecodedItems(codec, v.items))
    ensures Shaped(Decoded(codec, v))
    ensures CleanText(Decoded(codec, v)) <==> CleanItems(DecodedItems(codec, v.items))
    ensures TextsValid(v) <==> ItemTextsValid(v.items)
  {
    hide ShapedItems, CleanItems, DecodedItems, ItemTextsValid, Utf8.Valid;
    EmptyIsValid();
  }

  lemma MapDecodes(codec: Codec, v: ScVal)
    requires v.ScvMap? && ShapedEntries(DecodedEntries(codec, v.entries))
    ensures Shaped(Decoded(codec, v))
    ensures CleanText(Decoded(codec, v)) <==> CleanEntries(DecodedEntries(codec, v.entries))
    ensures TextsValid(v) <==> EntryTextsValid(v.entries)
  {
    hide ShapedEntries, CleanEntries, DecodedEntries, EntryTextsValid, Utf8.Valid;
    EmptyIsValid();
  }

  lemma {:induction false} ItemsAreShaped(codec: Codec, items: seq<ScVal>)
    requires PlainCodec(codec)
    ensures ShapedItems(DecodedItems(codec, items))
    ensures CleanItems(DecodedItems(codec, items)) <==> ItemTextsValid(items)
    decreases items, 0
  {
    hide Decoded, Shaped, CleanText, TextsValid, PlainCodec;
    if items != [] {
      var n := |items| - 1;
      ItemsAreShaped(codec, items[..n]);
      DecodeIsShaped(codec, items[n]);
      assert DecodedItems(codec, items)[..n] == DecodedItems(codec, items[..n]);
    }
  }

  lemma {:induction false} EntriesAreShaped(codec: Codec, entries: seq<ScEntry>)
    requires PlainCodec(codec)
    ensures ShapedEntries(DecodedEntries(codec, entries))
    ensures CleanEntries(DecodedEntries(codec, entries)) <==> EntryTextsValid(entries)
    decreases entries, 0
  {
    hide DecodedEntry, ShapedEntry, CleanEntry, EntryTextValid, PlainCodec;
    if entries != [] {
      var n := |entries| - 1;
      EntriesAreShaped(codec, entries[..n]);
      EntryIsShaped(codec, entries[n]);
      assert DecodedEntries(codec, entries)[..n] == DecodedEntries(codec, entries[..n]);
    }
  }

  lemma {:induction false} EntryIsShaped(codec: Codec, e: ScEntry)
    requires PlainCodec(codec)
    ensures ShapedEntry(DecodedEntry(codec, e))
    ensures CleanEntry(DecodedEntry(codec, e)) <==> EntryTextValid(e)
    decreases e, 1
  {
    DecodeIsShaped(codec, e.key);
    DecodeIsShaped(codec, e.val);
    hide Decoded, Shaped, CleanText, TextsValid, PlainCodec;
  }

  /** A decoded value survives storage as JSON exactly when every string and symbol in the ScVal is valid UTF-8. */
  lemma {:induction false} DecodedRoundTrip(codec: Codec, v: ScVal)
    requires PlainCodec(codec)
    ensures Unmarshal(Marshal(Decoded(codec, v))) == Ok(Decoded(codec, v)) <==> TextsValid(v)
  {
    hide Decoded, Shaped, CleanText, TextsValid, PlainCodec, Marshal, Unmarshal;
    DecodeIsShaped(codec, v);
    RoundTrip(Decoded(codec, v));
  }

  /** The receiver UnmarshalJSON writes into, one field at a time. */
  class Receiver {
    var kind: Kind
    var value: Content
    var entries: Entries
    var xdr: string

    ghost function Read(): DecodedValue
      reads this
    {
      DecodedValue(kind, value, entries, xdr)
    }

    constructor ()
      ensures Read() == Zero
    {
      kind, value, entries, xdr := Named(""), Nil, NoEntries, "";
    }

    /** On success the receiver holds exactly what the JSON says, whatever it held before. */
    method UnmarshalJSON(j: Json) returns (ok: bool)
      modifies this
      ensures ok <==> Unmarshal(j).Ok?
      ensures ok ==> Ok(Read()) == Unmarshal(j)
    {
      if !j.JNull? && !j.JObject? {
        return false;
      }
      var fields := if j.JNull? then [] else j.fields;
      var rawType := ReadText(fields, "type");
      var rawXdr := ReadText(fields, "xdr");
      if rawType.Err? || rawXdr.Err? {
        return false;
      }
      assert KindOf("") == Named("");
      hide KindOf, UnmarshalEntryList, UnmarshalContent;
      kind := KindOf(rawType.value);
      xdr := rawXdr.value;
      value := Nil;
      entries := NoEntries;
      var k := Find(fields, "value");
      if k == |fields| {
        return true;
      }
      if kind == KMap {
        var list := UnmarshalEntryList(fields[k].value);
        if list.Err? {
          return false;
        }
        entries := list.value;
      } else {
        var content := UnmarshalContent(kind, fields[k].value);
        if content.Err? {
          return false;
        }
        value := content.value;
      }
      return true;
    }
  }
}
