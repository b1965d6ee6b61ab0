/** The SDK's schema of a decoded value: what it accepts from the wire, and what a caller
    then reads of the ScVal it came from. */
module Sdk {
  import opened Wrappers
  import opened Numerals
  import opened Limbs
  import opened Decoder
  import opened Json
  import Wire
  import Utf8

  const MAX_SAFE_INTEGER := 0x1f_ffff_ffff_ffff

  /** The values the schema yields, by the type they carry. */
  datatype Value =
    | Text(tag: string, s: string) | Flag(b: bool) | Number(tag: string, n: int)
    | Array(tag: string, items: seq<Value>) | Table(list: seq<Pair>) | Void | Unnamed(xdr: string)

  datatype Pair = Pair(key: Value, value: Value)

  predicate IsTextTag(tag: string) {
    || tag == "address" || tag == "symbol" || tag == "string" || tag == "bytes" || tag == "u64" || tag == "i64"
    || tag == "u128" || tag == "i128" || tag == "u256" || tag == "i256" || tag == "timepoint" || tag == "duration"
  }

  /** The member that counts: the last one of the name, spelled exactly so. */
  function Last(fields: seq<Field>, name: string): (k: nat)
    ensures k <= |fields|
    ensures k < |fields| ==> fields[k].name == name
    ensures forall i | k < i < |fields| :: fields[i].name != name
    ensures k == |fields| ==> forall i | 0 <= i < |fields| :: fields[i].name != name
  {
    if fields == [] then 0
    else if fields[|fields| - 1].name == name then |fields| - 1
    else
      var k := Last(fields[..|fields| - 1], name);
      if k == |fields| - 1 then |fields| else k
  }

  function Parse(j: Json): Option<Value>
    decreases j, 1
  {
    if !j.JObject? then None
    else
      var t, v, x := Last(j.fields, "type"), Last(j.fields, "value"), Last(j.fields, "xdr");
      if t == |j.fields| || !j.fields[t].value.JString? then None
      else
        var tag := j.fields[t].value.s;
        if tag == "void" then Some(Void)
        else if tag == "unknown" then
          if x < |j.fields| && j.fields[x].value.JString? && j.fields[x].value.s != "" then
            Some(Unnamed(j.fields[x].value.s))
          else None
        else if v == |j.fields| then None
        else ParseValue(tag, j.fields[v].value)
  }

  function ParseValue(tag: string, j: Json): Option<Value>
    decreases j, 0
  {
    match j
    case JString(s) => if IsTextTag(tag) then Some(Text(tag, s)) else None
    case JBool(b) => if tag == "bool" then Some(Flag(b)) else None
    case JNumber(n) =>
      if (tag == "u32" && 0 <= n <= MAX_SAFE_INTEGER) || (tag == "i32" && -MAX_SAFE_INTEGER <= n <= MAX_SAFE_INTEGER)
      then Some(Number(tag, n)) else None
    case JArray(items) =>
      if tag == "vec" || tag == "tuple" then
        match ParseItems(items) case None => None case Some(list) => Some(Array(tag, list))
      else if tag == "map" then
        match ParsePairs(items) case None => None case Some(list) => Some(Table(list))
      else None
    case _ => None
  }

  function ParseItems(items: seq<Json>): Option<seq<Value>>
    decreases items, 0
  {
    if items == [] then Some([])
    else
      var n := |items| - 1;
      var init, last := ParseItems(items[..n]), Parse(items[n]);
      if init.None? || last.None? then None else Some(init.value + [last.value])
  }

  function ParsePairs(items: seq<Json>): Option<seq<Pair>>
    decreases items, 0
  {
    if items == [] then Some([])
    else
      var n := |items| - 1;
      var init, last := ParsePairs(items[..n]), ParsePair(items[n]);
      if init.None? || last.None? then None else Some(init.value + [last.value])
  }

  function ParsePair(j: Json): Option<Pair>
    decreases j, 1
  {
    if !j.JObject? then None
    else
      var k, v := Last(j.fields, "key"), Last(j.fields, "value");
      if k == |j.fields| || v == |j.fields| then None
      else
        var key, value := Parse(j.fields[k].value), Parse(j.fields[v].value);
        if key.None? || value.None? then None else Some(Pair(key.value, value.value))
  }

  /** An array is read item by item. */
  lemma {:induction false} ItemsParse(items: seq<Json>)
    ensures var r := ParseItems(items);
            && (r.Some? <==> forall i | 0 <= i < |items| :: Parse(items[i]).Some?)
            && (r.Some? ==> |r.value| == |items| && forall i | 0 <= i < |items| :: Parse(items[i]) == Some(r.value[i]))
  {
    hide Parse;
    if items != [] {
      var n := |items| - 1;
      ItemsParse(items[..n]);
      assert forall i | 0 <= i < n :: items[..n][i] == items[i];
    }
  }

  lemma {:induction false} PairsParse(items: seq<Json>)
    ensures var r := ParsePairs(items);
            && (r.Some? <==> forall i | 0 <= i < |items| :: ParsePair(items[i]).Some?)
            && (r.Some? ==>
                  |r.value| == |items| && forall i | 0 <= i < |items| :: ParsePair(items[i]) == Some(r.value[i]))
  {
    hide ParsePair;
    if items != [] {
      var n := |items| - 1;
      PairsParse(items[..n]);
      assert forall i | 0 <= i < n :: items[..n][i] == items[i];
    }
  }

  // ---- What a caller reads of the ScVal ----

  /** The decimal of a number, under its type. */
  predicate TellsNumber(x: Value, tag: string, n: int) {
    x.Text? && x.tag == tag && SaysDecimal(x.s, n)
  }

  predicate TellsUnknown(codec: Codec, v: ScVal, x: Value) {
    x == Unnamed(match codec.xdr(v) case Some(text) => text case None => "=")
  }

  /** The type and the content a caller reads, for every variant and at any nesting. Text that
      is not valid UTF-8 arrives as the encoder wrote it. */
  predicate Tells(codec: Codec, v: ScVal, x: Value)
    decreases v
  {
    match v
    case ScvBool(b) => x == Flag(b)
    case ScvVoid => x == Void
    case ScvU32(n) => x == Number("u32", n)
    case ScvI32(n) => x == Number("i32", n)
    case ScvU64(n) => TellsNumber(x, "u64", n)
    case ScvI64(n) => TellsNumber(x, "i64", n)
    case ScvTimepoint(t) => TellsNumber(x, "timepoint", t)
    case ScvDuration(t) => TellsNumber(x, "duration", t)
    case ScvU128(hi, lo) => TellsNumber(x, "u128", hi * TWO64 + lo)
    case ScvI128(hi, lo) => TellsNumber(x, "i128", hi * TWO64 + lo)
    case ScvU256(hiHi, hiLo, loHi, loLo) =>
      TellsNumber(x, "u256", ((hiHi * TWO64 + hiLo) * TWO64 + loHi) * TWO64 + loLo)
    case ScvI256(hiHi, hiLo, loHi, loLo) =>
      TellsNumber(x, "i256", ((hiHi * TWO64 + hiLo) * TWO64 + loHi) * TWO64 + loLo)
    case ScvBytes(bytes) => x.Text? && x.tag == "bytes" && SaysBytes(x.s, bytes)
    case ScvString(s) => x == Text("string", Utf8.Coerce(s))
    case ScvSymbol(s) => x == Text("symbol", Utf8.Coerce(s))
    case ScvAddress(a) =>
      if codec.strkey(a).Some? && codec.strkey(a).value != "" then x == Text("address", codec.strkey(a).value)
      else TellsUnknown(codec, v, x)
    case ScvVec(items) =>
      && x.Array? && x.tag == "vec" && |x.items| == |items|
      && forall i | 0 <= i < |items| :: Tells(codec, items[i], x.items[i])
    case ScvMap(entries) =>
      && x.Table? && |x.list| == |entries|
      && forall i | 0 <= i < |entries| ::
           Tells(codec, entries[i].key, x.list[i].key) && Tells(codec, entries[i].val, x.list[i].value)
    case ScvNullVec => TellsUnknown(codec, v, x)
    case ScvNullMap => TellsUnknown(codec, v, x)
    case ScvOther(_, _) => TellsUnknown(codec, v, x)
  }

  // ---- The members the encoder writes are those the schema looks up ----

  lemma {:induction false} TwoMembers(j: Json, a: string, b: string)
    requires a != b && Wire.Members(j, [a, b])
    ensures Last(j.fields, a) == 0 && Last(j.fields, b) == 1
    ensures forall c | c != a && c != b :: Last(j.fields, c) == 2
  {
    assert j.fields[0].name == a && j.fields[1].name == b;
  }

  lemma {:induction false} OneMember(j: Json, a: string)
    requires Wire.Members(j, [a])
    ensures Last(j.fields, a) == 0
    ensures forall c | c != a :: Last(j.fields, c) == 1
  {
    assert j.fields[0].name == a;
  }

  lemma NamesDiffer()
    ensures "type" != "value" && "type" != "xdr" && "value" != "xdr" && "key" != "value"
  {
    assert "type"[0] == 't' && "value"[0] == 'v' && "xdr"[0] == 'x' && "key"[0] == 'k';
  }

  lemma {:induction false} TaggedParses(j: Json, tag: string)
    requires Wire.Members(j, ["type", "value"]) && j.fields[0].value == JString(tag)
    requires tag != "void" && tag != "unknown"
    ensures Parse(j) == ParseValue(tag, j.fields[1].value)
  {
    NamesDiffer();
    TwoMembers(j, "type", "value");
    hide ParseValue, Last;
  }

  lemma {:induction false} AsciiIsKept(s: string)
    requires Utf8.Ascii(s)
    ensures Utf8.Coerce(s) == s
  {
    Utf8.AsciiIsValid(s);
    Utf8.ValidIsKept(s);
  }

  lemma {:induction false} DecimalIsAscii(text: string, n: int)
    requires SaysDecimal(text, n)
    ensures Utf8.Ascii(text)
  {
    hide Places;
    if n < 0 {
      assert forall i | 0 < i < |text| :: text[i] == text[1..][i - 1];
    }
  }

  lemma {:induction false} BytesAreAscii(text: string, bytes: seq<Byte>)
    requires SaysBytes(text, bytes)
    ensures Utf8.Ascii(text)
  {
    forall i | 0 <= i < |text|
      ensures text[i] as int < 0x80
    {
      assert i == 2 * (i / 2) || i == 2 * (i / 2) + 1;
      assert Nibble(text[2 * (i / 2)], bytes[i / 2] / 16) && Nibble(text[2 * (i / 2) + 1], bytes[i / 2] % 16);
    }
  }

  lemma {:induction false} TextParses(j: Json, tag: string, c: Content)
    requires Wire.TaggedText(j, tag, c) && IsTextTag(tag)
    ensures Parse(j) == Some(Text(tag, Utf8.Coerce(c.s)))
  {
    hide Parse, Utf8.Coerce;
    assert tag != "void" && tag != "unknown";
    TaggedParses(j, tag);
  }

  lemma {:induction false} NumberTells(codec: Codec, d: DecodedValue, kind: Kind, n: int, j: Json, tag: string)
    requires Decimal(d, kind, n) && Wire.TaggedText(j, tag, d.value) && IsTextTag(tag)
    ensures Parse(j).Some? && TellsNumber(Parse(j).value, tag, n)
  {
    hide Parse, SaysDecimal, Utf8.Coerce;
    TextParses(j, tag, d.value);
    DecimalIsAscii(d.value.s, n);
    AsciiIsKept(d.value.s);
  }

  // ---- What the indexer writes, the SDK reads ----

  lemma {:induction false} PlainLeafTells(codec: Codec, v: ScVal, d: DecodedValue, j: Json)
    requires v.ScvBool? || v.ScvVoid? || v.ScvU32? || v.ScvI32?
    requires Stands(codec, v, d) && Wire.Written(d, j)
    ensures Parse(j).Some? && Tells(codec, v, Parse(j).value)
  {
    hide Utf8.Coerce, Last, Parse;
    TagsDiffer();
    if v.ScvVoid? {
      VoidParses(j);
    } else {
      TaggedParses(j, j.fields[0].value.s);
    }
  }

  lemma {:induction false} VoidParses(j: Json)
    requires Wire.Members(j, ["type"]) && j.fields[0].value == JString("void")
    ensures Parse(j) == Some(Void)
  {
    hide Last;
    OneMember(j, "type");
  }

  lemma TagsDiffer()
    ensures "bool" != "void" && "u32" != "void" && "i32" != "void"
    ensures "bool" != "unknown" && "u32" != "unknown" && "i32" != "unknown"
    ensures !IsTextTag("bool") && "u32" != "i32"
    ensures "vec" != "void" && "vec" != "unknown" && "map" != "void" && "map" != "unknown"
    ensures "map" != "vec" && "map" != "tuple"
  {
    assert "bool"[0] == 'b' && "u32"[0] == 'u' && "i32"[0] == 'i' && "vec"[1] == 'e' && "map"[0] == 'm';
    assert "void"[0] == 'v' && "void"[1] == 'o' && |"u32"| == 3 && |"unknown"| == 7 && "bool"[1] == 'o';
    assert "bytes"[1] == 'y';
  }

  lemma {:induction false} NumberLeafTells(codec: Codec, v: ScVal, d: DecodedValue, j: Json)
    requires v.ScvU64? || v.ScvI64? || v.ScvTimepoint? || v.ScvDuration?
    requires Stands(codec, v, d) && Wire.Written(d, j)
    ensures Parse(j).Some? && Tells(codec, v, Parse(j).value)
  {
    hide Parse, SaysDecimal, Utf8.Coerce, Wire.TaggedText;
    match v {
      case ScvU64(n) => NumberTells(codec, d, KU64, n, j, "u64");
      case ScvI64(n) => NumberTells(codec, d, KI64, n, j, "i64");
      case ScvTimepoint(t) => NumberTells(codec, d, KTimepoint, t, j, "timepoint");
      case ScvDuration(t) => NumberTells(codec, d, KDuration, t, j, "duration");
    }
  }

  lemma {:induction false} WideLeafTells(codec: Codec, v: ScVal, d: DecodedValue, j: Json)
    requires v.ScvU128? || v.ScvI128?
    requires Stands(codec, v, d) && Wire.Written(d, j)
    ensures Parse(j).Some? && Tells(codec, v, Parse(j).value)
  {
    hide Parse, SaysDecimal, Utf8.Coerce, Wire.TaggedText;
    match v {
      case ScvU128(hi, lo) => NumberTells(codec, d, KU128, hi * TWO64 + lo, j, "u128");
      case ScvI128(hi, lo) => NumberTells(codec, d, KI128, hi * TWO64 + lo, j, "i128");
    }
  }

  lemma {:induction false} WidestLeafTells(codec: Codec, v: ScVal, d: DecodedValue, j: Json)
    requires v.ScvU256? || v.ScvI256?
    requires Stands(codec, v, d) && Wire.Written(d, j)
    ensures Parse(j).Some? && Tells(codec, v, Parse(j).value)
  {
    hide Parse, SaysDecimal, Utf8.Coerce, Wire.TaggedText;
    match v {
      case ScvU256(hiHi, hiLo, loHi, loLo) =>
        NumberTells(codec, d, KU256, ((hiHi * TWO64 + hiLo) * TWO64 + loHi) * TWO64 + loLo, j, "u256");
      case ScvI256(hiHi, hiLo, loHi, loLo) =>
        NumberTells(codec, d, KI256, ((hiHi * TWO64 + hiLo) * TWO64 + loHi) * TWO64 + loLo, j, "i256");
    }
  }

  lemma {:induction false} TextLeafTells(codec: Codec, v: ScVal, d: DecodedValue, j: Json)
    requires PlainCodec(codec) && !FallsBack(codec, v)
    requires v.ScvBytes? || v.ScvString? || v.ScvSymbol? || v.ScvAddress?
    requires Stands(codec, v, d) && Wire.Written(d, j)
    ensures Parse(j).Some? && Tells(codec, v, Parse(j).value)
  {
    hide Parse, SaysBytes, Utf8.Coerce, Wire.TaggedText;
    match v {
      case ScvBytes(bytes) =>
        TextParses(j, "bytes", d.value);
        BytesAreAscii(d.value.s, bytes);
        AsciiIsKept(d.value.s);
      case ScvString(_) => TextParses(j, "string", d.value);
      case ScvSymbol(_) => TextParses(j, "symbol", d.value);
      case ScvAddress(_) =>
        TextParses(j, "address", d.value);
        AsciiIsKept(d.value.s);
    }
  }

  lemma {:induction false} UnnamedParses(j: Json, xdr: string)
    requires Wire.Members(j, ["type", "xdr"]) && xdr != ""
    requires j.fields[0].value == JString("unknown") && j.fields[1].value == JString(xdr)
    ensures Parse(j) == Some(Unnamed(xdr))
  {
    hide Last;
    NamesDiffer();
    TwoMembers(j, "type", "xdr");
    assert "void"[0] == 'v' && "unknown"[0] == 'u';
  }

  lemma {:induction false} FallbackIsOpaque(codec: Codec, v: ScVal, d: DecodedValue)
    requires PlainCodec(codec) && FallsBack(codec, v) && Stands(codec, v, d)
    ensures d.kind.KUnknown? && d.xdr != "" && Utf8.Ascii(d.xdr)
    ensures d.xdr == match codec.xdr(v) case Some(text) => text case None => "="
  {
    assert Utf8.Ascii("=");
  }

  lemma {:induction false} UnknownTells(codec: Codec, v: ScVal, d: DecodedValue, j: Json)
    requires PlainCodec(codec) && FallsBack(codec, v) && Stands(codec, v, d) && Wire.Written(d, j)
    ensures Parse(j).Some? && Tells(codec, v, Parse(j).value)
  {
    hide Utf8.Coerce, Utf8.Ascii, PlainCodec, Parse, Stands;
    FallbackIsOpaque(codec, v, d);
    AsciiIsKept(d.xdr);
    UnnamedParses(j, d.xdr);
  }

  /** Any value that stands for an ScVal, written as Marshal writes it. */
  lemma {:induction false} WrittenTells(codec: Codec, v: ScVal, d: DecodedValue, j: Json)
    requires PlainCodec(codec) && Stands(codec, v, d) && Wire.Written(d, j)
    ensures Parse(j).Some? && Tells(codec, v, Parse(j).value)
    decreases v, 1
  {
    hide PlainCodec, Stands, Wire.Written, Parse, Tells;
    if FallsBack(codec, v) {
      UnknownTells(codec, v, d, j);
    } else {
      match v {
        case ScvVec(_) => VecTells(codec, v, d, j);
        case ScvMap(_) => MapTells(codec, v, d, j);
        case ScvBool(_) => PlainLeafTells(codec, v, d, j);
        case ScvVoid => PlainLeafTells(codec, v, d, j);
        case ScvU32(_) => PlainLeafTells(codec, v, d, j);
        case ScvI32(_) => PlainLeafTells(codec, v, d, j);
        case ScvU64(_) => NumberLeafTells(codec, v, d, j);
        case ScvI64(_) => NumberLeafTells(codec, v, d, j);
        case ScvTimepoint(_) => NumberLeafTells(codec, v, d, j);
        case ScvDuration(_) => NumberLeafTells(codec, v, d, j);
        case ScvU128(_, _) => WideLeafTells(codec, v, d, j);
        case ScvI128(_, _) => WideLeafTells(codec, v, d, j);
        case ScvU256(_, _, _, _) => WidestLeafTells(codec, v, d, j);
        case ScvI256(_, _, _, _) => WidestLeafTells(codec, v, d, j);
        case _ => TextLeafTells(codec, v, d, j);
      }
    }
  }

  lemma {:induction false} VecItemWritten(codec: Codec, v: ScVal, d: DecodedValue, j: Json)
    requires v.ScvVec? && Stands(codec, v, d) && Wire.Written(d, j)
    ensures Wire.TaggedArray(j, "vec", |v.items|) && d.value.List? && |d.value.items| == |v.items|
    ensures forall i | 0 <= i < |v.items| ::
              Stands(codec, v.items[i], d.value.items[i]) && Wire.Written(d.value.items[i], j.fields[1].value.items[i])
  {
  }

  lemma {:induction false} ArrayTells(codec: Codec, v: ScVal, j: Json)
    requires v.ScvVec? && Wire.TaggedArray(j, "vec", |v.items|)
    requires forall i | 0 <= i < |v.items| ::
               Parse(j.fields[1].value.items[i]).Some?
                 && Tells(codec, v.items[i], Parse(j.fields[1].value.items[i]).value)
    ensures Parse(j).Some? && Tells(codec, v, Parse(j).value)
  {
    hide Parse, ParseItems;
    TagsDiffer();
    TaggedParses(j, "vec");
    var parts := j.fields[1].value.items;
    ItemsParse(parts);
    assert ParseValue("vec", j.fields[1].value) == Some(Array("vec", ParseItems(parts).value));
  }

  lemma {:induction false} VecTells(codec: Codec, v: ScVal, d: DecodedValue, j: Json)
    requires v.ScvVec? && PlainCodec(codec) && Stands(codec, v, d) && Wire.Written(d, j)
    ensures Parse(j).Some? && Tells(codec, v, Parse(j).value)
    decreases v, 0
  {
    hide PlainCodec, Parse, Tells, Stands, Wire.Written;
    VecItemWritten(codec, v, d, j);
    var parts := j.fields[1].value.items;
    forall i | 0 <= i < |v.items|
      ensures Parse(parts[i]).Some? && Tells(codec, v.items[i], Parse(parts[i]).value)
    {
      WrittenTells(codec, v.items[i], d.value.items[i], parts[i]);
    }
    ArrayTells(codec, v, j);
  }

  lemma {:induction false} PairParses(j: Json)
    requires Wire.WrittenPair(j) && Parse(j.fields[0].value).Some? && Parse(j.fields[1].value).Some?
    ensures ParsePair(j) == Some(Pair(Parse(j.fields[0].value).value, Parse(j.fields[1].value).value))
  {
    hide Parse, Last;
    NamesDiffer();
    TwoMembers(j, "key", "value");
  }

  lemma {:induction false} MapEntryWritten(codec: Codec, v: ScVal, d: DecodedValue, j: Json, i: nat)
    requires v.ScvMap? && Stands(codec, v, d) && Wire.Written(d, j) && i < |v.entries|
    ensures d.entries.Entries? && i < |d.entries.list| && Wire.TaggedArray(j, "map", |v.entries|)
    ensures var e, part := d.entries.list[i], j.fields[1].value.items[i];
            && Stands(codec, v.entries[i].key, e.key) && Stands(codec, v.entries[i].val, e.value)
            && Wire.WrittenPair(part)
            && Wire.Written(e.key, part.fields[0].value) && Wire.Written(e.value, part.fields[1].value)
  {
    hide Wire.WrittenPair;
  }

  lemma {:induction false} MapIsTagged(codec: Codec, v: ScVal, d: DecodedValue, j: Json)
    requires v.ScvMap? && Stands(codec, v, d) && Wire.Written(d, j)
    ensures Wire.TaggedArray(j, "map", |v.entries|)
  {
  }

  predicate TellsPair(codec: Codec, e: ScEntry, p: Pair) {
    Tells(codec, e.key, p.key) && Tells(codec, e.val, p.value)
  }

  lemma {:induction false} TableTells(codec: Codec, v: ScVal, j: Json)
    requires v.ScvMap? && Wire.TaggedArray(j, "map", |v.entries|)
    requires forall i | 0 <= i < |v.entries| ::
               ParsePair(j.fields[1].value.items[i]).Some?
                 && TellsPair(codec, v.entries[i], ParsePair(j.fields[1].value.items[i]).value)
    ensures Parse(j).Some? && Tells(codec, v, Parse(j).value)
  {
    hide Parse, ParsePair, ParsePairs;
    TagsDiffer();
    TaggedParses(j, "map");
    var parts := j.fields[1].value.items;
    PairsParse(parts);
    var list := ParsePairs(parts).value;
    assert ParseValue("map", j.fields[1].value) == Some(Table(list));
    forall i | 0 <= i < |v.entries|
      ensures Tells(codec, v.entries[i].key, list[i].key) && Tells(codec, v.entries[i].val, list[i].value)
    {
      assert TellsPair(codec, v.entries[i], list[i]);
    }
  }

  lemma {:induction false} MapTells(codec: Codec, v: ScVal, d: DecodedValue, j: Json)
    requires v.ScvMap? && PlainCodec(codec) && Stands(codec, v, d) && Wire.Written(d, j)
    ensures Parse(j).Some? && Tells(codec, v, Parse(j).value)
    decreases v, 0
  {
    hide PlainCodec, Parse, ParsePair, Tells, Stands, Wire.Written;
    MapIsTagged(codec, v, d, j);
    var parts := j.fields[1].value.items;
    forall i | 0 <= i < |v.entries|
      ensures ParsePair(parts[i]).Some? && TellsPair(codec, v.entries[i], ParsePair(parts[i]).value)
    {
      MapEntryWritten(codec, v, d, j, i);
      WrittenTells(codec, v.entries[i].key, d.entries.list[i].key, parts[i].fields[0].value);
      WrittenTells(codec, v.entries[i].val, d.entries.list[i].value, parts[i].fields[1].value);
      PairParses(parts[i]);
    }
    TableTells(codec, v, j);
  }

  /** Whatever ScVal an event holds, the SDK accepts what the indexer writes for it, and a caller
      reads its type and its content. */
  lemma {:induction false} SdkReads(codec: Codec, v: ScVal)
    requires PlainCodec(codec)
    ensures var x := Parse(Marshal(Decoded(codec, v)));
            x.Some? && Tells(codec, v, x.value)
  {
    hide PlainCodec, Stands, Wire.Written, Parse, Tells, Decoded, Marshal, Shaped, CleanText, TextsValid;
    var d := Decoded(codec, v);
    DecodedStands(codec, v, d);
    DecodeIsShaped(codec, v);
    Wire.MarshalWrites(d, Marshal(d));
    WrittenTells(codec, v, d, Marshal(d));
  }
}
