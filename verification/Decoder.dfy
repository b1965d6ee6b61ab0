/** Decoding ScVals into the DecodedValue taxonomy, and the counter of values that
    fall back to unknown. */
module Decoder {
  import opened Wrappers
  import opened Numerals
  import opened Limbs

  type U32 = x: int | 0 <= x < 0x1_0000_0000
  type I32 = x: int | -0x8000_0000 <= x < 0x8000_0000
  type Byte = x: int | 0 <= x < 0x100

  datatype Address = Address(kind: nat, body: seq<Byte>)

  /** A parsed ScVal. A vec or map may be present but null in XDR, and ScvOther
      stands for the variants the taxonomy has no name for. */
  datatype ScVal =
    | ScvBool(b: bool) | ScvVoid
    | ScvU32(u32: U32) | ScvI32(i32: I32) | ScvU64(u64: U64) | ScvI64(i64: I64)
    | ScvTimepoint(at: U64) | ScvDuration(span: U64)
    | ScvU128(uhi: U64, ulo: U64) | ScvI128(ihi: I64, ilo: U64)
    | ScvU256(u0: U64, u1: U64, u2: U64, u3: U64) | ScvI256(i0: I64, i1: U64, i2: U64, i3: U64)
    | ScvBytes(bytes: seq<Byte>) | ScvString(str: string) | ScvSymbol(sym: string)
    | ScvAddress(address: Address)
    | ScvVec(items: seq<ScVal>) | ScvNullVec
    | ScvMap(entries: seq<ScEntry>) | ScvNullMap
    | ScvOther(kind: nat, body: seq<Byte>)

  datatype ScEntry = ScEntry(key: ScVal, val: ScVal)

  /** The variant names of the taxonomy; Named is any other text read back from JSON. */
  datatype Kind =
    | KAddress | KSymbol | KString | KBool | KBytes | KU32 | KI32 | KU64 | KI64 | KU128 | KI128
    | KU256 | KI256 | KTimepoint | KDuration | KVec | KMap | KVoid | KUnknown | Named(name: string)

  /** What the untyped value field can hold. */
  datatype Content = Nil | Bool(b: bool) | Int(n: int) | Str(s: string) | List(items: seq<DecodedValue>)

  /** The entries field; an empty slice and no slice differ. */
  datatype Entries = NoEntries | Entries(list: seq<MapEntry>)

  datatype DecodedValue = DecodedValue(kind: Kind, value: Content, entries: Entries, xdr: string)

  datatype MapEntry = MapEntry(key: DecodedValue, value: DecodedValue)

  /** The strkey and XDR encoders; None is their error. */
  datatype Codec = Codec(strkey: Address -> Option<string>, xdr: ScVal -> Option<string>)

  const UNENCODABLE_MARKER := "="

  function Scalar(kind: Kind, value: Content): DecodedValue {
    DecodedValue(kind, value, NoEntries, "")
  }

  function Unknown(codec: Codec, v: ScVal): DecodedValue {
    DecodedValue(KUnknown, Nil, NoEntries, match codec.xdr(v) case Some(text) => text case None => UNENCODABLE_MARKER)
  }

  function HexDigit(d: int): (c: char)
    requires 0 <= d < 16
    ensures c as int < 0x80
  {
    if d < 10 then ('0' as int + d) as char else ('a' as int + d - 10) as char
  }

  function Hex(bytes: seq<Byte>): string {
    if bytes == [] then ""
    else [HexDigit(bytes[0] / 16), HexDigit(bytes[0] % 16)] + Hex(bytes[1..])
  }

  function Decoded(codec: Codec, v: ScVal): DecodedValue
    decreases v, 1
  {
    match v
    case ScvBool(b) => Scalar(KBool, Bool(b))
    case ScvVoid => Scalar(KVoid, Nil)
    case ScvU32(n) => Scalar(KU32, Int(n))
    case ScvI32(n) => Scalar(KI32, Int(n))
    case ScvU64(n) => Scalar(KU64, Str(FormatInt(n)))
    case ScvI64(n) => Scalar(KI64, Str(FormatInt(n)))
    case ScvTimepoint(t) => Scalar(KTimepoint, Str(FormatInt(t)))
    case ScvDuration(t) => Scalar(KDuration, Str(FormatInt(t)))
    case ScvU128(hi, lo) => Scalar(KU128, Str(FormatInt(U128Value(hi, lo))))
    case ScvI128(hi, lo) => Scalar(KI128, Str(FormatInt(I128Value(hi, lo))))
    case ScvU256(a, b, c, d) => Scalar(KU256, Str(FormatInt(U256Value(a, b, c, d))))
    case ScvI256(a, b, c, d) => Scalar(KI256, Str(FormatInt(I256Value(a, b, c, d))))
    case ScvBytes(bytes) => Scalar(KBytes, Str(Hex(bytes)))
    case ScvString(s) => Scalar(KString, Str(s))
    case ScvSymbol(s) => Scalar(KSymbol, Str(s))
    case ScvAddress(a) =>
      var text := codec.strkey(a);
      if text.Some? && text.value != "" then Scalar(KAddress, Str(text.value)) else Unknown(codec, v)
    case ScvVec(items) => Scalar(KVec, List(DecodedItems(codec, items)))
    case ScvMap(entries) => DecodedValue(KMap, Nil, Entries(DecodedEntries(codec, entries)), "")
    case ScvNullVec => Unknown(codec, v)
    case ScvNullMap => Unknown(codec, v)
    case ScvOther(_, _) => Unknown(codec, v)
  }

  function DecodedItems(codec: Codec, items: seq<ScVal>): (r: seq<DecodedValue>)
    ensures |r| == |items|
    decreases items, 0
  {
    if items == [] then [] else DecodedItems(codec, items[..|items| - 1]) + [Decoded(codec, items[|items| - 1])]
  }

  function DecodedEntries(codec: Codec, entries: seq<ScEntry>): (r: seq<MapEntry>)
    ensures |r| == |entries|
    decreases entries, 0
  {
    if entries == [] then []
    else
      DecodedEntries(codec, entries[..|entries| - 1]) + [DecodedEntry(codec, entries[|entries| - 1])]
  }

  function DecodedEntry(codec: Codec, e: ScEntry): MapEntry
    decreases e, 1
  {
    MapEntry(Decoded(codec, e.key), Decoded(codec, e.val))
  }

  // ---- Counting fallbacks ----

  function Unknowns(d: DecodedValue): nat
    decreases d, 1
  {
    (if d.kind == KUnknown then 1 else 0) +
    (match d.value case List(items) => UnknownsIn(items) case _ => 0) +
    (match d.entries case Entries(list) => UnknownsInEntries(list) case NoEntries => 0)
  }

  function UnknownsIn(items: seq<DecodedValue>): nat
    decreases items, 0
  {
    if items == [] then 0 else UnknownsIn(items[..|items| - 1]) + Unknowns(items[|items| - 1])
  }

  function UnknownsInEntries(list: seq<MapEntry>): nat
    decreases list, 0
  {
    if list == [] then 0
    else
      UnknownsInEntries(list[..|list| - 1]) + UnknownsInEntry(list[|list| - 1])
  }

  function UnknownsInEntry(e: MapEntry): nat
    decreases e, 1
  {
    Unknowns(e.key) + Unknowns(e.value)
  }

  predicate FallsBack(codec: Codec, v: ScVal) {
    match v
    case ScvAddress(a) => codec.strkey(a).None? || codec.strkey(a).value == ""
    case ScvNullVec => true
    case ScvNullMap => true
    case ScvOther(_, _) => true
    case _ => false
  }

  /** A result's unknown nodes: the value's own fallback, or those of what is inside it. */
  lemma {:induction false} UnknownsOf(codec: Codec, v: ScVal)
    ensures Unknowns(Decoded(codec, v)) ==
            match v
            case ScvVec(items) => UnknownsIn(DecodedItems(codec, items))
            case ScvMap(entries) => UnknownsInEntries(DecodedEntries(codec, entries))
            case _ => if FallsBack(codec, v) then 1 else 0
  {
    hide DecodedItems, DecodedEntries, UnknownsIn, UnknownsInEntries, FormatInt, Hex, U128Value, I128Value, U256Value,
        I256Value;
  }

  // ---- What a decoded value says of its ScVal ----

  /** A hexadecimal digit, lower case, is worth x. */
  predicate Nibble(c: char, x: int) {
    ('0' <= c <= '9' && c as int - '0' as int == x) || ('a' <= c <= 'f' && c as int - 'a' as int + 10 == x)
  }

  /** Two digits a byte, high nibble first. */
  predicate SaysBytes(text: string, bytes: seq<Byte>) {
    && |text| == 2 * |bytes|
    && forall i | 0 <= i < |bytes| :: Nibble(text[2 * i], bytes[i] / 16) && Nibble(text[2 * i + 1], bytes[i] % 16)
  }

  /** Nothing but a kind and a content. */
  predicate Bare(d: DecodedValue, kind: Kind) {
    d.kind == kind && d.entries == NoEntries && d.xdr == ""
  }

  /** The decimal of a number, as text. */
  predicate Decimal(d: DecodedValue, kind: Kind, n: int) {
    Bare(d, kind) && d.value.Str? && SaysDecimal(d.value.s, n)
  }

  /** The unknown fallback: no content, and the value's own XDR, or the marker `=`. */
  predicate Degraded(codec: Codec, v: ScVal, d: DecodedValue) {
    && d.kind == KUnknown && d.value == Nil && d.entries == NoEntries
    && match codec.xdr(v) case Some(text) => d.xdr == text case None => d.xdr == "="
  }

  /** Which kind stands for a value, and with which content, at any nesting. */
  predicate Stands(codec: Codec, v: ScVal, d: DecodedValue)
    decreases v
  {
    match v
    case ScvBool(b) => Bare(d, KBool) && d.value == Bool(b)
    case ScvVoid => Bare(d, KVoid) && d.value == Nil
    case ScvU32(n) => Bare(d, KU32) && d.value == Int(n)
    case ScvI32(n) => Bare(d, KI32) && d.value == Int(n)
    case ScvU64(n) => Decimal(d, KU64, n)
    case ScvI64(n) => Decimal(d, KI64, n)
    case ScvTimepoint(t) => Decimal(d, KTimepoint, t)
    case ScvDuration(t) => Decimal(d, KDuration, t)
    case ScvU128(hi, lo) => Decimal(d, KU128, hi * TWO64 + lo)
    case ScvI128(hi, lo) => Decimal(d, KI128, hi * TWO64 + lo)
    case ScvU256(hiHi, hiLo, loHi, loLo) => Decimal(d, KU256, ((hiHi * TWO64 + hiLo) * TWO64 + loHi) * TWO64 + loLo)
    case ScvI256(hiHi, hiLo, loHi, loLo) => Decimal(d, KI256, ((hiHi * TWO64 + hiLo) * TWO64 + loHi) * TWO64 + loLo)
    case ScvBytes(bytes) => Bare(d, KBytes) && d.value.Str? && SaysBytes(d.value.s, bytes)
    case ScvString(s) => Bare(d, KString) && d.value == Str(s)
    case ScvSymbol(s) => Bare(d, KSymbol) && d.value == Str(s)
    case ScvAddress(a) =>
      if codec.strkey(a).Some? && codec.strkey(a).value != "" then
        Bare(d, KAddress) && d.value == Str(codec.strkey(a).value)
      else Degraded(codec, v, d)
    case ScvVec(items) =>
      && Bare(d, KVec) && d.value.List? && |d.value.items| == |items|
      && forall i | 0 <= i < |items| :: Stands(codec, items[i], d.value.items[i])
    case ScvMap(entries) =>
      && d.kind == KMap && d.value == Nil && d.xdr == "" && d.entries.Entries? && |d.entries.list| == |entries|
      && forall i | 0 <= i < |entries| ::
           && Stands(codec, entries[i].key, d.entries.list[i].key)
           && Stands(codec, entries[i].val, d.entries.list[i].value)
    case ScvNullVec => Degraded(codec, v, d)
    case ScvNullMap => Degraded(codec, v, d)
    case ScvOther(_, _) => Degraded(codec, v, d)
  }

  lemma {:induction false} HexDigitIs(x: int, c: char)
    requires 0 <= x < 16
    ensures Nibble(c, x) <==> c == HexDigit(x)
  {
  }

  lemma {:induction false} HexSays(bytes: seq<Byte>, text: string)
    ensures SaysBytes(text, bytes) <==> text == Hex(bytes)
  {
    hide HexDigit, Nibble;
    if bytes != [] {
      var high, low := HexDigit(bytes[0] / 16), HexDigit(bytes[0] % 16);
      if |text| >= 2 {
        HexDigitIs(bytes[0] / 16, text[0]);
        HexDigitIs(bytes[0] % 16, text[1]);
        HexSays(bytes[1..], text[2..]);
        BytesAfterFirst(text, bytes);
        assert text == [text[0], text[1]] + text[2..];
      }
      assert Hex(bytes) == [high, low] + Hex(bytes[1..]);
    }
  }

  lemma {:induction false} BytesAfterFirst(text: string, bytes: seq<Byte>)
    requires bytes != [] && |text| >= 2
    ensures SaysBytes(text, bytes) <==>
              Nibble(text[0], bytes[0] / 16) && Nibble(text[1], bytes[0] % 16) && SaysBytes(text[2..], bytes[1..])
  {
    hide Nibble;
    var rest, more := text[2..], bytes[1..];
    if |text| == 2 * |bytes| {
      assert forall i | 0 <= i < |more| ::
          more[i] == bytes[i + 1] && rest[2 * i] == text[2 * (i + 1)] && rest[2 * i + 1] == text[2 * (i + 1) + 1];
      if SaysBytes(text, bytes) {
        assert text[2 * 0] == text[0] && text[2 * 0 + 1] == text[1];
        forall i | 0 <= i < |more|
          ensures Nibble(rest[2 * i], more[i] / 16) && Nibble(rest[2 * i + 1], more[i] % 16)
        {
          assert Nibble(text[2 * (i + 1)], bytes[i + 1] / 16);
        }
      }
      if Nibble(text[0], bytes[0] / 16) && Nibble(text[1], bytes[0] % 16) && SaysBytes(rest, more) {
        forall i | 0 <= i < |bytes|
          ensures Nibble(text[2 * i], bytes[i] / 16) && Nibble(text[2 * i + 1], bytes[i] % 16)
        {
          if i > 0 {
            assert Nibble(rest[2 * (i - 1)], more[i - 1] / 16);
          }
        }
      }
    }
  }

  lemma {:induction false} TextStands(n: int, d: DecodedValue, kind: Kind)
    ensures Decimal(d, kind, n) <==> d == Scalar(kind, Str(FormatInt(n)))
  {
    hide SaysDecimal, FormatInt;
    if d.value.Str? {
      FormatIntSays(n, d.value.s);
    }
  }

  lemma WideValues(a: int, b: U64, c: U64, d: U64)
    ensures ((a * TWO64 + b) * TWO64 + c) * TWO64 + d == a * TWO192 + b * TWO128 + c * TWO64 + d
  {
  }

  /** The result of decoding is the one value that stands for what was decoded. */
  lemma {:induction false} DecodedStands(codec: Codec, v: ScVal, d: DecodedValue)
    ensures Stands(codec, v, d) <==> d == Decoded(codec, v)
    decreases v, 1
  {
    if v.ScvVec? {
      VecStands(codec, v, d);
    } else if v.ScvMap? {
      MapStands(codec, v, d);
    } else {
      LeafStands(codec, v, d);
    }
    hide Stands, Decoded;
  }

  lemma {:induction false} LeafStands(codec: Codec, v: ScVal, d: DecodedValue)
    requires !v.ScvVec? && !v.ScvMap?
    ensures Stands(codec, v, d) <==> d == Decoded(codec, v)
  {
    hide FormatInt, Hex, SaysBytes, SaysDecimal, Decimal;
    match v {
      case ScvU64(n) => TextStands(n, d, KU64);
      case ScvI64(n) => TextStands(n, d, KI64);
      case ScvTimepoint(t) => TextStands(t, d, KTimepoint);
      case ScvDuration(t) => TextStands(t, d, KDuration);
      case ScvU128(_, _) => WideStands(codec, v, d);
      case ScvI128(_, _) => WideStands(codec, v, d);
      case ScvU256(_, _, _, _) => WideStands(codec, v, d);
      case ScvI256(_, _, _, _) => WideStands(codec, v, d);
      case ScvAddress(_) => FallbackStands(codec, v, d);
      case ScvNullVec => FallbackStands(codec, v, d);
      case ScvNullMap => FallbackStands(codec, v, d);
      case ScvOther(_, _) => FallbackStands(codec, v, d);
      case ScvBytes(bytes) =>
        if d.value.Str? {
          HexSays(bytes, d.value.s);
        }
      case _ =>
    }
  }

  lemma {:induction false} WideStands(codec: Codec, v: ScVal, d: DecodedValue)
    requires v.ScvU128? || v.ScvI128? || v.ScvU256? || v.ScvI256?
    ensures Stands(codec, v, d) <==> d == Decoded(codec, v)
  {
    hide FormatInt, SaysDecimal, Decimal;
    match v {
      case ScvU128(hi, lo) => TextStands(hi * TWO64 + lo, d, KU128);
      case ScvI128(hi, lo) => TextStands(hi * TWO64 + lo, d, KI128);
      case ScvU256(a, b, c, e) =>
        WideValues(a, b, c, e);
        TextStands(U256Value(a, b, c, e), d, KU256);
      case ScvI256(a, b, c, e) =>
        WideValues(a, b, c, e);
        TextStands(I256Value(a, b, c, e), d, KI256);
    }
  }

  lemma {:induction false} FallbackStands(codec: Codec, v: ScVal, d: DecodedValue)
    requires v.ScvAddress? || v.ScvNullVec? || v.ScvNullMap? || v.ScvOther?
    ensures Stands(codec, v, d) <==> d == Decoded(codec, v)
  {
  }

  lemma {:induction false} VecStands(codec: Codec, v: ScVal, d: DecodedValue)
    requires v.ScvVec?
    ensures Stands(codec, v, d) <==> d == Decoded(codec, v)
    decreases v, 0
  {
    hide Decoded, DecodedItems;
    var items := v.items;
    DecodedVec(codec, items);
    if d.value.List? && |d.value.items| == |items| {
      forall i | 0 <= i < |items|
        ensures Stands(codec, items[i], d.value.items[i]) <==> d.value.items[i] == DecodedItems(codec, items)[i]
      {
        DecodedStands(codec, items[i], d.value.items[i]);
        DecodedItemAt(codec, items, i);
      }
      hide Stands;
      assert (forall i | 0 <= i < |items| :: d.value.items[i] == DecodedItems(codec, items)[i]) <==>
          d.value.items == DecodedItems(codec, items);
    }
  }

  lemma DecodedVec(codec: Codec, items: seq<ScVal>)
    ensures Decoded(codec, ScvVec(items)) == Scalar(KVec, List(DecodedItems(codec, items)))
  {
  }

  lemma {:induction false} DecodedItemAt(codec: Codec, items: seq<ScVal>, i: nat)
    requires i < |items|
    ensures DecodedItems(codec, items)[i] == Decoded(codec, items[i])
  {
    hide Decoded;
    if i < |items| - 1 {
      DecodedItemAt(codec, items[..|items| - 1], i);
    }
  }

  lemma {:induction false} MapStands(codec: Codec, v: ScVal, d: DecodedValue)
    requires v.ScvMap?
    ensures Stands(codec, v, d) <==> d == Decoded(codec, v)
    decreases v, 0
  {
    hide Decoded, DecodedEntries;
    var entries := v.entries;
    DecodedMap(codec, entries);
    if d.entries.Entries? && |d.entries.list| == |entries| {
      var list := d.entries.list;
      forall i | 0 <= i < |entries|
        ensures Stands(codec, entries[i].key, list[i].key) && Stands(codec, entries[i].val, list[i].value) <==>
                  list[i] == DecodedEntries(codec, entries)[i]
      {
        DecodedStands(codec, entries[i].key, list[i].key);
        DecodedStands(codec, entries[i].val, list[i].value);
        DecodedEntryAt(codec, entries, i);
      }
      hide Stands;
      assert (forall i | 0 <= i < |entries| :: list[i] == DecodedEntries(codec, entries)[i]) <==>
          list == DecodedEntries(codec, entries);
    }
  }

  lemma DecodedMap(codec: Codec, entries: seq<ScEntry>)
    ensures Decoded(codec, ScvMap(entries)) == DecodedValue(KMap, Nil, Entries(DecodedEntries(codec, entries)), "")
  {
  }

  lemma {:induction false} DecodedEntryAt(codec: Codec, entries: seq<ScEntry>, i: nat)
    requires i < |entries|
    ensures DecodedEntries(codec, entries)[i] ==
              MapEntry(Decoded(codec, entries[i].key), Decoded(codec, entries[i].val))
  {
    hide Decoded;
    if i < |entries| - 1 {
      DecodedEntryAt(codec, entries[..|entries| - 1], i);
    }
  }

  /** The decoder's one piece of state is the fallback counter. `parse` stands for the
      base64 XDR reader; None is its error. */
  class Decoder {
    const codec: Codec
    const parse: string -> Option<ScVal>
    var unknownCount: int

    constructor (codec: Codec, parse: string -> Option<ScVal>)
      ensures this.codec == codec && this.parse == parse && unknownCount == 0
    {
      this.codec, this.parse, unknownCount := codec, parse, 0;
    }

    method Fallback(v: ScVal) returns (d: DecodedValue)
      modifies this`unknownCount
      ensures d == Unknown(codec, v) && unknownCount == old(unknownCount) + 1
    {
      unknownCount := unknownCount + 1;
      d := Unknown(codec, v);
    }

    /** Decodes one value; the counter grows by exactly the unknown nodes of the result. */
    method Decode(v: ScVal) returns (d: DecodedValue)
      modifies this`unknownCount
      ensures Stands(codec, v, d)
      ensures d == Decoded(codec, v)
      ensures unknownCount == old(unknownCount) + Unknowns(d)
      decreases v, 1
    {
      hide FormatInt, Hex, U128Value, I128Value, U256Value, I256Value, DecodedItems, DecodedEntries, Unknowns,
          UnknownsIn, UnknownsInEntries, Stands;
      UnknownsOf(codec, v);
      DecodedStands(codec, v, Decoded(codec, v));
      match v {
        case ScvBool(b) => return Scalar(KBool, Bool(b));
        case ScvVoid => return Scalar(KVoid, Nil);
        case ScvU32(n) => return Scalar(KU32, Int(n));
        case ScvI32(n) => return Scalar(KI32, Int(n));
        case ScvU64(n) => return Scalar(KU64, Str(FormatInt(n)));
        case ScvI64(n) => return Scalar(KI64, Str(FormatInt(n)));
        case ScvTimepoint(t) => return Scalar(KTimepoint, Str(FormatInt(t)));
        case ScvDuration(t) => return Scalar(KDuration, Str(FormatInt(t)));
        case ScvU128(hi, lo) =>
          var s := Uint128String(hi, lo);
          return Scalar(KU128, Str(s));
        case ScvI128(hi, lo) =>
          var s := Int128String(hi, lo);
          return Scalar(KI128, Str(s));
        case ScvU256(a, b, c, e) =>
          var s := Uint256String(a, b, c, e);
          return Scalar(KU256, Str(s));
        case ScvI256(a, b, c, e) =>
          var s := Int256String(a, b, c, e);
          return Scalar(KI256, Str(s));
        case ScvBytes(bytes) => return Scalar(KBytes, Str(Hex(bytes)));
        case ScvString(s) => return Scalar(KString, Str(s));
        case ScvSymbol(s) => return Scalar(KSymbol, Str(s));
        case ScvAddress(a) =>
          var text := codec.strkey(a);
          if text.Some? && text.value != "" {
            return Scalar(KAddress, Str(text.value));
          }
        case ScvVec(items) =>
          var out := DecodeItems(items);
          return Scalar(KVec, List(out));
        case ScvMap(entries) =>
          var out := DecodeEntries(entries);
          return DecodedValue(KMap, Nil, Entries(out), "");
        case ScvNullVec =>
        case ScvNullMap =>
        case ScvOther(_, _) =>
      }
      d := Fallback(v);
    }

    method DecodeItems(items: seq<ScVal>) returns (out: seq<DecodedValue>)
      modifies this`unknownCount
      ensures out == DecodedItems(codec, items)
      ensures unknownCount == old(unknownCount) + UnknownsIn(out)
      decreases items, 0
    {
      out := [];
      for i := 0 to |items|
        invariant out == DecodedItems(codec, items[..i])
        invariant unknownCount == old(unknownCount) + UnknownsIn(out)
      {
        var item := Decode(items[i]);
        assert items[..i + 1][..i] == items[..i];
        assert (out + [item])[..|out|] == out;
        out := out + [item];
      }
      assert items[..|items|] == items;
    }

    method DecodeEntries(entries: seq<ScEntry>) returns (out: seq<MapEntry>)
      modifies this`unknownCount
      ensures out == DecodedEntries(codec, entries)
      ensures unknownCount == old(unknownCount) + UnknownsInEntries(out)
      decreases entries, 0
    {
      out := [];
      for i := 0 to |entries|
        invariant out == DecodedEntries(codec, entries[..i])
        invariant unknownCount == old(unknownCount) + UnknownsInEntries(out)
      {
        var entry := DecodeEntry(entries[i]);
        assert entries[..i + 1][..i] == entries[..i];
        assert (out + [entry])[..|out|] == out;
        out := out + [entry];
      }
      assert entries[..|entries|] == entries;
    }

    method DecodeEntry(e: ScEntry) returns (entry: MapEntry)
      modifies this`unknownCount
      ensures entry == DecodedEntry(codec, e)
      ensures unknownCount == old(unknownCount) + UnknownsInEntry(entry)
      decreases e, 1
    {
      var key := Decode(e.key);
      var value := Decode(e.val);
      entry := MapEntry(key, value);
    }

    /** Decodes a topic list in order, stopping at the first value that does not
        parse. The counter keeps what it counted before that. */
    method DecodeTopics(encoded: seq<string>) returns (r: Result<seq<DecodedValue>, nat>)
      modifies this`unknownCount
      ensures match r
              case Ok(topics) =>
                && AllParse(parse, encoded) && |topics| == |encoded|
                && (forall i | 0 <= i < |encoded| :: Stands(codec, parse(encoded[i]).value, topics[i]))
                && topics == DecodedTopics(codec, parse, encoded)
                && unknownCount == old(unknownCount) + UnknownsIn(topics)
              case Err(k) =>
                && k < |encoded| && parse(encoded[k]).None? && AllParse(parse, encoded[..k])
                && unknownCount == old(unknownCount) + UnknownsIn(DecodedTopics(codec, parse, encoded[..k]))
    {
      hide Decoded, Unknowns, Stands;
      var topics: seq<DecodedValue> := [];
      for i := 0 to |encoded|
        invariant AllParse(parse, encoded[..i])
        invariant topics == DecodedTopics(codec, parse, encoded[..i])
        invariant |topics| == i && forall j | 0 <= j < i :: Stands(codec, parse(encoded[j]).value, topics[j])
        invariant unknownCount == old(unknownCount) + UnknownsIn(topics)
      {
        var parsed := parse(encoded[i]);
        if parsed.None? {
          return Err(i);
        }
        var value := Decode(parsed.value);
        assert encoded[..i + 1][..i] == encoded[..i];
        assert (topics + [value])[..|topics|] == topics;
        topics := topics + [value];
      }
      assert encoded[..|encoded|] == encoded;
      r := Ok(topics);
    }
  }

  predicate AllParse(parse: string -> Option<ScVal>, encoded: seq<string>) {
    forall i | 0 <= i < |encoded| :: parse(encoded[i]).Some?
  }

  /** The decoded topics, in order and one for each. */
  function DecodedTopics(codec: Codec, parse: string -> Option<ScVal>,
                         encoded: seq<string>): (topics: seq<DecodedValue>)
    requires AllParse(parse, encoded)
    ensures |topics| == |encoded|
  {
    if encoded == [] then []
    else
      DecodedTopics(codec, parse, encoded[..|encoded| - 1]) + [Decoded(codec, parse(encoded[|encoded| - 1]).value)]
  }

  /** The event name: the first topic's text if it is a symbol, otherwise empty. */
  function NameFromTopics(topics: seq<DecodedValue>): string {
    if topics == [] then ""
    else if topics[0].kind != KSymbol then ""
    else match topics[0].value case Str(s) => s case _ => ""
  }

  lemma NameIsFirstSymbol(codec: Codec, v: ScVal, rest: seq<DecodedValue>)
    ensures NameFromTopics([Decoded(codec, v)] + rest) == if v.ScvSymbol? then v.sym else ""
  {
  }

  // ---- Decoding loses nothing ----

  /** The encoders are injective, and every parsed value re-encodes. */
  ghost predicate Injective(codec: Codec) {
    && (forall a, b :: codec.strkey(a).Some? && codec.strkey(a) == codec.strkey(b) ==> a == b)
    && (forall u :: codec.xdr(u).Some?)
    && (forall u, v :: codec.xdr(u) == codec.xdr(v) ==> u == v)
  }

  lemma HexDigitInjective(a: int, b: int)
    requires 0 <= a < 16 && 0 <= b < 16 && HexDigit(a) == HexDigit(b)
    ensures a == b
  {
  }

  lemma {:induction false} HexInjective(a: seq<Byte>, b: seq<Byte>)
    requires Hex(a) == Hex(b)
    ensures a == b
  {
    if a != [] && b != [] {
      var x, y := Hex(a), Hex(b);
      assert x[0] == HexDigit(a[0] / 16) && x[1] == HexDigit(a[0] % 16) && x[2..] == Hex(a[1..]);
      assert y[0] == HexDigit(b[0] / 16) && y[1] == HexDigit(b[0] % 16) && y[2..] == Hex(b[1..]);
      HexDigitInjective(a[0] / 16, b[0] / 16);
      HexDigitInjective(a[0] % 16, b[0] % 16);
      HexInjective(a[1..], b[1..]);
      assert a == [a[0]] + a[1..] && b == [b[0]] + b[1..];
    } else {
      assert a != [] ==> |Hex(a)| >= 2;
      assert b != [] ==> |Hex(b)| >= 2;
    }
  }


  lemma ScalarInjective(codec: Codec, u: ScVal, v: ScVal)
    requires Injective(codec) && Decoded(codec, u) == Decoded(codec, v)
    requires !u.ScvVec? && !u.ScvMap? && !FallsBack(codec, u)
    ensures u == v
  {
    hide FormatInt, Hex, U128Value, I128Value, U256Value, I256Value, DecodedItems, DecodedEntries;
    match u {
      case ScvU64(n) => FormatIntInjective(n, v.u64);
      case ScvI64(n) => FormatIntInjective(n, v.i64);
      case ScvTimepoint(t) => FormatIntInjective(t, v.at);
      case ScvDuration(t) => FormatIntInjective(t, v.span);
      case ScvBytes(bytes) => HexInjective(bytes, v.bytes);
      case ScvU128(_, _) => WideInjective(codec, u, v);
      case ScvI128(_, _) => WideInjective(codec, u, v);
      case ScvU256(_, _, _, _) => WideInjective(codec, u, v);
      case ScvI256(_, _, _, _) => WideInjective(codec, u, v);
      case _ =>
    }
  }

  lemma WideInjective(codec: Codec, u: ScVal, v: ScVal)
    requires Decoded(codec, u) == Decoded(codec, v)
    requires u.ScvU128? || u.ScvI128? || u.ScvU256? || u.ScvI256?
    ensures u == v
  {
    hide FormatInt, Hex, U128Value, I128Value, U256Value, I256Value, DecodedItems, DecodedEntries;
    match u {
      case ScvU128(hi, lo) =>
        FormatIntInjective(U128Value(hi, lo), U128Value(v.uhi, v.ulo));
        U128Injective(hi, lo, v.uhi, v.ulo);
      case ScvI128(hi, lo) =>
        FormatIntInjective(I128Value(hi, lo), I128Value(v.ihi, v.ilo));
        I128Injective(hi, lo, v.ihi, v.ilo);
      case ScvU256(a, b, c, d) =>
        FormatIntInjective(U256Value(a, b, c, d), U256Value(v.u0, v.u1, v.u2, v.u3));
        U256Injective(a, b, c, d, v.u0, v.u1, v.u2, v.u3);
      case ScvI256(a, b, c, d) =>
        I256StringsDistinct(a, b, c, d, v.i0, v.i1, v.i2, v.i3);
    }
  }

  lemma FallbackInjective(codec: Codec, u: ScVal, v: ScVal)
    requires Injective(codec) && Decoded(codec, u) == Decoded(codec, v) && FallsBack(codec, u)
    ensures u == v
  {
    hide FormatInt, Hex, U128Value, I128Value, U256Value, I256Value, DecodedItems, DecodedEntries;
  }

  /** Distinct values decode differently, through any nesting: order, duplicate keys
      and key types all survive. */
  lemma {:induction false} DecodeInjective(codec: Codec, u: ScVal, v: ScVal)
    requires Injective(codec) && Decoded(codec, u) == Decoded(codec, v)
    ensures u == v
    decreases u, 1
  {
    hide FormatInt, Hex, U128Value, I128Value, U256Value, I256Value, DecodedItems, DecodedEntries, Injective;
    if FallsBack(codec, u) {
      FallbackInjective(codec, u, v);
    } else if u.ScvVec? {
      ItemsInjective(codec, u.items, v.items);
    } else if u.ScvMap? {
      EntriesInjective(codec, u.entries, v.entries);
    } else {
      ScalarInjective(codec, u, v);
    }
  }

  lemma {:induction false} ItemsInjective(codec: Codec, a: seq<ScVal>, b: seq<ScVal>)
    requires Injective(codec) && DecodedItems(codec, a) == DecodedItems(codec, b)
    ensures a == b
    decreases a, 0
  {
    assert |a| == |b|;
    if a != [] {
      var n := |a| - 1;
      var x, y := DecodedItems(codec, a), DecodedItems(codec, b);
      assert x[..n] == DecodedItems(codec, a[..n]) && x[n] == Decoded(codec, a[n]);
      assert y[..n] == DecodedItems(codec, b[..n]) && y[n] == Decoded(codec, b[n]);
      ItemsInjective(codec, a[..n], b[..n]);
      DecodeInjective(codec, a[n], b[n]);
      assert a == a[..n] + [a[n]] && b == b[..n] + [b[n]];
    }
  }

  lemma {:induction false} EntriesInjective(codec: Codec, a: seq<ScEntry>, b: seq<ScEntry>)
    requires Injective(codec) && DecodedEntries(codec, a) == DecodedEntries(codec, b)
    ensures a == b
    decreases a, 0
  {
    assert |a| == |b|;
    if a != [] {
      var n := |a| - 1;
      var x, y := DecodedEntries(codec, a), DecodedEntries(codec, b);
      assert x[..n] == DecodedEntries(codec, a[..n]) && x[n] == DecodedEntry(codec, a[n]);
      assert y[..n] == DecodedEntries(codec, b[..n]) && y[n] == DecodedEntry(codec, b[n]);
      EntriesInjective(codec, a[..n], b[..n]);
      EntryInjective(codec, a[n], b[n]);
      assert a == a[..n] + [a[n]] && b == b[..n] + [b[n]];
    }
  }

  lemma {:induction false} EntryInjective(codec: Codec, a: ScEntry, b: ScEntry)
    requires Injective(codec) && DecodedEntry(codec, a) == DecodedEntry(codec, b)
    ensures a == b
    decreases a, 1
  {
    DecodeInjective(codec, a.key, b.key);
    DecodeInjective(codec, a.val, b.val);
  }
}
