/** The event-list filters and their round trip through the URL query string, which is
    written as application/x-www-form-urlencoded text (WHATWG URL Standard, section 5).
    Strings are the bytes of their UTF-8 form. */
module EventFilters {
  import opened Wrappers
  import opened Splitter
  import Numerals
  import Scripts

  type Pair = (string, string)

  predicate Bytes(s: string) {
    forall i | 0 <= i < |s| :: s[i] as int < 256
  }

  // ---- The form encoding ----

  function HexDigit(d: int): char
    requires 0 <= d < 16
  {
    if d < 10 then ('0' as int + d) as char else ('A' as int + d - 10) as char
  }

  function HexValue(c: char): Option<int> {
    if '0' <= c <= '9' then Some(c as int - '0' as int)
    else if 'A' <= c <= 'F' then Some(c as int - 'A' as int + 10)
    else if 'a' <= c <= 'f' then Some(c as int - 'a' as int + 10)
    else None
  }

  predicate Plain(c: char) {
    'a' <= c <= 'z' || 'A' <= c <= 'Z' || '0' <= c <= '9' || c == '*' || c == '-' || c == '.' || c == '_'
  }

  function EncodeByte(c: char): string
    requires c as int < 256
  {
    if c == ' ' then "+"
    else if Plain(c) then [c]
    else ['%', HexDigit(c as int / 16), HexDigit(c as int % 16)]
  }

  function Encode(s: string): string
    requires Bytes(s)
  {
    if s == "" then "" else EncodeByte(s[0]) + Encode(s[1..])
  }

  predicate Escape(s: string) {
    |s| >= 3 && s[0] == '%' && HexValue(s[1]).Some? && HexValue(s[2]).Some?
  }

  /** A plus is a space, and an escape is its byte; anything else stands for itself. */
  function Decode(s: string): string {
    if s == "" then ""
    else if s[0] == '+' then " " + Decode(s[1..])
    else if Escape(s) then [(16 * HexValue(s[1]).value + HexValue(s[2]).value) as char] + Decode(s[3..])
    else [s[0]] + Decode(s[1..])
  }

  function PairText(p: Pair): string
    requires Bytes(p.0) && Bytes(p.1)
  {
    Encode(p.0) + "=" + Encode(p.1)
  }

  predicate AllBytes(params: seq<Pair>) {
    forall i | 0 <= i < |params| :: Bytes(params[i].0) && Bytes(params[i].1)
  }

  function Serialize(params: seq<Pair>): string
    requires AllBytes(params)
  {
    if params == [] then ""
    else PairText(params[0]) + if |params| == 1 then "" else "&" + Serialize(params[1..])
  }

  function ParsePair(text: string): Pair {
    var i := IndexOf(text, '=');
    (Decode(text[..i]), if i == |text| then "" else Decode(text[i + 1..]))
  }

  function ParseQuery(s: string): seq<Pair>
    decreases |s|
  {
    var i := IndexOf(s, '&');
    (if i == 0 then [] else [ParsePair(s[..i])]) + (if i == |s| then [] else ParseQuery(s[i + 1..]))
  }

  // ---- The encoding is undone by the parser ----

  predicate Inert(c: char) {
    Plain(c) || c == '+' || c == '%'
  }

  lemma {:induction false} HexReads(d: int)
    requires 0 <= d < 16
    ensures HexValue(HexDigit(d)) == Some(d) && Plain(HexDigit(d))
  {
  }

  lemma {:induction false} EncodeByteDecodes(c: char, rest: string)
    requires c as int < 256
    ensures Decode(EncodeByte(c) + rest) == [c] + Decode(rest)
    ensures forall i | 0 <= i < |EncodeByte(c)| :: Inert(EncodeByte(c)[i])
  {
    var text := EncodeByte(c) + rest;
    HexReads(c as int / 16);
    HexReads(c as int % 16);
    if c == ' ' || Plain(c) {
      assert text[1..] == rest;
    } else {
      assert text[3..] == rest;
    }
  }

  lemma {:induction false} EncodeDecodes(s: string)
    requires Bytes(s)
    ensures Decode(Encode(s)) == s
    ensures forall i | 0 <= i < |Encode(s)| :: Inert(Encode(s)[i])
  {
    if s != "" {
      EncodeByteDecodes(s[0], Encode(s[1..]));
      EncodeDecodes(s[1..]);
    }
  }

  /** Cutting at a separator that the first part does not contain. */
  lemma {:induction false} CutsApart(a: string, c: char, b: string)
    requires c !in a
    ensures IndexOf(a + [c] + b, c) == |a|
    ensures (a + [c] + b)[..|a|] == a && (a + [c] + b)[|a| + 1..] == b
  {
    IndexOfUnique(a + [c] + b, c, |a|);
  }

  lemma {:induction false} EncodedIsInert(s: string)
    requires Bytes(s)
    ensures '=' !in Encode(s) && '&' !in Encode(s)
  {
    EncodeDecodes(s);
    hide Encode;
    assert !Inert('=') && !Inert('&');
  }

  lemma {:induction false} PairParses(p: Pair)
    requires Bytes(p.0) && Bytes(p.1)
    ensures ParsePair(PairText(p)) == p
    ensures '&' !in PairText(p) && PairText(p) != ""
  {
    EncodeDecodes(p.0);
    EncodeDecodes(p.1);
    EncodedIsInert(p.0);
    EncodedIsInert(p.1);
    hide Encode, Decode, Bytes, Inert, IndexOf;
    CutsApart(Encode(p.0), '=', Encode(p.1));
  }

  /** Parsing what was serialized gives back every pair, in order, whatever its bytes. */
  lemma {:induction false} QueryRoundTrip(params: seq<Pair>)
    requires AllBytes(params)
    ensures ParseQuery(Serialize(params)) == params
  {
    hide ParsePair, PairText;
    if params != [] {
      var head := PairText(params[0]);
      PairParses(params[0]);
      var text := Serialize(params);
      IndexOfUnique(text, '&', |head|);
      assert text[..|head|] == head;
      if |params| > 1 {
        assert text[|head| + 1..] == Serialize(params[1..]);
        QueryRoundTrip(params[1..]);
      } else {
        assert text == head;
      }
    }
  }

  // ---- What the text looks like ----

  const UPPER_HEX := "0123456789ABCDEF"

  /** Letters, digits, and the four marks `*`, `-`, `.` and `_`, by code. */
  ghost predicate Unreserved(n: int) {
    || 0x30 <= n <= 0x39 || 0x41 <= n <= 0x5A || 0x61 <= n <= 0x7A
    || n == 0x2A || n == 0x2D || n == 0x2E || n == 0x5F
  }

  /** A space is a plus, an unreserved character itself, and any other byte a percent
      sign and two upper-case hex digits, the high one first. */
  ghost predicate Form(c: char, part: string)
    requires c as int < 256
  {
    if c as int == 0x20 then part == "+"
    else if Unreserved(c as int) then part == [c]
    else |part| == 3 && part[0] == '%' && part[1] == UPPER_HEX[c as int / 16] && part[2] == UPPER_HEX[c as int % 16]
  }

  ghost predicate Written(s: string, text: string)
    requires Bytes(s)
  {
    if s == "" then text == ""
    else exists n | 0 <= n <= |text| :: Form(s[0], text[..n]) && Written(s[1..], text[n..])
  }

  /** Pairs with an ampersand between any two, each a key, an equals sign and a value. */
  ghost predicate WrittenPairs(params: seq<Pair>, text: string)
    requires AllBytes(params)
  {
    if params == [] then text == ""
    else exists key, value, rest ::
           && Written(params[0].0, key) && Written(params[0].1, value) && WrittenPairs(params[1..], rest)
           && text == key + "=" + value + (if |params| == 1 then "" else "&" + rest)
  }

  lemma {:induction false} FormIsEncodeByte(c: char, part: string)
    requires c as int < 256
    ensures Form(c, part) <==> part == EncodeByte(c)
  {
    UpperHex(c as int / 16);
    UpperHex(c as int % 16);
    hide HexDigit;
  }

  lemma UpperHex(d: int)
    requires 0 <= d < 16
    ensures HexDigit(d) == UPPER_HEX[d]
  {
  }

  /** The encoder writes the one text of this form. */
  lemma {:induction false} EncodeMeans(s: string, text: string)
    requires Bytes(s)
    ensures Written(s, text) <==> text == Encode(s)
  {
    hide EncodeByte, Form;
    if s != "" {
      var part := EncodeByte(s[0]);
      FormIsEncodeByte(s[0], part);
      if n :| 0 <= n <= |text| && Form(s[0], text[..n]) && Written(s[1..], text[n..]) {
        FormIsEncodeByte(s[0], text[..n]);
        EncodeMeans(s[1..], text[n..]);
        assert text == text[..n] + text[n..];
      }
      if text == Encode(s) {
        assert text[..|part|] == part && text[|part|..] == Encode(s[1..]);
        EncodeMeans(s[1..], text[|part|..]);
      }
    }
  }

  lemma {:induction false} SerializeMeans(params: seq<Pair>, text: string)
    requires AllBytes(params)
    ensures WrittenPairs(params, text) <==> text == Serialize(params)
  {
    hide Written, Encode, Bytes;
    if params != [] {
      var rest := Serialize(params[1..]);
      EncodeMeans(params[0].0, Encode(params[0].0));
      EncodeMeans(params[0].1, Encode(params[0].1));
      SerializeMeans(params[1..], rest);
      if key, value, more :|
        && Written(params[0].0, key) && Written(params[0].1, value) && WrittenPairs(params[1..], more)
        && text == key + "=" + value + (if |params| == 1 then "" else "&" + more)
      {
        EncodeMeans(params[0].0, key);
        EncodeMeans(params[0].1, value);
        SerializeMeans(params[1..], more);
      }
      if text == Serialize(params) {
        assert Written(params[0].0, Encode(params[0].0)) && Written(params[0].1, Encode(params[0].1));
      }
    }
  }

  const LOWER_HEX := "0123456789abcdef"

  /** A hex digit in either case. */
  ghost predicate HexIs(c: char, n: nat) {
    n < 16 && (c == UPPER_HEX[n] || c == LOWER_HEX[n])
  }

  ghost predicate EscapeAt(s: string, high: nat, low: nat) {
    |s| >= 3 && s[0] == '%' && HexIs(s[1], high) && HexIs(s[2], low)
  }

  lemma {:induction false} HexMeans(c: char, n: nat)
    ensures HexIs(c, n) <==> HexValue(c) == Some(n)
  {
    if HexValue(c) == Some(n) {
      HexText(n);
    }
    if n < 16 {
      HexText(n);
    }
  }

  lemma HexText(n: nat)
    requires n < 16
    ensures UPPER_HEX[n] as int == if n < 10 then 0x30 + n else 0x41 + n - 10
    ensures LOWER_HEX[n] as int == if n < 10 then 0x30 + n else 0x61 + n - 10
  {
  }

  /** How text is read: a plus is a space, a percent sign with two hex digits of either case
      is their byte, and any other character is itself. */
  lemma {:induction false} DecodeMeans(s: string)
    requires s != ""
    ensures s[0] == '+' ==> Decode(s) == " " + Decode(s[1..])
    ensures forall high, low | EscapeAt(s, high, low) :: Decode(s) == [(16 * high + low) as char] + Decode(s[3..])
    ensures s[0] != '+' && (forall high, low :: !EscapeAt(s, high, low)) ==> Decode(s) == [s[0]] + Decode(s[1..])
  {
    hide HexIs, HexValue;
    if |s| >= 3 {
      forall n: nat
        ensures HexIs(s[1], n) <==> HexValue(s[1]) == Some(n)
        ensures HexIs(s[2], n) <==> HexValue(s[2]) == Some(n)
      {
        HexMeans(s[1], n);
        HexMeans(s[2], n);
      }
      if Escape(s) {
        HexIsSmall(s[1]);
        HexIsSmall(s[2]);
        assert EscapeAt(s, HexValue(s[1]).value, HexValue(s[2]).value);
      }
    }
  }

  lemma HexIsSmall(c: char)
    ensures HexValue(c).Some? ==> 0 <= HexValue(c).value < 16
  {
  }

  // ---- The filters ----

  datatype Filters = Filters(
    name: Option<string>, topicContains: Option<string>, fromLedger: Option<int>, toLedger: Option<int>,
    order: Option<string>)

  /** What the code takes from JavaScript: trim, Number on text that names an integer,
      String on a number, and which integers are numbers. */
  datatype Js = Js(trim: string -> string, number: string -> Option<int>, text: int -> string,
                   representable: int -> bool)

  predicate PrintsBack(js: Js, n: int) {
    js.representable(n) ==> js.number(js.text(n)) == Some(n) && js.trim(js.text(n)) != "" && Bytes(js.text(n))
  }

  /** Trimming twice trims once, and printing a number and reading it gives it back. */
  ghost predicate Lawful(js: Js) {
    && js.trim("") == ""
    && (forall s :: js.trim(js.trim(s)) == js.trim(s))
    && (forall s | js.number(s).Some? :: js.representable(js.number(s).value))
    && (forall n :: PrintsBack(js, n))
    && (forall s | Bytes(s) :: Bytes(js.trim(s)))
  }

  const NAME := "name"
  const TOPIC := "topic"
  const FROM := "from"
  const TO := "to"
  const ORDER := "order"

  /** The first value under a key. */
  function Get(params: seq<Pair>, key: string): Option<string> {
    if params == [] then None
    else if params[0].0 == key then Some(params[0].1)
    else Get(params[1..], key)
  }

  /** URLSearchParams.set, for a key that is not there yet. */
  function Set(params: seq<Pair>, key: string, value: string): seq<Pair> {
    params + [(key, value)]
  }

  function ToLedger(js: Js, raw: Option<string>): Option<int> {
    if raw.None? || js.trim(raw.value) == "" then None
    else
      var value := js.number(raw.value);
      if value.Some? && value.value >= 0 then value else None
  }

  function ReadText(js: Js, raw: Option<string>): Option<string> {
    if raw.None? || js.trim(raw.value) == "" then None else Some(js.trim(raw.value))
  }

  function ReadOrder(raw: Option<string>): Option<string> {
    if raw == Some("asc") || raw == Some("desc") then raw else None
  }

  /** What a query string's parameters ask for. */
  function Read(js: Js, params: seq<Pair>): Filters {
    Filters(ReadText(js, Get(params, NAME)), ReadText(js, Get(params, TOPIC)),
            ToLedger(js, Get(params, FROM)), ToLedger(js, Get(params, TO)), ReadOrder(Get(params, ORDER)))
  }

  /** A ledger bound is the number the text names when that is not negative, and absent otherwise. */
  ghost predicate Bound(js: Js, raw: Option<string>, bound: Option<int>) {
    if raw.Some? && js.trim(raw.value) != "" && js.number(raw.value).Some? && 0 <= js.number(raw.value).value then
      bound == js.number(raw.value)
    else bound == None
  }

  /** Reads each field from its own key. */
  method ReadEventFilters(js: Js, params: seq<Pair>) returns (filters: Filters)
    ensures filters == Read(js, params)
    ensures var name, topic := Get(params, "name"), Get(params, "topic");
            && filters.name == (if name.Some? && js.trim(name.value) != "" then Some(js.trim(name.value)) else None)
            && filters.topicContains ==
                 if topic.Some? && js.trim(topic.value) != "" then Some(js.trim(topic.value)) else None
    ensures Bound(js, Get(params, "from"), filters.fromLedger) && Bound(js, Get(params, "to"), filters.toLedger)
    ensures filters.order == if Get(params, "order") in {Some("asc"), Some("desc")} then Get(params, "order") else None
  {
    filters := Filters(None, None, None, None, None);
    var name := Get(params, NAME);
    if name.Some? && js.trim(name.value) != "" {
      filters := filters.(name := Some(js.trim(name.value)));
    }
    var topic := Get(params, TOPIC);
    if topic.Some? && js.trim(topic.value) != "" {
      filters := filters.(topicContains := Some(js.trim(topic.value)));
    }
    var fromLedger := ToLedger(js, Get(params, FROM));
    if fromLedger.Some? {
      filters := filters.(fromLedger := fromLedger);
    }
    var toLedger := ToLedger(js, Get(params, TO));
    if toLedger.Some? {
      filters := filters.(toLedger := toLedger);
    }
    var order := Get(params, ORDER);
    if order.Some? && order.value in {"asc", "desc"} {
      filters := filters.(order := order);
    }
  }

  function NonEmpty(s: Option<string>): Option<string> {
    if s == Some("") then None else s
  }

  function Printed(js: Js, n: Option<int>): Option<string> {
    if n.None? then None else Some(js.text(n.value))
  }

  /** The value a filter puts under a key of the query string. */
  function Param(js: Js, f: Filters, key: string): Option<string> {
    if key == NAME then NonEmpty(f.name)
    else if key == TOPIC then NonEmpty(f.topicContains)
    else if key == FROM then Printed(js, f.fromLedger)
    else if key == TO then Printed(js, f.toLedger)
    else if key == ORDER then NonEmpty(f.order)
    else None
  }

  function Optional(key: string, value: Option<string>): seq<Pair> {
    if value.None? then [] else [(key, value.value)]
  }

  /** The parameters for some keys, in the order of the keys. */
  function Params(js: Js, f: Filters, keys: seq<string>): seq<Pair> {
    if keys == [] then []
    else
      var key := keys[|keys| - 1];
      Params(js, f, keys[..|keys| - 1]) + Optional(key, Param(js, f, key))
  }

  /** The stable order of the keys. */
  const KEYS := [NAME, TOPIC, FROM, TO, ORDER]

  /** Whether the filters can be a JavaScript value. */
  predicate WellTyped(js: Js, f: Filters) {
    && (f.name.Some? ==> Bytes(f.name.value)) && (f.topicContains.Some? ==> Bytes(f.topicContains.value))
    && (f.order.Some? ==> Bytes(f.order.value))
    && (f.fromLedger.Some? ==> js.representable(f.fromLedger.value))
    && (f.toLedger.Some? ==> js.representable(f.toLedger.value))
  }

  lemma {:induction false} SetGets(params: seq<Pair>, key: string, value: string, k: string)
    ensures Get(Set(params, key, value), k) == if Get(params, k).None? && k == key then Some(value) else Get(params, k)
  {
    if params == [] {
      assert Set(params, key, value)[1..] == [];
    } else {
      assert Set(params, key, value)[1..] == Set(params[1..], key, value);
      SetGets(params[1..], key, value, k);
    }
  }

  /** Setting a fresh key changes what that key holds and nothing else. */
  lemma {:induction false} SetFresh(params: seq<Pair>, key: string, value: string)
    requires Get(params, key) == None && AllBytes(params) && Bytes(key) && Bytes(value)
    ensures AllBytes(Set(params, key, value))
    ensures forall k :: Get(Set(params, key, value), k) == if k == key then Some(value) else Get(params, k)
  {
    forall k
      ensures Get(Set(params, key, value), k) == if k == key then Some(value) else Get(params, k)
    {
      SetGets(params, key, value, k);
    }
  }

  lemma {:induction false} Texts(js: Js, f: Filters)
    requires Lawful(js) && WellTyped(js, f)
    ensures Bytes(NAME) && Bytes(TOPIC) && Bytes(FROM) && Bytes(TO) && Bytes(ORDER)
    ensures f.name.Some? ==> Bytes(f.name.value)
    ensures f.topicContains.Some? ==> Bytes(f.topicContains.value)
    ensures f.fromLedger.Some? ==> Bytes(js.text(f.fromLedger.value))
    ensures f.toLedger.Some? ==> Bytes(js.text(f.toLedger.value))
    ensures f.order.Some? ==> Bytes(f.order.value)
  {
    assert f.fromLedger.Some? ==> PrintsBack(js, f.fromLedger.value);
    assert f.toLedger.Some? ==> PrintsBack(js, f.toLedger.value);
    hide Bytes;
  }

  /** The keys set so far hold what their filters put there, in order, and the others nothing. */
  ghost predicate Filled(js: Js, f: Filters, params: seq<Pair>, keys: seq<string>) {
    && AllBytes(params) && params == Params(js, f, keys)
    && forall k :: Get(params, k) == if k in keys then Param(js, f, k) else None
  }

  lemma {:induction false} FillNext(js: Js, f: Filters, params: seq<Pair>, keys: seq<string>, key: string,
                                    next: seq<Pair>)
    requires Filled(js, f, params, keys) && key !in keys && Bytes(key)
    requires Param(js, f, key).Some? ==> Bytes(Param(js, f, key).value)
    requires next == match Param(js, f, key) case None => params case Some(value) => Set(params, key, value)
    ensures Filled(js, f, next, keys + [key])
  {
    hide Get, Param, AllBytes, Bytes;
    assert (keys + [key])[..|keys|] == keys;
    if Param(js, f, key).Some? {
      SetFresh(params, key, Param(js, f, key).value);
    } else {
      assert params + [] == params;
    }
  }

  /** Serializes the filters: parsing the result, each key holds what its filter puts
      there, and the keys that are set come in a fixed order. */
  method EventFiltersToQuery(js: Js, f: Filters) returns (query: string)
    requires Lawful(js) && WellTyped(js, f)
    ensures ParseQuery(query) ==
            Optional("name", NonEmpty(f.name)) + Optional("topic", NonEmpty(f.topicContains))
            + Optional("from", Printed(js, f.fromLedger)) + Optional("to", Printed(js, f.toLedger))
            + Optional("order", NonEmpty(f.order))
    ensures AllBytes(ParseQuery(query)) && WrittenPairs(ParseQuery(query), query)
    ensures forall k :: Get(ParseQuery(query), k) == Param(js, f, k)
  {
    hide Get, Set, Bytes, AllBytes, Lawful, WellTyped, Filled, Params, Param, ParseQuery, Serialize;
    Texts(js, f);
    ParamOfKeys(js, f);
    var params: seq<Pair> := [];
    NothingSet(js, f);
    ghost var before := params;
    if f.name.Some? && f.name.value != "" {
      params := Set(params, NAME, f.name.value);
    }
    KeysInOrder();
    FillNext(js, f, before, [], NAME, params);
    before := params;
    if f.topicContains.Some? && f.topicContains.value != "" {
      params := Set(params, TOPIC, f.topicContains.value);
    }
    FillNext(js, f, before, [NAME], TOPIC, params);
    before := params;
    if f.fromLedger.Some? {
      params := Set(params, FROM, js.text(f.fromLedger.value));
    }
    FillNext(js, f, before, [NAME, TOPIC], FROM, params);
    before := params;
    if f.toLedger.Some? {
      params := Set(params, TO, js.text(f.toLedger.value));
    }
    FillNext(js, f, before, [NAME, TOPIC, FROM], TO, params);
    before := params;
    if f.order.Some? && f.order.value != "" {
      params := Set(params, ORDER, f.order.value);
    }
    FillNext(js, f, before, [NAME, TOPIC, FROM, TO], ORDER, params);
    AllFilled(js, f, params);
    ParamsInOrder(js, f);
    QueryRoundTrip(params);
    query := Serialize(params);
    SerializeMeans(params, query);
  }

  lemma ParamsInOrder(js: Js, f: Filters)
    ensures Params(js, f, KEYS) ==
            Optional(NAME, NonEmpty(f.name)) + Optional(TOPIC, NonEmpty(f.topicContains))
            + Optional(FROM, Printed(js, f.fromLedger)) + Optional(TO, Printed(js, f.toLedger))
            + Optional(ORDER, NonEmpty(f.order))
  {
    hide Param, Optional;
    ParamOfKeys(js, f);
    ParamsNext(js, f, [], NAME);
    ParamsNext(js, f, [NAME], TOPIC);
    ParamsNext(js, f, [NAME, TOPIC], FROM);
    ParamsNext(js, f, [NAME, TOPIC, FROM], TO);
    ParamsNext(js, f, [NAME, TOPIC, FROM, TO], ORDER);
    KeysInOrder();
    assert Params(js, f, []) == [];
    assert [] + Optional(NAME, NonEmpty(f.name)) == Optional(NAME, NonEmpty(f.name));
  }

  lemma ParamsNext(js: Js, f: Filters, keys: seq<string>, key: string)
    ensures Params(js, f, keys + [key]) == Params(js, f, keys) + Optional(key, Param(js, f, key))
  {
    hide Param, Optional;
    assert (keys + [key])[..|keys|] == keys;
  }

  lemma ParamOfKeys(js: Js, f: Filters)
    ensures Param(js, f, NAME) == NonEmpty(f.name) && Param(js, f, TOPIC) == NonEmpty(f.topicContains)
    ensures Param(js, f, FROM) == Printed(js, f.fromLedger) && Param(js, f, TO) == Printed(js, f.toLedger)
    ensures Param(js, f, ORDER) == NonEmpty(f.order)
  {
  }

  lemma KeysInOrder()
    ensures NAME !in [] && TOPIC !in [NAME] && FROM !in [NAME, TOPIC] && TO !in [NAME, TOPIC, FROM]
    ensures ORDER !in [NAME, TOPIC, FROM, TO]
    ensures [] + [NAME] == [NAME] && [NAME] + [TOPIC] == [NAME, TOPIC] && [NAME, TOPIC] + [FROM] == [NAME, TOPIC, FROM]
    ensures [NAME, TOPIC, FROM] + [TO] == [NAME, TOPIC, FROM, TO] && [NAME, TOPIC, FROM, TO] + [ORDER] == KEYS
  {
  }

  lemma {:induction false} AllFilled(js: Js, f: Filters, params: seq<Pair>)
    requires Filled(js, f, params, KEYS)
    ensures AllBytes(params) && params == Params(js, f, KEYS) && forall k :: Get(params, k) == Param(js, f, k)
  {
    hide Get, AllBytes, Params;
  }

  lemma {:induction false} NothingSet(js: Js, f: Filters)
    ensures Filled(js, f, [], [])
  {
  }

  // ---- Round trips ----

  /** Filters a query string can carry: text trimmed and not empty, ledgers not negative, a known order. */
  predicate Canonical(js: Js, f: Filters) {
    && (f.name.Some? ==> f.name.value != "" && js.trim(f.name.value) == f.name.value)
    && (f.topicContains.Some? ==>
        f.topicContains.value != "" && js.trim(f.topicContains.value) == f.topicContains.value)
    && (f.fromLedger.Some? ==> 0 <= f.fromLedger.value) && (f.toLedger.Some? ==> 0 <= f.toLedger.value)
    && (f.order.Some? ==> f.order.value == "asc" || f.order.value == "desc")
  }

  /** Serializing and reading gives the filters back exactly when they are canonical. */
  lemma {:induction false} FiltersRoundTrip(js: Js, f: Filters, params: seq<Pair>)
    requires Lawful(js) && WellTyped(js, f) && forall k :: Get(params, k) == Param(js, f, k)
    ensures Read(js, params) == f <==> Canonical(js, f)
  {
    hide Get, Bytes;
    assert f.fromLedger.Some? ==> PrintsBack(js, f.fromLedger.value);
    assert f.toLedger.Some? ==> PrintsBack(js, f.toLedger.value);
  }

  lemma {:induction false} ReadIsCanonical(js: Js, params: seq<Pair>)
    requires Lawful(js) && AllBytes(params)
    ensures Canonical(js, Read(js, params)) && WellTyped(js, Read(js, params))
  {
    hide Get;
    forall k
      ensures Get(params, k).Some? ==> Bytes(Get(params, k).value)
    {
      GetBytes(params, k);
    }
  }

  lemma {:induction false} GetBytes(params: seq<Pair>, k: string)
    requires AllBytes(params)
    ensures Get(params, k).Some? ==> Bytes(Get(params, k).value)
  {
    if params != [] {
      GetBytes(params[1..], k);
    }
  }

  /** Reading any query string and writing its filters back gives a query string that
      reads the same, and then nothing changes any more. */
  method Normalize(js: Js, query: string) returns (again: string)
    requires Lawful(js) && AllBytes(ParseQuery(query))
    ensures Read(js, ParseQuery(again)) == Read(js, ParseQuery(query))
  {
    var f := ReadEventFilters(js, ParseQuery(query));
    ReadIsCanonical(js, ParseQuery(query));
    again := EventFiltersToQuery(js, f);
    FiltersRoundTrip(js, f, ParseQuery(again));
  }

  // ---- The laws can be met ----

  /** Decimal text and trimmed white space, for 64-bit integers. */
  function Decimal(): Js {
    Js(TrimSpace, Numerals.ParseInt64, n => Numerals.FormatInt(n), n => Numerals.MIN_INT64 <= n <= Numerals.MAX_INT64)
  }

  lemma {:induction false} DecimalIsLawful()
    ensures Lawful(Decimal())
  {
    forall s
      ensures TrimSpace(TrimSpace(s)) == TrimSpace(s)
      ensures Bytes(s) ==> Bytes(TrimSpace(s))
    {
      var a, b := Scripts.TrimCuts(s);
      Scripts.TrimmedStays(TrimSpace(s));
    }
    forall n
      ensures PrintsBack(Decimal(), n)
    {
      if Numerals.MIN_INT64 <= n <= Numerals.MAX_INT64 {
        DecimalPrintsBack(n);
      }
    }
  }

  predicate NumberText(s: string) {
    s != "" && forall i | 0 <= i < |s| :: s[i] == '-' || Numerals.IsDigit(s[i])
  }

  lemma {:induction false} FormatIntIsNumberText(n: int)
    ensures NumberText(Numerals.FormatInt(n))
  {
    Numerals.FormatNatReads(if n < 0 then -n else n);
    hide Numerals.FormatNat;
  }

  lemma {:induction false} NumberTextStays(s: string)
    requires NumberText(s)
    ensures TrimSpace(s) == s && Bytes(s)
  {
    assert Scripts.Trimmed(s);
    Scripts.TrimmedStays(s);
  }

  lemma {:induction false} DecimalPrintsBack(n: int)
    requires Numerals.MIN_INT64 <= n <= Numerals.MAX_INT64
    ensures PrintsBack(Decimal(), n)
  {
    Numerals.FormatIntReads(n);
    FormatIntIsNumberText(n);
    NumberTextStays(Numerals.FormatInt(n));
    hide Numerals.FormatInt, Numerals.ParseInt64, TrimSpace, Bytes;
  }
}
