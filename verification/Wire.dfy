/** The written form of a decoded value, member by member, and what a JSON tree is read as. */
module Wire {
  import opened Wrappers
  import opened Numerals
  import opened Decoder
  import opened Json
  import Utf8

  // ---- What is written ----

  /** Exactly these members, in this order. */
  predicate Members(j: Json, names: seq<string>) {
    j.JObject? && |j.fields| == |names| && forall i | 0 <= i < |names| :: j.fields[i].name == names[i]
  }

  /** A type and a value, and nothing else. */
  predicate Tagged(j: Json, tag: string, value: Json) {
    Members(j, ["type", "value"]) && j.fields[0].value == JString(tag) && j.fields[1].value == value
  }

  /** Text as the encoder writes it. */
  predicate TaggedText(j: Json, tag: string, c: Content) {
    c.Str? && Tagged(j, tag, JString(Utf8.Coerce(c.s)))
  }

  predicate TaggedArray(j: Json, tag: string, n: nat) {
    && Members(j, ["type", "value"]) && j.fields[0].value == JString(tag)
    && j.fields[1].value.JArray? && |j.fields[1].value.items| == n
  }

  predicate WrittenPair(j: Json) {
    Members(j, ["key", "value"])
  }

  /** The object a decoded value is written as: its members by name, and the JSON kind of each. */
  predicate Written(d: DecodedValue, j: Json)
    decreases d
  {
    match d.kind
    case KVoid => Members(j, ["type"]) && j.fields[0].value == JString("void")
    case KUnknown =>
      && Members(j, ["type", "xdr"]) && j.fields[0].value == JString("unknown")
      && j.fields[1].value == JString(Utf8.Coerce(d.xdr))
    case KBool => d.value.Bool? && Tagged(j, "bool", JBool(d.value.b))
    case KU32 => d.value.Int? && Tagged(j, "u32", JNumber(d.value.n))
    case KI32 => d.value.Int? && Tagged(j, "i32", JNumber(d.value.n))
    case KAddress => TaggedText(j, "address", d.value)
    case KSymbol => TaggedText(j, "symbol", d.value)
    case KString => TaggedText(j, "string", d.value)
    case KBytes => TaggedText(j, "bytes", d.value)
    case KU64 => TaggedText(j, "u64", d.value)
    case KI64 => TaggedText(j, "i64", d.value)
    case KU128 => TaggedText(j, "u128", d.value)
    case KI128 => TaggedText(j, "i128", d.value)
    case KU256 => TaggedText(j, "u256", d.value)
    case KI256 => TaggedText(j, "i256", d.value)
    case KTimepoint => TaggedText(j, "timepoint", d.value)
    case KDuration => TaggedText(j, "duration", d.value)
    case KVec =>
      && d.value.List? && TaggedArray(j, "vec", |d.value.items|)
      && forall i | 0 <= i < |d.value.items| :: Written(d.value.items[i], j.fields[1].value.items[i])
    case KMap =>
      && d.entries.Entries? && TaggedArray(j, "map", |d.entries.list|)
      && forall i | 0 <= i < |d.entries.list| ::
           && WrittenPair(j.fields[1].value.items[i])
           && Written(d.entries.list[i].key, j.fields[1].value.items[i].fields[0].value)
           && Written(d.entries.list[i].value, j.fields[1].value.items[i].fields[1].value)
    case Named(_) => false
  }

  lemma MembersAre(j: Json, a: string, x: Json, b: string, y: Json)
    ensures j == JObject([Field(a, x), Field(b, y)]) <==>
              Members(j, [a, b]) && j.fields[0].value == x && j.fields[1].value == y
  {
    if Members(j, [a, b]) && j.fields[0].value == x && j.fields[1].value == y {
      assert j.fields[0] == Field(a, x) && j.fields[1] == Field(b, y);
      assert j.fields == [Field(a, x), Field(b, y)];
    }
  }

  lemma MemberIs(j: Json, a: string, x: Json)
    ensures j == JObject([Field(a, x)]) <==> Members(j, [a]) && j.fields[0].value == x
  {
    if Members(j, [a]) && j.fields[0].value == x {
      assert j.fields[0] == Field(a, x);
      assert j.fields == [Field(a, x)];
    }
  }

  lemma {:induction false} NameIsKept(k: Kind)
    requires !k.Named?
    ensures Text(KindName(k)) == JString(KindName(k))
  {
    hide KindName, Utf8.Coerce, Utf8.Valid;
    KindNameIsAscii(k);
    Utf8.AsciiIsValid(KindName(k));
    Utf8.ValidIsKept(KindName(k));
  }

  /** A payload with a value and no xdr. */
  lemma {:induction false} PayloadIs(k: Kind, value: Json, j: Json)
    requires !k.Named?
    ensures j == Object(KindName(k), [Field("value", value)], "") <==> Tagged(j, KindName(k), value)
  {
    NameIsKept(k);
    hide KindName, Text;
    MembersAre(j, "type", Text(KindName(k)), "value", value);
    assert [Field("type", Text(KindName(k)))] + [Field("value", value)] + XdrField("") ==
        [Field("type", Text(KindName(k))), Field("value", value)];
  }

  /** What Marshal writes for a value that Decode can produce is the one thing of that form. */
  lemma {:induction false} MarshalWrites(d: DecodedValue, j: Json)
    requires Shaped(d)
    ensures Written(d, j) <==> j == Marshal(d)
    decreases d, 1
  {
    if d.kind.KVec? {
      VecWrites(d, j);
    } else if d.kind.KMap? {
      MapWrites(d, j);
    } else if d.kind.KVoid? {
      VoidWrites(d, j);
    } else if d.kind.KUnknown? {
      UnknownWrites(d, j);
    } else {
      LeafWrites(d, j);
    }
    hide Written, Marshal, Shaped;
  }

  lemma {:induction false} VoidWrites(d: DecodedValue, j: Json)
    requires Shaped(d) && d.kind.KVoid?
    ensures Written(d, j) <==> j == Marshal(d)
  {
    hide Marshal, Utf8.Coerce, Members, Text;
    NameIsKept(KVoid);
    MarshalLeaf(d);
    MemberIs(j, "type", JString("void"));
    assert [Field("type", Text("void"))] + [] + [] == [Field("type", Text("void"))];
  }

  lemma {:induction false} UnknownWrites(d: DecodedValue, j: Json)
    requires Shaped(d) && d.kind.KUnknown?
    ensures Written(d, j) <==> j == Marshal(d)
  {
    hide Marshal, Utf8.Coerce, Members;
    NameIsKept(KUnknown);
    MarshalLeaf(d);
    MembersAre(j, "type", JString("unknown"), "xdr", Text(d.xdr));
    var tag, xdr := Field("type", Text("unknown")), Field("xdr", Text(d.xdr));
    assert [tag] + [] + [xdr] == [tag, xdr];
  }

  lemma {:induction false} LeafWrites(d: DecodedValue, j: Json)
    requires Shaped(d) && !d.kind.KVec? && !d.kind.KMap? && !d.kind.KVoid? && !d.kind.KUnknown?
    ensures Written(d, j) <==> j == Marshal(d)
  {
    hide Marshal, Tagged, Utf8.Coerce, Object;
    MarshalLeaf(d);
    PayloadIs(d.kind, LeafJson(d.value), j);
  }

  function LeafJson(c: Content): Json {
    match c
    case Bool(b) => JBool(b)
    case Int(n) => JNumber(n)
    case Str(s) => Text(s)
    case _ => JNull
  }

  lemma {:induction false} VecWrites(d: DecodedValue, j: Json)
    requires Shaped(d) && d.kind.KVec?
    ensures Written(d, j) <==> j == Marshal(d)
    decreases d, 0
  {
    hide Marshal, Object, MarshalItems, ShapedItems, Shaped;
    ShapedVec(d);
    MarshalVec(d);
    var items := d.value.items;
    var written := MarshalItems(items);
    PayloadIs(KVec, JArray(written), j);
    if TaggedArray(j, "vec", |items|) {
      var parts := j.fields[1].value.items;
      forall i | 0 <= i < |items|
        ensures Written(items[i], parts[i]) <==> parts[i] == written[i]
      {
        ItemAt(items, i);
        MarshalWrites(items[i], parts[i]);
      }
      hide Written;
      assert (forall i | 0 <= i < |items| :: parts[i] == written[i]) <==> parts == written;
    }
  }

  lemma {:induction false} ShapedVec(d: DecodedValue)
    requires Shaped(d) && d.kind.KVec?
    ensures d.value.List? && ShapedItems(d.value.items)
  {
    hide ShapedItems;
  }

  lemma {:induction false} ItemAt(items: seq<DecodedValue>, i: nat)
    requires ShapedItems(items) && i < |items|
    ensures Shaped(items[i]) && MarshalItems(items)[i] == Marshal(items[i])
  {
    hide Shaped, Marshal;
    if i < |items| - 1 {
      ItemAt(items[..|items| - 1], i);
    }
  }

  lemma {:induction false} MapWrites(d: DecodedValue, j: Json)
    requires Shaped(d) && d.kind.KMap?
    ensures Written(d, j) <==> j == Marshal(d)
    decreases d, 0
  {
    hide Marshal, Object, MarshalEntries, ShapedEntries, Shaped;
    ShapedMap(d);
    MarshalMap(d);
    var list := d.entries.list;
    var written := MarshalEntries(list);
    PayloadIs(KMap, JArray(written), j);
    if TaggedArray(j, "map", |list|) {
      var parts := j.fields[1].value.items;
      forall i | 0 <= i < |list|
        ensures (&& WrittenPair(parts[i])
                 && Written(list[i].key, parts[i].fields[0].value)
                 && Written(list[i].value, parts[i].fields[1].value)) <==>
                  parts[i] == written[i]
      {
        EntryAt(list, i);
        MembersAre(parts[i], "key", Marshal(list[i].key), "value", Marshal(list[i].value));
        if WrittenPair(parts[i]) {
          MarshalWrites(list[i].key, parts[i].fields[0].value);
          MarshalWrites(list[i].value, parts[i].fields[1].value);
        }
      }
      hide Written, WrittenPair;
      assert (forall i | 0 <= i < |list| :: parts[i] == written[i]) <==> parts == written;
    }
  }

  lemma {:induction false} ShapedMap(d: DecodedValue)
    requires Shaped(d) && d.kind.KMap?
    ensures d.entries.Entries? && ShapedEntries(d.entries.list)
  {
    hide ShapedEntries;
  }

  lemma {:induction false} MarshalMap(d: DecodedValue)
    requires Shaped(d) && d.kind.KMap?
    ensures Marshal(d) == Object(KindName(KMap), [Field("value", JArray(MarshalEntries(d.entries.list)))], "")
  {
    hide KindName, Object, MarshalEntries, ShapedEntries;
  }

  lemma {:induction false} EntryAt(list: seq<MapEntry>, i: nat)
    requires ShapedEntries(list) && i < |list|
    ensures Shaped(list[i].key) && Shaped(list[i].value)
    ensures MarshalEntries(list)[i] ==
              JObject([Field("key", Marshal(list[i].key)), Field("value", Marshal(list[i].value))])
  {
    hide Shaped, Marshal;
    if i < |list| - 1 {
      EntryAt(list[..|list| - 1], i);
    }
  }

  // ---- What is read ----

  /** A name spelled in lower case: each letter may be upper case, and k and s may also be the
      Kelvin sign and the long s. */
  predicate SpelledAs(name: string, lower: string)
    decreases |lower|
  {
    if lower == "" then name == ""
    else
      || (name != "" && Letter(name[0], lower[0]) && SpelledAs(name[1..], lower[1..]))
      || (lower[0] == 's' && LONG_S <= name && SpelledAs(name[2..], lower[1..]))
      || (lower[0] == 'k' && KELVIN <= name && SpelledAs(name[3..], lower[1..]))
  }

  predicate Letter(c: char, lower: char) {
    c == lower || ('A' <= c <= 'Z' && c as int + 32 == lower as int)
  }

  lemma {:induction false} FoldMeans(name: string, lower: string)
    requires forall i | 0 <= i < |lower| :: 'a' <= lower[i] <= 'z'
    ensures Fold(name) == lower <==> SpelledAs(name, lower)
    decreases |lower|
  {
    if lower != "" && name != "" {
      FoldMeans(name[1..], lower[1..]);
      assert lower == [lower[0]] + lower[1..];
      if LONG_S <= name {
        FoldMeans(name[2..], lower[1..]);
        assert name[0] == LONG_S[0];
      }
      if KELVIN <= name {
        FoldMeans(name[3..], lower[1..]);
        assert name[0] == KELVIN[0];
      }
      hide SpelledAs;
    }
  }

  predicate IsLast(fields: seq<Field>, name: string, k: nat) {
    k < |fields| && Names(fields[k], name) && forall i | k < i < |fields| :: !Names(fields[i], name)
  }

  predicate Absent(fields: seq<Field>, name: string) {
    forall i | 0 <= i < |fields| :: !Names(fields[i], name)
  }

  /** A text field: every member of the name is null or a string, and the last string counts. */
  predicate ReadsText(fields: seq<Field>, name: string, text: string) {
    && (forall i | 0 <= i < |fields| && Names(fields[i], name) ::
          fields[i].value.JNull? || fields[i].value.JString?)
    && ((text == "" && forall i | 0 <= i < |fields| && Names(fields[i], name) :: fields[i].value.JNull?)
        || exists k | 0 <= k < |fields| :: LastText(fields, name, k, text))
  }

  predicate LastText(fields: seq<Field>, name: string, k: nat, text: string) {
    && k < |fields| && Names(fields[k], name) && fields[k].value == JString(text)
    && forall i | k < i < |fields| && Names(fields[i], name) :: fields[i].value.JNull?
  }

  /** What a scalar's value member says. */
  predicate ReadsScalar(kind: Kind, j: Json, c: Content) {
    match kind
    case KU32 => (j.JNull? && c == Int(0)) || (j.JNumber? && MIN_INT64 <= j.n <= MAX_INT64 && c == Int(j.n))
    case KI32 => (j.JNull? && c == Int(0)) || (j.JNumber? && MIN_INT64 <= j.n <= MAX_INT64 && c == Int(j.n))
    case KBool => (j.JNull? && c == Bool(false)) || (j.JBool? && c == Bool(j.b))
    case _ => (j.JNull? && c == Str("")) || (j.JString? && c == Str(j.s))
  }

  /** What a JSON tree is read as, if anything. */
  ghost predicate Reads(j: Json, d: DecodedValue)
    decreases j, 2
  {
    if !j.JObject? then j.JNull? && d == Zero
    else
      && (exists tag :: ReadsText(j.fields, "type", tag) && d.kind == KindOf(tag))
      && ReadsText(j.fields, "xdr", d.xdr)
      && (Absent(j.fields, "value") ==> d.value == Nil && d.entries == NoEntries)
      && forall k: nat | IsLast(j.fields, "value", k) :: ReadsValue(j.fields[k].value, d)
  }

  ghost predicate ReadsValue(j: Json, d: DecodedValue)
    decreases j, 1
  {
    match d.kind
    case KMap =>
      && d.value == Nil
      && ((j.JNull? && d.entries == NoEntries)
          || (j.JArray? && d.entries.Entries? && |d.entries.list| == |j.items|
              && forall i | 0 <= i < |j.items| :: ReadsEntry(j.items[i], d.entries.list[i])))
    case KVec =>
      && d.entries == NoEntries
      && ((j.JNull? && d.value == List([]))
          || (j.JArray? && d.value.List? && |d.value.items| == |j.items|
              && forall i | 0 <= i < |j.items| :: Reads(j.items[i], d.value.items[i])))
    case _ => d.entries == NoEntries && ReadsScalar(d.kind, j, d.value)
  }

  /** An entry: every key and value member is readable, and the last of each counts. */
  ghost predicate ReadsEntry(j: Json, e: MapEntry)
    decreases j, 3
  {
    if !j.JObject? then j.JNull? && e == MapEntry(Zero, Zero)
    else
      && (forall i | 0 <= i < |j.fields| && (Names(j.fields[i], "key") || Names(j.fields[i], "value")) ::
            Readable(j.fields[i].value))
      && (Absent(j.fields, "key") ==> e.key == Zero)
      && (Absent(j.fields, "value") ==> e.value == Zero)
      && (forall k: nat | IsLast(j.fields, "key", k) :: Reads(j.fields[k].value, e.key))
      && (forall k: nat | IsLast(j.fields, "value", k) :: Reads(j.fields[k].value, e.value))
  }

  ghost predicate Readable(j: Json)
    decreases j, 3
  {
    exists d :: Reads(j, d)
  }

  // ---- Unmarshal reads just that ----

  lemma {:induction false} ReadTextMeans(fields: seq<Field>, name: string, text: string)
    ensures ReadText(fields, name) == Ok(text) <==> ReadsText(fields, name, text)
  {
    hide Names;
    if fields != [] {
      var n := |fields| - 1;
      var init, last := fields[..n], fields[n];
      assert forall i | 0 <= i < n :: init[i] == fields[i];
      ReadTextMeans(init, name, text);
      if ReadText(init, name).Ok? {
        ReadTextMeans(init, name, ReadText(init, name).value);
      }
      TextJoins(fields, name, text);
      if Names(last, name) && last.value.JString? && ReadText(init, name).Ok? {
        TextEnds(fields, name, ReadText(init, name).value, text);
      }
      if ReadsText(fields, name, text) {
        var before := TextBefore(fields, name, text);
        ReadTextMeans(init, name, before);
      }
    }
  }

  /** Another member that is of another name or null changes nothing. */
  lemma {:induction false} TextJoins(fields: seq<Field>, name: string, text: string)
    requires fields != []
    ensures var last := fields[|fields| - 1];
            !Names(last, name) || last.value.JNull? ==>
              (ReadsText(fields, name, text) <==> ReadsText(fields[..|fields| - 1], name, text))
  {
    hide Names;
    var n := |fields| - 1;
    var init, last := fields[..n], fields[n];
    assert forall i | 0 <= i < n :: init[i] == fields[i];
    if !Names(last, name) || last.value.JNull? {
      assert forall k | 0 <= k < n :: LastText(init, name, k, text) <==> LastText(fields, name, k, text);
      assert !LastText(fields, name, n, text);
    }
  }

  /** Another string of the name is the one that counts. */
  lemma {:induction false} TextEnds(fields: seq<Field>, name: string, before: string, text: string)
    requires fields != [] && ReadsText(fields[..|fields| - 1], name, before)
    requires var last := fields[|fields| - 1]; Names(last, name) && last.value.JString?
    ensures ReadsText(fields, name, text) <==> text == fields[|fields| - 1].value.s
  {
    hide Names;
    var n := |fields| - 1;
    assert forall i | 0 <= i < n :: fields[..n][i] == fields[i];
    assert LastText(fields, name, n, fields[n].value.s);
  }

  /** If members can be read, those before the last could. */
  lemma {:induction false} TextBefore(fields: seq<Field>, name: string, text: string) returns (before: string)
    requires fields != [] && ReadsText(fields, name, text)
    ensures ReadsText(fields[..|fields| - 1], name, before)
  {
    hide Names;
    var n := |fields| - 1;
    assert forall i | 0 <= i < n :: fields[..n][i] == fields[i];
    before := SomeText(fields[..n], name);
  }

  lemma {:induction false} SomeText(fields: seq<Field>, name: string) returns (text: string)
    requires forall i | 0 <= i < |fields| && Names(fields[i], name) ::
               fields[i].value.JNull? || fields[i].value.JString?
    ensures ReadsText(fields, name, text)
  {
    hide Names;
    if fields == [] {
      text := "";
    } else {
      var n := |fields| - 1;
      assert forall i | 0 <= i < n :: fields[..n][i] == fields[i];
      var before := SomeText(fields[..n], name);
      text := if Names(fields[n], name) && fields[n].value.JString? then fields[n].value.s else before;
      TextJoins(fields, name, text);
      if Names(fields[n], name) && fields[n].value.JString? {
        TextEnds(fields, name, before, text);
      }
    }
  }

  lemma {:induction false} FindMeans(fields: seq<Field>, name: string)
    ensures var k := Find(fields, name);
            && (k == |fields| <==> Absent(fields, name))
            && (k < |fields| ==> IsLast(fields, name, k))
            && forall i: nat | IsLast(fields, name, i) :: i == k
  {
    hide Names;
    if fields != [] {
      var n := |fields| - 1;
      FindMeans(fields[..n], name);
      assert forall i | 0 <= i < n :: fields[..n][i] == fields[i];
      var k := Find(fields[..n], name);
      if !Names(fields[n], name) && k < n {
        assert IsLast(fields[..n], name, k);
        assert IsLast(fields, name, k);
      }
      forall i: nat | IsLast(fields, name, i)
        ensures i == Find(fields, name)
      {
        if i < n && !Names(fields[n], name) {
          assert IsLast(fields[..n], name, i);
        }
      }
    }
  }

  lemma {:induction false} ItemsRead(items: seq<Json>, list: seq<DecodedValue>)
    ensures UnmarshalItems(items) == Ok(list) <==>
              |list| == |items| && forall i | 0 <= i < |items| :: Unmarshal(items[i]) == Ok(list[i])
  {
    hide Unmarshal;
    if items != [] && list != [] {
      var n, m := |items| - 1, |list| - 1;
      ItemsRead(items[..n], list[..m]);
      assert list == list[..m] + [list[m]];
      assert forall i | 0 <= i < n :: items[..n][i] == items[i];
      assert forall i | 0 <= i < m :: list[..m][i] == list[i];
      if UnmarshalItems(items[..n]).Ok? && Unmarshal(items[n]).Ok? {
        LastDecides(UnmarshalItems(items[..n]).value, Unmarshal(items[n]).value, list[..m], list[m]);
      }
    }
  }

  lemma {:induction false} EntriesRead(items: seq<Json>, list: seq<MapEntry>)
    ensures UnmarshalEntries(items) == Ok(list) <==>
              |list| == |items| && forall i | 0 <= i < |items| :: UnmarshalEntry(items[i]) == Ok(list[i])
  {
    hide UnmarshalEntry;
    if items != [] && list != [] {
      var n, m := |items| - 1, |list| - 1;
      EntriesRead(items[..n], list[..m]);
      assert list == list[..m] + [list[m]];
      assert forall i | 0 <= i < n :: items[..n][i] == items[i];
      assert forall i | 0 <= i < m :: list[..m][i] == list[i];
      if UnmarshalEntries(items[..n]).Ok? && UnmarshalEntry(items[n]).Ok? {
        LastDecides(UnmarshalEntries(items[..n]).value, UnmarshalEntry(items[n]).value, list[..m], list[m]);
      }
    }
  }

  /** An entry from its members, in terms of what each member is read as. */
  ghost predicate EntryHolds(fields: seq<Field>, e: MapEntry) {
    && (forall i | 0 <= i < |fields| && (Names(fields[i], "key") || Names(fields[i], "value")) ::
          Unmarshal(fields[i].value).Ok?)
    && (Absent(fields, "key") ==> e.key == Zero)
    && (Absent(fields, "value") ==> e.value == Zero)
    && (forall k: nat | IsLast(fields, "key", k) :: Unmarshal(fields[k].value) == Ok(e.key))
    && (forall k: nat | IsLast(fields, "value", k) :: Unmarshal(fields[k].value) == Ok(e.value))
  }

  lemma NoName(f: Field)
    ensures !(Names(f, "key") && Names(f, "value"))
  {
    hide Fold;
    assert "key"[0] == 'k' && "value"[0] == 'v';
  }

  lemma {:induction false} LastAfter(fields: seq<Field>, f: Field, name: string, k: nat)
    ensures IsLast(fields + [f], name, k) <==>
              if Names(f, name) then k == |fields| else IsLast(fields, name, k)
    ensures Absent(fields + [f], name) <==> Absent(fields, name) && !Names(f, name)
  {
    hide Names;
    var all := fields + [f];
    assert all[|fields|] == f && forall i | 0 <= i < |fields| :: all[i] == fields[i];
  }

  predicate KeyOrValue(f: Field) {
    Names(f, "key") || Names(f, "value")
  }

  lemma {:induction false} EntryFromHolds(fields: seq<Field>)
    ensures EntryFrom(fields).Ok? <==>
              forall i | 0 <= i < |fields| && KeyOrValue(fields[i]) :: Unmarshal(fields[i].value).Ok?
    ensures EntryFrom(fields).Ok? ==> EntryHolds(fields, EntryFrom(fields).value)
  {
    hide Names, Unmarshal;
    if fields != [] {
      var n := |fields| - 1;
      var init, f := fields[..n], fields[n];
      EntryFromHolds(init);
      assert fields == init + [f];
      assert forall i | 0 <= i < n :: init[i] == fields[i];
      if EntryFrom(fields).Ok? {
        NoName(f);
        MemberHolds(init, f, EntryFrom(init).value, EntryFrom(fields).value);
      }
    }
  }

  lemma {:induction false} MemberHolds(init: seq<Field>, f: Field, before: MapEntry, e: MapEntry)
    requires EntryHolds(init, before) && MemberInto(before, f) == Ok(e) && !(Names(f, "key") && Names(f, "value"))
    ensures EntryHolds(init + [f], e)
  {
    hide Names, Unmarshal, Absent, IsLast;
    var all := init + [f];
    assert all[|init|] == f && forall i | 0 <= i < |init| :: all[i] == init[i];
    LastAfter(init, f, "key", 0);
    LastAfter(init, f, "value", 0);
    forall k: nat | IsLast(all, "key", k) || IsLast(all, "value", k)
      ensures k < |all|
    {
      LastIsIn(all, "key", k);
      LastIsIn(all, "value", k);
    }
    forall k: nat | IsLast(all, "key", k)
      ensures Unmarshal(all[k].value) == Ok(e.key)
    {
      LastAfter(init, f, "key", k);
      LastIsIn(init, "key", k);
    }
    forall k: nat | IsLast(all, "value", k)
      ensures Unmarshal(all[k].value) == Ok(e.value)
    {
      LastAfter(init, f, "value", k);
      LastIsIn(init, "value", k);
    }
  }

  lemma LastIsIn(fields: seq<Field>, name: string, k: nat)
    ensures IsLast(fields, name, k) ==> k < |fields|
  {
  }

  lemma {:induction false} EntryHoldsOne(fields: seq<Field>, a: MapEntry, b: MapEntry)
    requires EntryHolds(fields, a) && EntryHolds(fields, b)
    ensures a == b
  {
    hide Names, Unmarshal, Absent, IsLast;
    FindMeans(fields, "key");
    FindMeans(fields, "value");
    assert a.key == b.key;
  }

  lemma {:induction false} EntryFromMeans(fields: seq<Field>, e: MapEntry)
    ensures EntryFrom(fields) == Ok(e) <==> EntryHolds(fields, e)
  {
    EntryFromHolds(fields);
    if EntryHolds(fields, e) {
      EntryHoldsOne(fields, EntryFrom(fields).value, e);
    }
    hide EntryFrom, Unmarshal, Names;
  }

  /** Unmarshalling answers exactly what the tree is read as, and fails if it is read as nothing. */
  lemma {:induction false} UnmarshalMeans(j: Json, d: DecodedValue)
    ensures Unmarshal(j) == Ok(d) <==> Reads(j, d)
    decreases j, 2
  {
    if j.JObject? {
      ObjectMeans(j, d);
    } else {
      NoObjectMeans(j, d);
    }
  }

  lemma NoObjectMeans(j: Json, d: DecodedValue)
    requires !j.JObject?
    ensures Unmarshal(j) == Ok(d) <==> Reads(j, d)
  {
  }

  lemma {:induction false} ObjectMeans(j: Json, d: DecodedValue)
    requires j.JObject?
    ensures Unmarshal(j) == Ok(d) <==> Reads(j, d)
    decreases j, 1
  {
    hide ReadText, Find, FromValue, ReadsText, ReadsValue, IsLast, Absent, KindOf;
    var fields := j.fields;
    var k, tag, xdr := Find(fields, "value"), ReadText(fields, "type"), ReadText(fields, "xdr");
    FindMeans(fields, "value");
    ReadTextMeans(fields, "xdr", d.xdr);
    if k < |fields| {
      ValueMeans(fields[k].value, d);
    }
    if tag.Ok? {
      ReadTextMeans(fields, "type", tag.value);
      if k < |fields| && xdr.Ok? {
        ValueKeeps(KindOf(tag.value), fields[k].value, xdr.value);
      }
    }
    if text :| ReadsText(fields, "type", text) && d.kind == KindOf(text) {
      ReadTextMeans(fields, "type", text);
    }
    if Unmarshal(j) == Ok(d) {
      assert xdr == Ok(d.xdr) && tag == Ok(tag.value) && d.kind == KindOf(tag.value);
      assert ReadsText(fields, "type", tag.value);
      forall i: nat | IsLast(fields, "value", i)
        ensures i < |fields| && ReadsValue(fields[i].value, d)
      {
        LastIsIn(fields, "value", i);
      }
    }
  }

  lemma ValueKeeps(kind: Kind, j: Json, xdr: string)
    ensures FromValue(kind, j, xdr).Ok? ==>
              FromValue(kind, j, xdr).value.kind == kind && FromValue(kind, j, xdr).value.xdr == xdr
  {
    hide UnmarshalContent, UnmarshalEntryList;
  }

  lemma {:induction false} ValueMeans(j: Json, d: DecodedValue)
    ensures FromValue(d.kind, j, d.xdr) == Ok(d) <==> ReadsValue(j, d)
    decreases j, 1
  {
    hide Unmarshal, UnmarshalItems, UnmarshalEntries, Reads, ReadsEntry;
    if d.kind.KMap? {
      if j.JArray? && d.entries.Entries? {
        EntriesRead(j.items, d.entries.list);
        if |d.entries.list| == |j.items| {
          forall i | 0 <= i < |j.items|
            ensures UnmarshalEntry(j.items[i]) == Ok(d.entries.list[i]) <==> ReadsEntry(j.items[i], d.entries.list[i])
          {
            EntryMeans(j.items[i], d.entries.list[i]);
          }
        }
      }
    } else if d.kind.KVec? {
      if j.JArray? && d.value.List? {
        ItemsRead(j.items, d.value.items);
        if |d.value.items| == |j.items| {
          forall i | 0 <= i < |j.items|
            ensures Unmarshal(j.items[i]) == Ok(d.value.items[i]) <==> Reads(j.items[i], d.value.items[i])
          {
            UnmarshalMeans(j.items[i], d.value.items[i]);
          }
        }
      }
    }
  }

  lemma {:induction false} UnmarshalIsReadable(j: Json)
    ensures Unmarshal(j).Ok? <==> Readable(j)
    decreases j, 3
  {
    hide Unmarshal;
    if Unmarshal(j).Ok? {
      UnmarshalMeans(j, Unmarshal(j).value);
    }
    if d :| Reads(j, d) {
      UnmarshalMeans(j, d);
    }
  }

  lemma {:induction false} EntryMeans(j: Json, e: MapEntry)
    ensures UnmarshalEntry(j) == Ok(e) <==> ReadsEntry(j, e)
    decreases j, 1
  {
    hide Unmarshal, Reads, Names, IsLast, Absent, EntryFrom;
    if j.JObject? {
      EntryFromMeans(j.fields, e);
      forall i, d | 0 <= i < |j.fields|
        ensures Unmarshal(j.fields[i].value) == Ok(d) <==> Reads(j.fields[i].value, d)
      {
        UnmarshalMeans(j.fields[i].value, d);
      }
      forall i | 0 <= i < |j.fields|
        ensures Unmarshal(j.fields[i].value).Ok? <==> Readable(j.fields[i].value)
      {
        UnmarshalIsReadable(j.fields[i].value);
      }
      forall k: nat | IsLast(j.fields, "key", k) || IsLast(j.fields, "value", k)
        ensures k < |j.fields|
      {
        LastIsIn(j.fields, "key", k);
        LastIsIn(j.fields, "value", k);
      }
    }
  }
}
