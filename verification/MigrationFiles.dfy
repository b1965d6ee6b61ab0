/** Reading a directory of migration files: what a well-formed directory is, and the
    loop that accepts exactly those. */
module MigrationFiles {
  import opened Wrappers
  import opened Numerals
  import opened Splitter
  import opened Migrations

  const UP_SUFFIX := ".up.sql"
  const DOWN_SUFFIX := ".down.sql"

  /** A directory entry; a file that cannot be read has no body. */
  datatype Entry = Entry(name: string, isDir: bool, body: Option<string>)

  /** What a file name says. */
  datatype Label = Label(version: int, name: string, isUp: bool)

  predicate HasSuffix(s: string, suffix: string) {
    |suffix| <= |s| && s[|s| - |suffix|..] == suffix
  }

  function TrimSuffix(s: string, suffix: string): string
    requires HasSuffix(s, suffix)
  {
    s[..|s| - |suffix|]
  }

  /** NNNN_label, for one direction. */
  function ParseStem(stem: string, isUp: bool): Option<Label> {
    var cut := IndexOf(stem, '_');
    if cut == |stem| || cut + 1 == |stem| then None
    else
      var prefix := stem[..cut];
      if |prefix| != 4 then None
      else
        var version := ParseInt64(prefix);
        if version.None? || version.value < 1 then None
        else Some(Label(version.value, stem[cut + 1..], isUp))
  }

  function ParseName(name: string): Option<Label> {
    if HasSuffix(name, UP_SUFFIX) then ParseStem(TrimSuffix(name, UP_SUFFIX), true)
    else if HasSuffix(name, DOWN_SUFFIX) then ParseStem(TrimSuffix(name, DOWN_SUFFIX), false)
    else None
  }

  // ---- File names and what they say ----

  function Suffix(isUp: bool): string {
    if isUp then UP_SUFFIX else DOWN_SUFFIX
  }

  predicate Shaped(name: string, rest: string) {
    |name| >= 5 && name == name[..4] + "_" + rest
  }

  lemma {:induction false} StemShape(stem: string, isUp: bool)
    requires ParseStem(stem, isUp).Some?
    ensures var l := ParseStem(stem, isUp).value;
            && |stem| >= 5 && stem == stem[..4] + "_" + l.name && l.isUp == isUp
            && ParseInt64(stem[..4]) == Some(l.version) && 1 <= l.version && l.name != ""
            && '_' !in stem[..4]
  {
    hide ParseInt64;
    var cut := IndexOf(stem, '_');
    assert stem == stem[..cut] + "_" + stem[cut + 1..];
  }

  lemma {:induction false} ParsedStem(name: string)
    requires ParseName(name).Some?
    ensures var l := ParseName(name).value;
            && HasSuffix(name, Suffix(l.isUp))
            && ParseStem(TrimSuffix(name, Suffix(l.isUp)), l.isUp) == Some(l)
  {
    hide HasSuffix, ParseStem;
    StemIsUp(name);
  }

  lemma StemIsUp(name: string)
    ensures HasSuffix(name, UP_SUFFIX) ==>
              var l := ParseStem(TrimSuffix(name, UP_SUFFIX), true); l.Some? ==> l.value.isUp
    ensures HasSuffix(name, DOWN_SUFFIX) ==>
              var l := ParseStem(TrimSuffix(name, DOWN_SUFFIX), false); l.Some? ==> !l.value.isUp
  {
    hide HasSuffix, ParseInt64;
  }

  lemma {:induction false} ParsedShape(name: string)
    requires ParseName(name).Some?
    ensures var l := ParseName(name).value;
            && |name| >= 5 && Shaped(name, l.name + Suffix(l.isUp))
            && ParseInt64(name[..4]) == Some(l.version) && 1 <= l.version && l.name != ""
            && '_' !in name[..4]
  {
    hide ParseName, ParseStem, ParseInt64, Suffix;
    ParsedStem(name);
    var l := ParseName(name).value;
    var stem := TrimSuffix(name, Suffix(l.isUp));
    StemShape(stem, l.isUp);
    assert name == stem + Suffix(l.isUp) && name[..4] == stem[..4];
    assert stem[..4] + "_" + l.name + Suffix(l.isUp) == stem[..4] + "_" + (l.name + Suffix(l.isUp));
  }

  /** Four characters that strconv reads as a positive number: digits, or a plus and three digits. */
  predicate Signed(prefix: string) {
    prefix != "" && prefix[0] == '+'
  }

  /** The same prefix with a zero for the sign. */
  function Unsigned(prefix: string): string {
    if Signed(prefix) then "0" + prefix[1..] else prefix
  }

  lemma {:induction false} ZeroInFront(s: string)
    ensures DigitsValue("0" + s) == DigitsValue(s)
  {
    if s == "" {
      assert ("0" + s)[..0] == "";
    } else {
      assert ("0" + s)[..|s|] == "0" + s[..|s| - 1];
      ZeroInFront(s[..|s| - 1]);
    }
  }

  lemma {:induction false} DigitsDecide(a: string, b: string)
    requires |a| == |b| && (a == "" || IsDigits(a)) && (b == "" || IsDigits(b))
    ensures DigitsValue(a) == DigitsValue(b) <==> a == b
  {
    hide DigitsValue, DigitValue;
    if a != "" {
      var n := |a| - 1;
      DigitsDecide(a[..n], b[..n]);
      LastDigit(a);
      LastDigit(b);
      assert a == a[..n] + [a[n]] && b == b[..n] + [b[n]];
    }
  }

  lemma {:induction false} LastDigit(s: string)
    requires s != "" && IsDigits(s)
    ensures DigitsValue(s) == 10 * DigitsValue(s[..|s| - 1]) + DigitValue(s[|s| - 1])
    ensures 0 <= DigitValue(s[|s| - 1]) < 10
    ensures forall c | IsDigit(c) :: DigitValue(c) == DigitValue(s[|s| - 1]) ==> c == s[|s| - 1]
  {
    assert IsDigit(s[|s| - 1]);
    hide DigitsValue;
  }

  /** A positive prefix is worth the digits it shows once its sign is replaced by a zero. */
  lemma {:induction false} PrefixValue(prefix: string)
    requires |prefix| == 4 && ParseInt64(prefix).Some? && 1 <= ParseInt64(prefix).value
    ensures IsDigits(Unsigned(prefix)) && DigitsValue(Unsigned(prefix)) == ParseInt64(prefix).value
  {
    if Signed(prefix) {
      ZeroInFront(prefix[1..]);
    } else {
      assert prefix[0] != '-' by {
        NotNegative(prefix);
      }
    }
  }

  lemma {:induction false} NotNegative(prefix: string)
    requires ParseInt64(prefix).Some? && 1 <= ParseInt64(prefix).value
    ensures prefix[0] != '-'
  {
    if prefix[0] == '-' {
      DigitsNotNegative(prefix[1..]);
    }
  }

  lemma {:induction false} SameText(a: string, up: bool, b: string, up': bool)
    requires a + Suffix(up) == b + Suffix(up')
    ensures a == b && up == up'
  {
    var x, y := a + Suffix(up), b + Suffix(up');
    assert x[|x| - 7..] == Suffix(up)[|Suffix(up)| - 7..];
    assert y[|y| - 7..] == Suffix(up')[|Suffix(up')| - 7..];
    assert UP_SUFFIX[0..] == ".up.sql" && DOWN_SUFFIX[2..] == "own.sql";
    assert UP_SUFFIX[0] == '.' && DOWN_SUFFIX[2] == 'o';
    assert Suffix(up)[|Suffix(up)| - 7..][0] == Suffix(up)[|Suffix(up)| - 7];
    assert Suffix(up')[|Suffix(up')| - 7..][0] == Suffix(up')[|Suffix(up')| - 7];
    assert up == up';
    assert a == x[..|a|] && b == y[..|b|];
  }

  lemma {:induction false} SuffixDecides(a: string, up: bool, b: string, up': bool)
    ensures a + Suffix(up) == b + Suffix(up') <==> a == b && up == up'
  {
    if a + Suffix(up) == b + Suffix(up') {
      SameText(a, up, b, up');
    }
  }

  lemma {:induction false} UnsignedParts(name: string, rest: string)
    requires Shaped(name, rest)
    ensures |Unsigned(name[..4])| == 4 && Unsigned(name) == Unsigned(name[..4]) + "_" + rest
    ensures Unsigned(name)[..4] == Unsigned(name[..4]) && Unsigned(name)[5..] == rest
  {
    if Signed(name) {
      assert "0" + name[1..] == "0" + name[..4][1..] + "_" + rest;
    }
  }

  lemma {:induction false} UnsignedDecides(a: string, ra: string, b: string, rb: string)
    requires Shaped(a, ra) && Shaped(b, rb)
    ensures Unsigned(a) == Unsigned(b) <==> Unsigned(a[..4]) == Unsigned(b[..4]) && ra == rb
  {
    hide Unsigned;
    UnsignedParts(a, ra);
    UnsignedParts(b, rb);
  }

  lemma {:induction false} VersionDecides(a: string, b: string)
    requires |a| == 4 && ParseInt64(a).Some? && 1 <= ParseInt64(a).value
    requires |b| == 4 && ParseInt64(b).Some? && 1 <= ParseInt64(b).value
    ensures ParseInt64(a) == ParseInt64(b) <==> Unsigned(a) == Unsigned(b)
  {
    PrefixValue(a);
    PrefixValue(b);
    assert |Unsigned(a)| == |Unsigned(b)| == 4;
    DigitsDecide(Unsigned(a), Unsigned(b));
    hide ParseInt64, Unsigned, DigitsValue, IsDigits;
  }

  /** Two file names say the same exactly when they differ at most in a plus sign for a
      leading zero. So without plus signs no two files of a directory say the same. */
  lemma {:induction false} SameLabel(a: string, b: string)
    requires ParseName(a).Some? && ParseName(b).Some?
    ensures ParseName(a) == ParseName(b) <==> Unsigned(a) == Unsigned(b)
  {
    var la, lb := ParseName(a).value, ParseName(b).value;
    ParsedShape(a);
    ParsedShape(b);
    hide ParseName, ParseInt64, Suffix, Unsigned, Shaped;
    UnsignedDecides(a, la.name + Suffix(la.isUp), b, lb.name + Suffix(lb.isUp));
    VersionDecides(a[..4], b[..4]);
    SuffixDecides(la.name, la.isUp, lb.name, lb.isUp);
  }

  // ---- Names printed for messages ----

  function ZeroPad(s: string, width: nat): string {
    if |s| < width then "0" + ZeroPad(s, width - 1) else s
  }

  function Filename(m: Migration): string
    requires 0 <= m.version
  {
    ZeroPad(FormatNat(m.version), 4) + "_" + m.name + UP_SUFFIX
  }

  lemma {:induction false} PadRestores(p: string)
    requires IsDigits(p)
    ensures 0 <= DigitsValue(p) && ZeroPad(FormatNat(DigitsValue(p)), |p|) == p
    decreases |p|
  {
    if |p| > 1 && p[0] == '0' {
      assert p == "0" + p[1..];
      ZeroInFront(p[1..]);
      PadRestores(p[1..]);
      FormatNatFits(p[1..]);
    } else {
      CanonicalDigits(p);
    }
  }

  lemma {:induction false} FormatNatFits(p: string)
    requires IsDigits(p)
    ensures 0 <= DigitsValue(p) && |FormatNat(DigitsValue(p))| <= |p|
    decreases |p|
  {
    if |p| > 1 && p[0] == '0' {
      assert p == "0" + p[1..];
      ZeroInFront(p[1..]);
      FormatNatFits(p[1..]);
    } else {
      CanonicalDigits(p);
    }
  }

  /** The name printed for a migration is its up file's name, with a zero for a plus sign. */
  lemma {:induction false} FilenameRestores(name: string, m: Migration)
    requires ParseName(name) == Some(Label(m.version, m.name, true))
    ensures 1 <= m.version && Filename(m) == Unsigned(name)
  {
    ParsedShape(name);
    PrefixValue(name[..4]);
    assert |Unsigned(name[..4])| == 4;
    PadRestores(Unsigned(name[..4]));
    UnsignedParts(name, m.name + UP_SUFFIX);
  }

  // ---- Reading a directory ----

  predicate IsSql(e: Entry) {
    HasSuffix(e.name, ".sql")
  }

  predicate GoodEntry(e: Entry) {
    !e.isDir && (IsSql(e) ==> ParseName(e.name).Some? && e.body.Some? && TrimSpace(e.body.value) != "")
  }

  predicate Holds(e: Entry, version: int, isUp: bool) {
    && IsSql(e) && GoodEntry(e)
    && ParseName(e.name).value.version == version && ParseName(e.name).value.isUp == isUp
  }

  /** The last file for a version and direction, in directory order. */
  function Last(entries: seq<Entry>, version: int, isUp: bool): (r: Option<Entry>)
    ensures r.Some? ==> Holds(r.value, version, isUp) && r.value in entries
  {
    if entries == [] then None
    else if Holds(entries[|entries| - 1], version, isUp) then Some(entries[|entries| - 1])
    else Last(entries[..|entries| - 1], version, isUp)
  }

  predicate AllGood(entries: seq<Entry>) {
    forall i | 0 <= i < |entries| :: GoodEntry(entries[i])
  }

  predicate SameName(a: Entry, b: Entry) {
    IsSql(a) && IsSql(b) && GoodEntry(a) && GoodEntry(b)
    && ParseName(a.name).value.version == ParseName(b.name).value.version
    ==> ParseName(a.name).value.name == ParseName(b.name).value.name
  }

  predicate NamesAgree(entries: seq<Entry>) {
    forall i, j | 0 <= i < |entries| && 0 <= j < |entries| :: SameName(entries[i], entries[j])
  }

  /** Flat, every .sql file named, readable and not blank, one name per version, an up file
      exactly where there is a down file, and no version missing below another. */
  ghost predicate WellFormed(entries: seq<Entry>) {
    && AllGood(entries) && NamesAgree(entries)
    && (forall v :: Last(entries, v, true).Some? <==> Last(entries, v, false).Some?)
    && (forall v | 1 < v && Last(entries, v, true).Some? :: Last(entries, v - 1, true).Some?)
  }

  function Name(e: Entry): string
    requires IsSql(e) && GoodEntry(e)
  {
    ParseName(e.name).value.name
  }

  function Body(e: Entry): string
    requires IsSql(e) && GoodEntry(e)
  {
    e.body.value
  }

  /** The up half of the migration that a file starts. */
  function UpHalf(e: Entry, version: int): Migration
    requires IsSql(e) && GoodEntry(e)
  {
    Migration(version, Name(e), Body(e), "")
  }

  /** The migration a directory holds for a version with both files. */
  ghost predicate Describes(entries: seq<Entry>, m: Migration) {
    var up, down := Last(entries, m.version, true), Last(entries, m.version, false);
    up.Some? && down.Some? && m == UpHalf(up.value, m.version).(down := Body(down.value))
  }

  // ---- The loop over the entries ----

  /** The three maps after reading some entries. */
  ghost predicate Read(entries: seq<Entry>, ups: map<int, Migration>, downs: map<int, string>,
                       names: map<int, string>) {
    && AllGood(entries) && NamesAgree(entries)
    && Named(entries, names) && HoldsUps(entries, ups) && HoldsDowns(entries, downs)
  }

  predicate NamedIn(e: Entry, names: map<int, string>) {
    IsSql(e) && GoodEntry(e) ==>
      var l := ParseName(e.name).value;
      l.version in names && names[l.version] == l.name
  }

  ghost predicate Named(entries: seq<Entry>, names: map<int, string>) {
    && (forall i | 0 <= i < |entries| :: NamedIn(entries[i], names))
    && (forall v | v in names :: Last(entries, v, true).Some? || Last(entries, v, false).Some?)
  }

  ghost predicate HoldsUps(entries: seq<Entry>, ups: map<int, Migration>) {
    forall v :: if Last(entries, v, true).Some? then v in ups && ups[v] == UpHalf(Last(entries, v, true).value, v)
        else v !in ups
  }

  ghost predicate HoldsDowns(entries: seq<Entry>, downs: map<int, string>) {
    forall v :: if Last(entries, v, false).Some? then v in downs && downs[v] == Body(Last(entries, v, false).value)
        else v !in downs
  }

  lemma {:induction false} LastExtend(entries: seq<Entry>, e: Entry, version: int, isUp: bool)
    ensures Last(entries + [e], version, isUp) ==
              if Holds(e, version, isUp) then Some(e) else Last(entries, version, isUp)
  {
    assert (entries + [e])[..|entries|] == entries;
  }

  lemma {:induction false} GoodExtend(entries: seq<Entry>, e: Entry)
    requires AllGood(entries) && GoodEntry(e)
    ensures AllGood(entries + [e])
  {
    hide GoodEntry;
  }

  /** An entry that is no migration file leaves the maps right. */
  lemma {:induction false} ReadOther(entries: seq<Entry>, e: Entry, ups: map<int, Migration>,
                                     downs: map<int, string>, names: map<int, string>)
    requires Read(entries, ups, downs, names) && GoodEntry(e) && !IsSql(e)
    ensures Read(entries + [e], ups, downs, names)
  {
    GoodExtend(entries, e);
    assert forall v, isUp :: !Holds(e, v, isUp);
    assert forall x: Entry :: SameName(x, e) && SameName(e, x);
    assert NamedIn(e, names);
    hide GoodEntry, IsSql, ParseName, UpHalf, Body, Last, NamedIn, SameName, Holds, AllGood;
    forall v, isUp
      ensures Last(entries + [e], v, isUp) == Last(entries, v, isUp)
    {
      LastExtend(entries, e, v, isUp);
    }
  }

  lemma {:induction false} Clashes(entries: seq<Entry>, i: nat, j: nat)
    requires i < |entries| && j < |entries| && !SameName(entries[i], entries[j])
    ensures !NamesAgree(entries)
  {
    hide SameName;
  }

  lemma {:induction false} NameClash(entries: seq<Entry>, e: Entry, names: map<int, string>)
    requires AllGood(entries) && Named(entries, names) && GoodEntry(e) && IsSql(e)
    requires var l := ParseName(e.name).value; l.version in names && names[l.version] != l.name
    ensures !NamesAgree(entries + [e])
  {
    var v := ParseName(e.name).value.version;
    hide ParseName, GoodEntry, IsSql, Last;
    var isUp := Last(entries, v, true).Some?;
    var other := Last(entries, v, isUp).value;
    var i :| 0 <= i < |entries| && entries[i] == other;
    assert NamedIn(entries[i], names);
    Clashes(entries + [e], i, |entries|);
  }

  lemma {:induction false} NamesStillAgree(entries: seq<Entry>, e: Entry, names: map<int, string>)
    requires AllGood(entries) && NamesAgree(entries) && Named(entries, names) && GoodEntry(e) && IsSql(e)
    requires var l := ParseName(e.name).value; l.version in names ==> names[l.version] == l.name
    ensures NamesAgree(entries + [e])
  {
    hide ParseName, Last, GoodEntry, IsSql;
    forall i | 0 <= i < |entries|
      ensures SameName(entries[i], e) && SameName(e, entries[i])
    {
      assert NamedIn(entries[i], names);
    }
    hide SameName;
  }

  lemma {:induction false} LastFile(entries: seq<Entry>, e: Entry, version: int, isUp: bool)
    requires Holds(e, version, isUp)
    ensures forall v, u :: Last(entries + [e], v, u) ==
              if v == version && u == isUp then Some(e) else Last(entries, v, u)
  {
    forall v, u
      ensures Last(entries + [e], v, u) == if v == version && u == isUp then Some(e) else Last(entries, v, u)
    {
      LastExtend(entries, e, v, u);
    }
  }

  lemma {:induction false} StillNamed(entries: seq<Entry>, e: Entry, names: map<int, string>)
    requires AllGood(entries) && Named(entries, names) && GoodEntry(e) && IsSql(e)
    requires var l := ParseName(e.name).value; l.version in names ==> names[l.version] == l.name
    ensures var l := ParseName(e.name).value; Named(entries + [e], names[l.version := l.name])
  {
    var l := ParseName(e.name).value;
    var names' := names[l.version := l.name];
    LastFile(entries, e, l.version, l.isUp);
    hide ParseName, Last, GoodEntry, IsSql, Holds;
    forall i | 0 <= i < |entries + [e]|
      ensures NamedIn((entries + [e])[i], names')
    {
      assert i < |entries| ==> NamedIn(entries[i], names);
    }
    hide NamedIn;
  }

  lemma {:induction false} UpJoins(entries: seq<Entry>, e: Entry, ups: map<int, Migration>, downs: map<int, string>,
                                   version: int)
    requires HoldsUps(entries, ups) && HoldsDowns(entries, downs) && Holds(e, version, true)
    ensures HoldsUps(entries + [e], ups[version := UpHalf(e, version)]) && HoldsDowns(entries + [e], downs)
  {
    LastFile(entries, e, version, true);
    hide Last, UpHalf, Body, Holds;
  }

  lemma {:induction false} DownJoins(entries: seq<Entry>, e: Entry, ups: map<int, Migration>,
                                     downs: map<int, string>, version: int)
    requires HoldsUps(entries, ups) && HoldsDowns(entries, downs) && Holds(e, version, false)
    ensures HoldsUps(entries + [e], ups) && HoldsDowns(entries + [e], downs[version := Body(e)])
  {
    LastFile(entries, e, version, false);
    hide Last, UpHalf, Body, Holds;
  }

  /** A file whose version is free, or taken under the same name, joins its map. */
  lemma {:induction false} ReadFile(entries: seq<Entry>, e: Entry, ups: map<int, Migration>, downs: map<int, string>,
                                    names: map<int, string>)
    requires Read(entries, ups, downs, names) && GoodEntry(e) && IsSql(e)
    ensures var l := ParseName(e.name).value;
            if l.version in names && names[l.version] != l.name then !NamesAgree(entries + [e])
            else if l.isUp then Read(entries + [e], ups[l.version := UpHalf(e, l.version)], downs,
                                     names[l.version := l.name])
            else Read(entries + [e], ups, downs[l.version := Body(e)], names[l.version := l.name])
  {
    var l := ParseName(e.name).value;
    assert Holds(e, l.version, l.isUp);
    hide AllGood, NamesAgree, Named, HoldsUps, HoldsDowns, GoodEntry, IsSql, ParseName, UpHalf, Body, Holds;
    if l.version in names && names[l.version] != l.name {
      NameClash(entries, e, names);
    } else {
      GoodExtend(entries, e);
      NamesStillAgree(entries, e, names);
      StillNamed(entries, e, names);
      if l.isUp {
        UpJoins(entries, e, ups, downs, l.version);
      } else {
        DownJoins(entries, e, ups, downs, l.version);
      }
    }
  }

  // ---- Collecting and checking the migrations ----

  predicate Ascending(ms: seq<Migration>) {
    forall i, j | 0 <= i < j < |ms| :: ms[i].version < ms[j].version
  }

  function Insert(ms: seq<Migration>, m: Migration): seq<Migration> {
    if ms == [] || ms[|ms| - 1].version < m.version then ms + [m]
    else Insert(ms[..|ms| - 1], m) + [ms[|ms| - 1]]
  }

  function SortByVersion(ms: seq<Migration>): seq<Migration> {
    if ms == [] then [] else Insert(SortByVersion(ms[..|ms| - 1]), ms[|ms| - 1])
  }

  lemma {:induction false} InsertMembers(ms: seq<Migration>, m: Migration)
    ensures forall x :: x in Insert(ms, m) <==> x in ms || x == m
  {
    if ms != [] && m.version <= ms[|ms| - 1].version {
      var init, last := ms[..|ms| - 1], ms[|ms| - 1];
      InsertMembers(init, m);
      assert ms == init + [last];
    }
  }

  lemma AscendingExtends(ms: seq<Migration>, m: Migration)
    requires Ascending(ms) && forall i | 0 <= i < |ms| :: ms[i].version < m.version
    ensures Ascending(ms + [m])
  {
  }

  lemma {:induction false} InsertKeeps(ms: seq<Migration>, m: Migration)
    requires Ascending(ms) && forall x | x in ms :: x.version != m.version
    ensures Ascending(Insert(ms, m))
    ensures forall x :: x in Insert(ms, m) <==> x in ms || x == m
  {
    InsertMembers(ms, m);
    if ms == [] || ms[|ms| - 1].version < m.version {
      AscendingExtends(ms, m);
    } else {
      var init, last := ms[..|ms| - 1], ms[|ms| - 1];
      assert last in ms && forall i | 0 <= i < |init| :: init[i] == ms[i] && init[i] in ms;
      InsertKeeps(init, m);
      var more := Insert(init, m);
      forall i | 0 <= i < |more|
        ensures more[i].version < last.version
      {
        assert more[i] in more;
      }
      AscendingExtends(more, last);
    }
  }

  function VersionsOf(ms: seq<Migration>): set<int> {
    set i | 0 <= i < |ms| :: ms[i].version
  }

  /** Every version above 1 has the version below it. */
  predicate Dense(versions: set<int>) {
    forall v | v in versions && 1 < v :: v - 1 in versions
  }

  /** In ascending order, versions from 1 up without a hole are contiguous, and only they are. */
  lemma {:induction false} ContiguousWhenDense(ms: seq<Migration>)
    requires Ascending(ms) && forall i | 0 <= i < |ms| :: 1 <= ms[i].version
    ensures Contiguous(ms) <==> Dense(VersionsOf(ms))
  {
    if Dense(VersionsOf(ms)) {
      DenseIsContiguous(ms, |ms|);
    }
    if Contiguous(ms) {
      forall v | v in VersionsOf(ms) && 1 < v
        ensures v - 1 in VersionsOf(ms)
      {
        assert ms[v - 2].version == v - 1;
      }
    }
  }

  lemma {:induction false} DenseIsContiguous(ms: seq<Migration>, n: nat)
    requires Ascending(ms) && n <= |ms| && forall i | 0 <= i < |ms| :: 1 <= ms[i].version
    requires Dense(VersionsOf(ms))
    ensures forall i | 0 <= i < n :: ms[i].version == i + 1
  {
    if n > 0 {
      DenseIsContiguous(ms, n - 1);
      var v := ms[n - 1].version;
      assert v in VersionsOf(ms);
      if 1 < v {
        assert v - 1 in VersionsOf(ms);
        var j :| 0 <= j < |ms| && ms[j].version == v - 1;
        assert j < n - 1;
      }
      hide VersionsOf, Dense;
      assert n > 1 ==> ms[n - 2].version == n - 1 && ms[n - 2].version < v;
    }
  }

  /** The accepted directories, seen from the maps. */
  lemma {:induction false} MapsDecide(entries: seq<Entry>, ups: map<int, Migration>, downs: map<int, string>,
                                      names: map<int, string>)
    requires Read(entries, ups, downs, names)
    ensures WellFormed(entries) <==> ups.Keys == downs.Keys && Dense(ups.Keys)
    ensures forall v :: v in ups <==> Last(entries, v, true).Some?
  {
    hide AllGood, NamesAgree, Named, Last, UpHalf, Body;
    assert forall v :: v in ups <==> Last(entries, v, true).Some?;
    assert forall v :: v in downs <==> Last(entries, v, false).Some?;
    if WellFormed(entries) {
      assert forall v :: v in ups.Keys <==> v in downs.Keys;
    }
    if ups.Keys == downs.Keys && Dense(ups.Keys) {
      assert forall v :: v in ups <==> v in ups.Keys;
      assert forall v :: v in downs <==> v in ups.Keys;
    }
  }

  lemma {:induction false} BadPrefix(entries: seq<Entry>, k: nat)
    requires k < |entries| && (!GoodEntry(entries[k]) || !NamesAgree(entries[..k + 1]))
    ensures !WellFormed(entries)
  {
    hide GoodEntry, Last;
    if !NamesAgree(entries[..k + 1]) {
      var i, j :| 0 <= i <= k && 0 <= j <= k && !SameName(entries[..k + 1][i], entries[..k + 1][j]);
      Clashes(entries, i, j);
    }
  }

  /** The whole migration for a version that both maps hold. */
  predicate Complete(ups: map<int, Migration>, downs: map<int, string>, m: Migration) {
    m.version in ups && m.version in downs && m == ups[m.version].(down := downs[m.version])
  }

  /** What sorting the migrations collected so far gives. */
  ghost predicate Collected(ups: map<int, Migration>, downs: map<int, string>, seen: set<int>, out: seq<Migration>) {
    && Ascending(SortByVersion(out))
    && (forall m | m in SortByVersion(out) :: Complete(ups, downs, m) && m.version in seen)
    && (forall v | v in seen :: exists m :: m in SortByVersion(out) && m.version == v)
  }

  lemma {:induction false} CollectNext(ups: map<int, Migration>, downs: map<int, string>, seen: set<int>,
                                       out: seq<Migration>, m: Migration)
    requires Collected(ups, downs, seen, out) && Complete(ups, downs, m) && m.version !in seen
    ensures Collected(ups, downs, seen + {m.version}, out + [m])
  {
    hide SortByVersion, Insert, Ascending;
    SortAppend(out, m);
    InsertKeeps(SortByVersion(out), m);
    var sorted := SortByVersion(out + [m]);
    forall v | v in seen + {m.version}
      ensures exists x :: x in sorted && x.version == v
    {
      if v == m.version {
        assert m in sorted;
      } else {
        var x :| x in SortByVersion(out) && x.version == v;
        assert x in sorted;
      }
    }
  }

  lemma {:induction false} SortAppend(out: seq<Migration>, m: Migration)
    ensures SortByVersion(out + [m]) == Insert(SortByVersion(out), m)
  {
    assert (out + [m])[..|out|] == out;
  }

  lemma {:induction false} CollectedVersions(ups: map<int, Migration>, downs: map<int, string>, out: seq<Migration>)
    requires Collected(ups, downs, ups.Keys, out)
    ensures Ascending(SortByVersion(out)) && VersionsOf(SortByVersion(out)) == ups.Keys
    ensures forall i | 0 <= i < |SortByVersion(out)| :: Complete(ups, downs, SortByVersion(out)[i])
  {
    hide Ascending, SortByVersion, Complete;
    var sorted := SortByVersion(out);
    forall v | v in ups.Keys
      ensures v in VersionsOf(sorted)
    {
      var m :| m in sorted && m.version == v;
      var i :| 0 <= i < |sorted| && sorted[i] == m;
    }
    assert forall i | 0 <= i < |sorted| :: sorted[i] in sorted;
  }

  lemma {:induction false} VersionsArePositive(entries: seq<Entry>, ups: map<int, Migration>)
    requires HoldsUps(entries, ups)
    ensures forall v | v in ups :: 1 <= v && ups[v].version == v
  {
    forall v | v in ups
      ensures 1 <= v && ups[v].version == v
    {
      assert Last(entries, v, true).Some?;
      var e := Last(entries, v, true).value;
      hide Last;
      assert Holds(e, v, true);
    }
  }

  lemma {:induction false} CompleteDescribes(entries: seq<Entry>, ups: map<int, Migration>, downs: map<int, string>,
                                             m: Migration)
    requires HoldsUps(entries, ups) && HoldsDowns(entries, downs) && Complete(ups, downs, m)
    ensures Describes(entries, m)
  {
    hide Last, UpHalf, Body;
    assert Last(entries, m.version, true).Some? && Last(entries, m.version, false).Some?;
  }

  lemma {:induction false} CompletePositive(ups: map<int, Migration>, downs: map<int, string>, ms: seq<Migration>)
    requires (forall v | v in ups :: 1 <= v) && forall i | 0 <= i < |ms| :: Complete(ups, downs, ms[i])
    ensures forall i | 0 <= i < |ms| :: 1 <= ms[i].version
  {
  }

  lemma {:induction false} ContiguousVersions(ms: seq<Migration>)
    requires Contiguous(ms)
    ensures forall v | v in VersionsOf(ms) :: 1 <= v <= |ms|
  {
  }

  lemma {:induction false} NothingCollected(ups: map<int, Migration>, downs: map<int, string>)
    ensures Collected(ups, downs, {}, [])
  {
  }

  lemma {:induction false} ReadParts(entries: seq<Entry>, ups: map<int, Migration>, downs: map<int, string>,
                                     names: map<int, string>)
    requires Read(entries, ups, downs, names)
    ensures HoldsUps(entries, ups) && HoldsDowns(entries, downs)
  {
  }

  // ---- What a rejection says ----

  datatype LoadError =
    | Subdirectory(at: nat) | BadName(at: nat) | NoBody(at: nat) | Blank(at: nat) | Renamed(at: nat)
    | NoDown(version: int) | NoUp(version: int) | Jump(found: int, wanted: int)

  predicate ReadUpTo(entries: seq<Entry>, k: nat) {
    k < |entries| && AllGood(entries[..k]) && NamesAgree(entries[..k])
  }

  /** The fault an error names is there, and everything checked before it was right. Among
      several versions without a partner any one is named. */
  ghost predicate Reports(entries: seq<Entry>, e: LoadError) {
    match e
    case Subdirectory(k) => ReadUpTo(entries, k) && entries[k].isDir
    case BadName(k) =>
      && ReadUpTo(entries, k) && !entries[k].isDir && IsSql(entries[k]) && ParseName(entries[k].name).None?
    case NoBody(k) =>
      && ReadUpTo(entries, k) && !entries[k].isDir && IsSql(entries[k]) && ParseName(entries[k].name).Some?
      && entries[k].body.None?
    case Blank(k) =>
      && ReadUpTo(entries, k) && !entries[k].isDir && IsSql(entries[k]) && ParseName(entries[k].name).Some?
      && entries[k].body.Some? && TrimSpace(entries[k].body.value) == ""
    case Renamed(k) => ReadUpTo(entries, k) && GoodEntry(entries[k]) && !NamesAgree(entries[..k + 1])
    case NoDown(v) =>
      && AllGood(entries) && NamesAgree(entries) && Last(entries, v, true).Some? && Last(entries, v, false).None?
    case NoUp(v) =>
      && AllGood(entries) && NamesAgree(entries) && Last(entries, v, false).Some? && Last(entries, v, true).None?
      && (forall u :: Last(entries, u, true).Some? ==> Last(entries, u, false).Some?)
    case Jump(found, wanted) =>
      && AllGood(entries) && NamesAgree(entries)
      && (forall u :: Last(entries, u, true).Some? <==> Last(entries, u, false).Some?)
      && Last(entries, found, true).Some? && 1 <= wanted < found
      && (forall u | 1 <= u < found :: Last(entries, u, true).Some? <==> u < wanted)
  }

  lemma {:induction false} ReportsBadEntry(entries: seq<Entry>, k: nat, e: LoadError)
    requires k < |entries| && AllGood(entries[..k]) && NamesAgree(entries[..k])
    requires
      var x := entries[k];
      if x.isDir then e == Subdirectory(k)
      else
        && IsSql(x)
        && (ParseName(x.name).None? ==> e == BadName(k))
        && (ParseName(x.name).Some? && x.body.None? ==> e == NoBody(k))
        && (ParseName(x.name).Some? && x.body.Some? ==> e == Blank(k) && TrimSpace(x.body.value) == "")
    ensures Reports(entries, e) && !WellFormed(entries)
  {
    BadPrefix(entries, k);
    hide AllGood, NamesAgree, ParseName, TrimSpace, WellFormed;
  }

  lemma {:induction false} ReportsRenamed(entries: seq<Entry>, k: nat)
    requires k < |entries| && AllGood(entries[..k]) && NamesAgree(entries[..k]) && GoodEntry(entries[k])
    requires !NamesAgree(entries[..k + 1])
    ensures Reports(entries, Renamed(k)) && !WellFormed(entries)
  {
    BadPrefix(entries, k);
    hide AllGood, NamesAgree, GoodEntry, WellFormed;
  }

  lemma {:induction false} ReportsUnpaired(entries: seq<Entry>, ups: map<int, Migration>, downs: map<int, string>,
                                           names: map<int, string>)
    requires Read(entries, ups, downs, names)
    ensures forall v | v in ups && v !in downs :: Reports(entries, NoDown(v))
    ensures ups.Keys <= downs.Keys ==> forall v | v in downs && v !in ups :: Reports(entries, NoUp(v))
  {
    hide AllGood, NamesAgree, Named, Last, UpHalf, Body;
    assert forall v :: v in ups <==> Last(entries, v, true).Some?;
    assert forall v :: v in downs <==> Last(entries, v, false).Some?;
    if ups.Keys <= downs.Keys {
      assert forall v :: v in ups ==> v in downs.Keys;
    }
  }

  lemma {:induction false} ReportsJump(entries: seq<Entry>, ups: map<int, Migration>, downs: map<int, string>,
                                       names: map<int, string>,
                                       ms: seq<Migration>, at: nat)
    requires Read(entries, ups, downs, names) && ups.Keys == downs.Keys
    requires Ascending(ms) && VersionsOf(ms) == ups.Keys && forall i | 0 <= i < |ms| :: 1 <= ms[i].version
    requires at < |ms| && ms[at].version != at + 1 && forall i | 0 <= i < at :: ms[i].version == i + 1
    ensures Reports(entries, Jump(ms[at].version, at + 1))
  {
    hide *;
    JumpVersions(ms, at);
    ReadIsGood(entries, ups, downs, names);
    UpsAreLast(entries, ups, downs, names);
    JumpReported(entries, VersionsOf(ms), ms[at].version, at + 1);
  }

  lemma {:induction false} JumpReported(entries: seq<Entry>, versions: set<int>, found: int, wanted: int)
    requires AllGood(entries) && NamesAgree(entries)
    requires forall v :: v in versions <==> Last(entries, v, true).Some?
    requires forall v :: v in versions <==> Last(entries, v, false).Some?
    requires found in versions && 1 <= wanted < found && forall u | 1 <= u < found :: u in versions <==> u < wanted
    ensures Reports(entries, Jump(found, wanted))
  {
    hide AllGood, NamesAgree, Last;
  }

  lemma {:induction false} JumpVersions(ms: seq<Migration>, at: nat)
    requires Ascending(ms) && forall i | 0 <= i < |ms| :: 1 <= ms[i].version
    requires at < |ms| && ms[at].version != at + 1 && forall i | 0 <= i < at :: ms[i].version == i + 1
    ensures var found := ms[at].version;
            && found in VersionsOf(ms) && at + 1 < found
            && forall u | 1 <= u < found :: u in VersionsOf(ms) <==> u < at + 1
  {
    var found := ms[at].version;
    assert at > 0 ==> ms[at - 1].version < found;
    forall u | 1 <= u < found
      ensures u in VersionsOf(ms) <==> u < at + 1
    {
      assert u < at + 1 ==> ms[u - 1].version == u;
      forall i | 0 <= i < |ms| && ms[i].version == u
        ensures i < at
      {
      }
    }
  }

  lemma {:induction false} UpsAreLast(entries: seq<Entry>, ups: map<int, Migration>, downs: map<int, string>,
                                      names: map<int, string>)
    requires Read(entries, ups, downs, names) && ups.Keys == downs.Keys
    ensures forall v :: v in ups.Keys <==> Last(entries, v, true).Some?
    ensures forall v :: v in ups.Keys <==> Last(entries, v, false).Some?
  {
    hide Last, UpHalf, Body;
    assert forall v :: v in ups <==> v in ups.Keys;
    assert forall v :: v in downs <==> v in ups.Keys;
  }

  // ---- Reading a directory, step by step ----

  method ReadEntries(entries: seq<Entry>)
    returns (error: Option<LoadError>, ups: map<int, Migration>, downs: map<int, string>, ghost names: map<int, string>)
    ensures error.None? ==> Read(entries, ups, downs, names)
    ensures error.Some? ==> Reports(entries, error.value) && !WellFormed(entries)
  {
    ups, downs := map[], map[];
    var labels: map<int, string> := map[];
    assert entries[..0] == [];
    for k := 0 to |entries|
      invariant Read(entries[..k], ups, downs, labels)
    {
      var e := entries[k];
      assert entries[..k] + [e] == entries[..k + 1];
      ReadIsGood(entries[..k], ups, downs, labels);
      hide Read, NamesAgree, AllGood, WellFormed, ParseName, TrimSpace, HasSuffix, UpHalf, Body, Reports;
      if e.isDir {
        ReportsBadEntry(entries, k, Subdirectory(k));
        return Some(Subdirectory(k)), ups, downs, labels;
      }
      if !HasSuffix(e.name, ".sql") {
        ReadOther(entries[..k], e, ups, downs, labels);
        continue;
      }
      var parsed := ParseName(e.name);
      if parsed.None? {
        ReportsBadEntry(entries, k, BadName(k));
        return Some(BadName(k)), ups, downs, labels;
      }
      if e.body.None? {
        ReportsBadEntry(entries, k, NoBody(k));
        return Some(NoBody(k)), ups, downs, labels;
      }
      if TrimSpace(e.body.value) == "" {
        ReportsBadEntry(entries, k, Blank(k));
        return Some(Blank(k)), ups, downs, labels;
      }
      ReadFile(entries[..k], e, ups, downs, labels);
      var l := parsed.value;
      if l.version in labels && labels[l.version] != l.name {
        ReportsRenamed(entries, k);
        return Some(Renamed(k)), ups, downs, labels;
      }
      labels := labels[l.version := l.name];
      if l.isUp {
        ups := ups[l.version := UpHalf(e, l.version)];
        continue;
      }
      downs := downs[l.version := Body(e)];
    }
    assert entries[..|entries|] == entries;
    return None, ups, downs, labels;
  }

  lemma {:induction false} ReadIsGood(entries: seq<Entry>, ups: map<int, Migration>, downs: map<int, string>,
                                      names: map<int, string>)
    requires Read(entries, ups, downs, names)
    ensures AllGood(entries) && NamesAgree(entries)
  {
  }

  /** Pairs every up file with its down file, in no particular order, or names one without. */
  method Collect(ups: map<int, Migration>, downs: map<int, string>) returns (missing: Option<int>, out: seq<Migration>)
    requires forall v | v in ups :: ups[v].version == v
    ensures missing.None? <==> ups.Keys <= downs.Keys
    ensures missing.None? ==> Collected(ups, downs, ups.Keys, out)
    ensures missing.Some? ==> missing.value in ups && missing.value !in downs
  {
    hide Collected;
    out := [];
    var pending := ups.Keys;
    NothingCollected(ups, downs);
    assert ups.Keys - pending == {};
    while pending != {}
      invariant pending <= ups.Keys
      invariant forall v | v in ups && v !in pending :: v in downs
      invariant Collected(ups, downs, ups.Keys - pending, out)
      decreases |pending|
    {
      assert (forall v: int :: v !in pending) ==> pending == {};
      var version: int :| version in pending;
      if version !in downs {
        return Some(version), out;
      }
      var m := ups[version].(down := downs[version]);
      CollectNext(ups, downs, ups.Keys - pending, out, m);
      assert ups.Keys - pending + {version} == ups.Keys - (pending - {version});
      out := out + [m];
      pending := pending - {version};
    }
    assert ups.Keys - {} == ups.Keys;
    assert forall v | v in ups.Keys :: v in downs.Keys;
    return None, out;
  }

  method AllPaired(downs: map<int, string>, ups: map<int, Migration>) returns (missing: Option<int>)
    ensures missing.None? <==> downs.Keys <= ups.Keys
    ensures missing.Some? ==> missing.value in downs && missing.value !in ups
  {
    var pending := downs.Keys;
    while pending != {}
      invariant pending <= downs.Keys
      invariant forall v | v in downs && v !in pending :: v in ups
      decreases |pending|
    {
      assert (forall v: int :: v !in pending) ==> pending == {};
      var version: int :| version in pending;
      if version !in ups {
        return Some(version);
      }
      pending := pending - {version};
    }
    assert forall v | v in downs.Keys :: v in ups.Keys;
    return None;
  }

  /** The first place where a version is not the one expected. */
  method RequireContiguous(ms: seq<Migration>) returns (at: Option<nat>)
    ensures at.None? <==> Contiguous(ms)
    ensures at.Some? ==> at.value < |ms| && ms[at.value].version != at.value + 1
    ensures at.Some? ==> forall k | 0 <= k < at.value :: ms[k].version == k + 1
  {
    for i := 0 to |ms|
      invariant forall k | 0 <= k < i :: ms[k].version == k + 1
    {
      if ms[i].version != i + 1 {
        return Some(i);
      }
    }
    return None;
  }

  /** Accepts exactly the well-formed directories, and returns their migrations 1..n in
      order, each put together from the last file of its version and direction; for any
      other directory it names a fault that is there. */
  method Parse(entries: seq<Entry>) returns (r: Result<seq<Migration>, LoadError>)
    ensures r.Ok? <==> WellFormed(entries)
    ensures r.Ok? ==> Contiguous(r.value) && forall i | 0 <= i < |r.value| :: Describes(entries, r.value[i])
    ensures r.Ok? ==> forall v | Last(entries, v, true).Some? :: 1 <= v <= |r.value|
    ensures r.Err? ==> Reports(entries, r.error)
  {
    hide Read, WellFormed, Dense, Last, Describes, UpHalf, Body, Complete, Collected, SortByVersion, Ascending,
        HoldsUps, HoldsDowns, Contiguous, VersionsOf, Reports;
    var error, ups, downs, names := ReadEntries(entries);
    if error.Some? {
      return Err(error.value);
    }
    ReadParts(entries, ups, downs, names);
    MapsDecide(entries, ups, downs, names);
    VersionsArePositive(entries, ups);
    ReportsUnpaired(entries, ups, downs, names);
    var noDown, out := Collect(ups, downs);
    if noDown.Some? {
      return Err(NoDown(noDown.value));
    }
    var noUp := AllPaired(downs, ups);
    if noUp.Some? {
      return Err(NoUp(noUp.value));
    }
    CollectedVersions(ups, downs, out);
    out := SortByVersion(out);
    CompletePositive(ups, downs, out);
    ContiguousWhenDense(out);
    var at := RequireContiguous(out);
    if at.Some? {
      ReportsJump(entries, ups, downs, names, out, at.value);
      return Err(Jump(out[at.value].version, at.value + 1));
    }
    forall i | 0 <= i < |out|
      ensures Describes(entries, out[i])
    {
      CompleteDescribes(entries, ups, downs, out[i]);
    }
    ContiguousVersions(out);
    return Ok(out);
  }

  // ---- Files that are read and then ignored ----

  predicate DistinctNames(entries: seq<Entry>) {
    forall i, j | 0 <= i < j < |entries| :: entries[i].name != entries[j].name
  }

  /** The file is the one its migration was made of. */
  predicate Used(entries: seq<Entry>, e: Entry)
    requires IsSql(e) && GoodEntry(e)
  {
    var l := ParseName(e.name).value;
    Last(entries, l.version, l.isUp) == Some(e)
  }

  predicate Twins(entries: seq<Entry>, i: nat, j: nat)
    requires i < |entries| && j < |entries|
  {
    i != j && IsSql(entries[i]) && IsSql(entries[j]) && Unsigned(entries[i].name) == Unsigned(entries[j].name)
  }

  lemma {:induction false} LastCovers(entries: seq<Entry>, i: nat, version: int, isUp: bool)
    requires i < |entries| && Holds(entries[i], version, isUp)
    ensures Last(entries, version, isUp).Some?
  {
    hide Holds;
    if i < |entries| - 1 && !Holds(entries[|entries| - 1], version, isUp) {
      LastCovers(entries[..|entries| - 1], i, version, isUp);
    }
  }

  lemma {:induction false} UsedOrTwin(entries: seq<Entry>, i: nat) returns (j: nat)
    requires WellFormed(entries) && i < |entries| && IsSql(entries[i]) && GoodEntry(entries[i])
    ensures j < |entries| && (if Used(entries, entries[i]) then entries[j] == entries[i] else Twins(entries, i, j))
  {
    var e := entries[i];
    var l := ParseName(e.name).value;
    LastCovers(entries, i, l.version, l.isUp);
    var last := Last(entries, l.version, l.isUp).value;
    j :| 0 <= j < |entries| && entries[j] == last;
    assert SameName(entries[i], entries[j]);
    SameLabel(e.name, last.name);
  }

  /** A well-formed directory uses every migration file exactly when no two file names
      differ only in a plus sign for a leading zero; otherwise one of such a pair is
      read and silently ignored. */
  lemma {:induction false} EveryFileUsed(entries: seq<Entry>)
    requires WellFormed(entries) && DistinctNames(entries)
    ensures (forall i | 0 <= i < |entries| && IsSql(entries[i]) :: Used(entries, entries[i])) <==>
            (forall i, j | 0 <= i < |entries| && 0 <= j < |entries| :: !Twins(entries, i, j))
  {
    hide NamesAgree, IsSql, ParseName, Last, Unsigned, HasSuffix;
    if forall i, j | 0 <= i < |entries| && 0 <= j < |entries| :: !Twins(entries, i, j) {
      forall i | 0 <= i < |entries| && IsSql(entries[i])
        ensures Used(entries, entries[i])
      {
        var j := UsedOrTwin(entries, i);
      }
    }
    if forall i | 0 <= i < |entries| && IsSql(entries[i]) :: Used(entries, entries[i]) {
      forall i, j | 0 <= i < |entries| && 0 <= j < |entries|
        ensures !Twins(entries, i, j)
      {
        TwinsNotBothUsed(entries, i, j);
      }
    }
  }

  lemma {:induction false} TwinsNotBothUsed(entries: seq<Entry>, i: nat, j: nat)
    requires AllGood(entries) && DistinctNames(entries) && i < |entries| && j < |entries|
    ensures Twins(entries, i, j) ==> !Used(entries, entries[i]) || !Used(entries, entries[j])
  {
    var a, b := entries[i], entries[j];
    assert GoodEntry(a) && GoodEntry(b);
    if Twins(entries, i, j) {
      SameLabel(a.name, b.name);
      assert a.name != b.name;
    }
  }

  // ---- A directory with a file that is ignored ----

  lemma {:induction false} StemParses(prefix: string, name: string, isUp: bool, version: int)
    requires |prefix| == 4 && '_' !in prefix && ParseInt64(prefix) == Some(version) && 1 <= version && name != ""
    ensures ParseStem(prefix + "_" + name, isUp) == Some(Label(version, name, isUp))
  {
    var stem := prefix + "_" + name;
    IndexOfUnique(stem, '_', 4);
    assert stem[..4] == prefix && stem[5..] == name;
  }

  /** Every such name parses: the converse of ParsedShape. */
  lemma {:induction false} NameParses(prefix: string, name: string, isUp: bool, version: int)
    requires |prefix| == 4 && '_' !in prefix && ParseInt64(prefix) == Some(version) && 1 <= version && name != ""
    ensures ParseName(prefix + "_" + name + Suffix(isUp)) == Some(Label(version, name, isUp))
  {
    StemParses(prefix, name, isUp, version);
    hide ParseStem, ParseInt64;
    var stem := prefix + "_" + name;
    var file := stem + Suffix(isUp);
    assert file[|stem|..] == Suffix(isUp) && file[..|stem|] == stem;
    if HasSuffix(file, UP_SUFFIX) {
      assert file == TrimSuffix(file, UP_SUFFIX) + Suffix(true);
      SuffixDecides(TrimSuffix(file, UP_SUFFIX), true, stem, isUp);
    }
  }

  lemma {:induction false} PrefixesOfOne()
    ensures ParseInt64("+001") == Some(1) && ParseInt64("0001") == Some(1)
  {
    assert "+001"[1..] == "001";
    assert "001"[..2] == "00" && "00"[..1] == "0" && "0"[..0] == "";
    assert DigitsValue("") == 0 && DigitsValue("0") == 0 && DigitsValue("00") == 0 && DigitsValue("001") == 1;
    assert "0001" == "0" + "001";
    ZeroInFront("001");
  }

  function File(prefix: string, name: string, isUp: bool, body: string): Entry {
    Entry(prefix + "_" + name + Suffix(isUp), false, Some(body))
  }

  function EarlierUp(): Entry {
    File("+001", "x", true, "a")
  }

  function OnlyDown(): Entry {
    File("0001", "x", false, "b")
  }

  function LaterUp(): Entry {
    File("0001", "x", true, "c")
  }

  /** +001_x.up.sql, 0001_x.down.sql and 0001_x.up.sql, as the directory lists them. */
  function TwinDirectory(): seq<Entry> {
    [EarlierUp(), OnlyDown(), LaterUp()]
  }

  lemma {:induction false} TwinNames()
    ensures EarlierUp().name == "+001_x.up.sql" && OnlyDown().name == "0001_x.down.sql"
              && LaterUp().name == "0001_x.up.sql"
    ensures EarlierUp().name != OnlyDown().name && OnlyDown().name != LaterUp().name
              && LaterUp().name != EarlierUp().name
  {
    assert OnlyDown().name[7] != LaterUp().name[7];
  }

  lemma {:induction false} FileIsGood(prefix: string, name: string, isUp: bool, version: int, body: string)
    requires |prefix| == 4 && '_' !in prefix && ParseInt64(prefix) == Some(version) && 1 <= version && name != ""
    requires TrimSpace(body) != ""
    ensures forall v, u :: Holds(File(prefix, name, isUp, body), v, u) <==> v == version && u == isUp
    ensures var e := File(prefix, name, isUp, body);
            IsSql(e) && GoodEntry(e) && ParseName(e.name) == Some(Label(version, name, isUp))
  {
    hide ParseName, ParseInt64, TrimSpace, Suffix, HasSuffix;
    NameParses(prefix, name, isUp, version);
    NamedIsSql(prefix + "_" + name, isUp);
  }

  lemma {:induction false} NamedIsSql(stem: string, isUp: bool)
    ensures HasSuffix(stem + Suffix(isUp), ".sql")
  {
    var suffix := Suffix(isUp);
    var file := stem + suffix;
    assert suffix[|suffix| - 4..] == ".sql";
    assert file[|file| - 4..] == suffix[|suffix| - 4..];
  }

  lemma OneLetterBodies()
    ensures TrimSpace("a") != "" && TrimSpace("b") != "" && TrimSpace("c") != ""
  {
  }

  predicate IsTwin(e: Entry, isUp: bool) {
    IsSql(e) && GoodEntry(e) && ParseName(e.name) == Some(Label(1, "x", isUp))
  }

  lemma {:induction false} TwinEntries()
    ensures IsTwin(EarlierUp(), true) && IsTwin(OnlyDown(), false) && IsTwin(LaterUp(), true)
  {
    PrefixesOfOne();
    OneLetterBodies();
    assert '_' !in "+001" && '_' !in "0001";
    hide TrimSpace, File, ParseInt64, ParseName, GoodEntry, IsSql;
    FileIsGood("+001", "x", true, 1, "a");
    FileIsGood("0001", "x", false, 1, "b");
    FileIsGood("0001", "x", true, 1, "c");
  }

  lemma {:induction false} TwinLast(v: int)
    ensures Last(TwinDirectory(), v, true) == if v == 1 then Some(LaterUp()) else None
    ensures Last(TwinDirectory(), v, false) == if v == 1 then Some(OnlyDown()) else None
  {
    TwinEntries();
    hide ParseName, IsSql, GoodEntry, EarlierUp, OnlyDown, LaterUp;
    var a, b, c := EarlierUp(), OnlyDown(), LaterUp();
    assert [] + [a] == [a] && [a] + [b] == [a, b] && [a, b] + [c] == TwinDirectory();
    forall isUp
      ensures Last(TwinDirectory(), v, isUp) ==
              if Holds(c, v, isUp) then Some(c) else if Holds(b, v, isUp) then Some(b)
                  else if Holds(a, v, isUp) then Some(a) else None
    {
      LastExtend([], a, v, isUp);
      LastExtend([a], b, v, isUp);
      LastExtend([a, b], c, v, isUp);
    }
    hide Last;
  }

  lemma {:induction false} TwinsAgree()
    ensures AllGood(TwinDirectory()) && NamesAgree(TwinDirectory())
  {
    TwinEntries();
    hide ParseName, IsSql, GoodEntry, EarlierUp, OnlyDown, LaterUp;
    forall i | 0 <= i < 3
      ensures IsTwin(TwinDirectory()[i], i != 1)
    {
    }
    hide TwinDirectory;
    assert |TwinDirectory()| == 3 ==> AllGood(TwinDirectory()) && NamesAgree(TwinDirectory());
  }

  lemma {:induction false} TwinDirectoryIsWellFormed()
    ensures WellFormed(TwinDirectory())
    ensures Last(TwinDirectory(), 1, true) == Some(LaterUp()) && Last(TwinDirectory(), 1, false) == Some(OnlyDown())
  {
    hide AllGood, NamesAgree, Last, TwinDirectory, EarlierUp, OnlyDown, LaterUp, Holds, IsSql, GoodEntry, IsTwin;
    forall v: int
      ensures Last(TwinDirectory(), v, true) == if v == 1 then Some(LaterUp()) else None
      ensures Last(TwinDirectory(), v, false) == if v == 1 then Some(OnlyDown()) else None
    {
      TwinLast(v);
    }
    TwinsAgree();
  }

  /** The directory is accepted, its migration is made of the second and third file, and
      its first file is read and then ignored. */
  lemma {:induction false} TwinIsIgnored()
    ensures WellFormed(TwinDirectory()) && DistinctNames(TwinDirectory())
    ensures Describes(TwinDirectory(), Migration(1, "x", "c", "b"))
    ensures IsSql(EarlierUp()) && GoodEntry(EarlierUp()) && !Used(TwinDirectory(), EarlierUp())
  {
    TwinEntries();
    TwinNames();
    TwinDirectoryIsWellFormed();
    hide ParseName, IsSql, GoodEntry, Last, WellFormed;
    assert LaterUp().body == Some("c") && OnlyDown().body == Some("b");
    hide EarlierUp, OnlyDown, LaterUp;
  }
}
