/** What a directory of migration files is and holds, in terms of its names and bodies
    alone: only the theorems mention the loader. */
module Directories {
  import opened Wrappers
  import opened Numerals
  import opened Splitter
  import Migrations
  import opened MigrationFiles
  import SqlText

  /** Four characters that spell a positive version, an underscore, a label and the
      suffix of one direction. */
  ghost predicate NameSays(file: string, version: int, title: string, isUp: bool) {
    && |file| >= 5 && Spells(file[..4], version) && 1 <= version && title != ""
    && file == file[..4] + "_" + title + (if isUp then ".up.sql" else ".down.sql")
  }

  /** Some character is not white space. */
  ghost predicate Inked(body: string) {
    exists i | 0 <= i < |body| :: !SqlText.WhiteSpace(body[i] as int)
  }

  ghost predicate Says(e: Entry, version: int, title: string, isUp: bool, body: string) {
    !e.isDir && NameSays(e.name, version, title, isUp) && e.body == Some(body) && Inked(body)
  }

  ghost predicate IsFor(e: Entry, version: int, isUp: bool) {
    exists title, body :: Says(e, version, title, isUp, body)
  }

  ghost predicate IsMigration(e: Entry) {
    exists version, isUp :: IsFor(e, version, isUp)
  }

  ghost predicate EndsSql(name: string) {
    |name| >= 4 && name[|name| - 4..] == ".sql"
  }

  ghost predicate HasFile(entries: seq<Entry>, version: int, isUp: bool) {
    exists i | 0 <= i < |entries| :: IsFor(entries[i], version, isUp)
  }

  ghost predicate SameVersionSameLabel(a: Entry, b: Entry) {
    forall version, x, y, up, up', body, body' ::
      Says(a, version, x, up, body) && Says(b, version, y, up', body') ==> x == y
  }

  /** Flat; every .sql file a migration's; one label per version; an up file exactly where
      there is a down file; and no version without the one below it. */
  ghost predicate Good(entries: seq<Entry>) {
    && (forall i | 0 <= i < |entries| ::
          !entries[i].isDir && (EndsSql(entries[i].name) ==> IsMigration(entries[i])))
    && (forall i, j | 0 <= i < |entries| && 0 <= j < |entries| :: SameVersionSameLabel(entries[i], entries[j]))
    && (forall v :: HasFile(entries, v, true) <==> HasFile(entries, v, false))
    && (forall v | 1 < v && HasFile(entries, v, true) :: HasFile(entries, v - 1, true))
  }

  /** The last file for a version and direction, and what it holds. */
  ghost predicate Latest(entries: seq<Entry>, i: nat, version: int, title: string, isUp: bool, body: string) {
    && i < |entries| && Says(entries[i], version, title, isUp, body)
    && forall k | i < k < |entries| :: !IsFor(entries[k], version, isUp)
  }

  /** A migration's label and two bodies are those of the last files for its version. */
  ghost predicate MadeOf(entries: seq<Entry>, m: Migrations.Migration) {
    && (exists i :: Latest(entries, i, m.version, m.name, true, m.up))
    && (exists j, title :: Latest(entries, j, m.version, title, false, m.down))
  }

  // ---- Names and bodies ----

  lemma SpellsHasNoUnderscore(text: string, n: int)
    requires Spells(text, n)
    ensures '_' !in text
  {
    hide Places;
    var body := if text[0] == '-' || text[0] == '+' then text[1..] else text;
    assert AllDigits(body);
    forall i | 0 <= i < |text|
      ensures text[i] != '_'
    {
      if |body| < |text| && 0 < i {
        assert text[i] == body[i - 1];
      }
    }
  }

  /** A file name is read as a label exactly when it says that. */
  lemma {:induction false} NameMeans(file: string, l: Label)
    ensures ParseName(file) == Some(l) <==> NameSays(file, l.version, l.name, l.isUp)
  {
    hide ParseName, ParseInt64, Spells;
    var suffix := Suffix(l.isUp);
    if ParseName(file) == Some(l) {
      ParsedShape(file);
      ParseInt64Means(file[..4], l.version);
      assert file[..4] + "_" + (l.name + suffix) == file[..4] + "_" + l.name + suffix;
    }
    if NameSays(file, l.version, l.name, l.isUp) {
      ParseInt64Means(file[..4], l.version);
      SpellsHasNoUnderscore(file[..4], l.version);
      NameParses(file[..4], l.name, l.isUp, l.version);
    }
  }

  lemma {:induction false} InkedMeans(body: string)
    ensures TrimSpace(body) != "" <==> Inked(body)
  {
    hide TrimSpace, IsSpace, SqlText.WhiteSpace;
    var a, b := SqlText.TrimSpan(body);
    forall i | 0 <= i < |body|
      ensures IsSpace(body[i]) <==> SqlText.WhiteSpace(body[i] as int)
    {
      SqlText.SpaceMeans(body[i]);
    }
  }

  /** The loader's view of one entry. */
  lemma {:induction false} EntryMeans(e: Entry, version: int, title: string, isUp: bool, body: string)
    ensures Says(e, version, title, isUp, body) <==>
            IsSql(e) && GoodEntry(e) && ParseName(e.name) == Some(Label(version, title, isUp)) && e.body == Some(body)
  {
    hide ParseName, TrimSpace, Inked, Spells, HasSuffix;
    NameMeans(e.name, Label(version, title, isUp));
    InkedMeans(body);
    if NameSays(e.name, version, title, isUp) {
      NamedIsSql(e.name[..4] + "_" + title, isUp);
    }
  }

  lemma {:induction false} HoldsMeans(e: Entry, version: int, isUp: bool)
    ensures Holds(e, version, isUp) <==> IsFor(e, version, isUp)
  {
    hide ParseName, Says, TrimSpace, HasSuffix;
    if Holds(e, version, isUp) {
      EntryMeans(e, version, ParseName(e.name).value.name, isUp, e.body.value);
    }
    if title, body :| Says(e, version, title, isUp, body) {
      EntryMeans(e, version, title, isUp, body);
    }
  }

  lemma {:induction false} LastMeans(entries: seq<Entry>, version: int, isUp: bool)
    ensures Last(entries, version, isUp).Some? <==> HasFile(entries, version, isUp)
  {
    hide IsFor, Holds;
    if entries != [] {
      var init, e := entries[..|entries| - 1], entries[|entries| - 1];
      LastMeans(init, version, isUp);
      HoldsMeans(e, version, isUp);
      assert forall i | 0 <= i < |init| :: init[i] == entries[i];
    }
  }

  ghost predicate LastFor(entries: seq<Entry>, i: nat, version: int, isUp: bool) {
    && i < |entries| && IsFor(entries[i], version, isUp)
    && forall k | i < k < |entries| :: !IsFor(entries[k], version, isUp)
  }

  lemma {:induction false} LastIsFor(entries: seq<Entry>, version: int, isUp: bool) returns (i: nat)
    requires Last(entries, version, isUp).Some?
    ensures LastFor(entries, i, version, isUp) && entries[i] == Last(entries, version, isUp).value
  {
    hide IsFor, Holds;
    var n := |entries| - 1;
    HoldsMeans(entries[n], version, isUp);
    if Holds(entries[n], version, isUp) {
      i := n;
    } else {
      i := LastIsFor(entries[..n], version, isUp);
      assert forall k | i < k < n :: entries[k] == entries[..n][k];
    }
  }

  lemma {:induction false} LastForIsLast(entries: seq<Entry>, i: nat, version: int, isUp: bool)
    requires LastFor(entries, i, version, isUp)
    ensures Last(entries, version, isUp) == Some(entries[i])
  {
    hide IsFor, Holds;
    var n := |entries| - 1;
    HoldsMeans(entries[n], version, isUp);
    if i < n {
      assert forall k | i < k < n :: entries[..n][k] == entries[k];
      LastForIsLast(entries[..n], i, version, isUp);
    }
  }

  // ---- The directory ----

  lemma {:induction false} GoodEntryMeans(e: Entry)
    ensures GoodEntry(e) <==> !e.isDir && (EndsSql(e.name) ==> IsMigration(e))
  {
    hide ParseName, TrimSpace, IsFor;
    if IsSql(e) && GoodEntry(e) {
      var l := ParseName(e.name).value;
      HoldsMeans(e, l.version, l.isUp);
    }
    if version, isUp :| IsFor(e, version, isUp) {
      HoldsMeans(e, version, isUp);
    }
  }

  lemma {:induction false} SameNameMeans(a: Entry, b: Entry)
    ensures SameName(a, b) <==> SameVersionSameLabel(a, b)
  {
    hide ParseName, Says, IsSql, GoodEntry;
    if SameName(a, b) {
      forall version, x, y, up, up', body, body' | Says(a, version, x, up, body) && Says(b, version, y, up', body')
        ensures x == y
      {
        EntryMeans(a, version, x, up, body);
        EntryMeans(b, version, y, up', body');
      }
    } else {
      NamesClash(a, b);
    }
  }

  lemma NamesClash(a: Entry, b: Entry)
    requires !SameName(a, b)
    ensures !SameVersionSameLabel(a, b)
  {
    hide ParseName, Says, TrimSpace;
    var la, lb := ParseName(a.name).value, ParseName(b.name).value;
    EntryMeans(a, la.version, la.name, la.isUp, a.body.value);
    EntryMeans(b, lb.version, lb.name, lb.isUp, b.body.value);
  }

  /** The directories the loader accepts are the good ones. */
  lemma {:induction false} WellFormedMeans(entries: seq<Entry>)
    ensures WellFormed(entries) <==> Good(entries)
  {
    hide GoodEntry, SameName, Last, IsMigration, SameVersionSameLabel, HasFile, EndsSql;
    forall i | 0 <= i < |entries|
      ensures GoodEntry(entries[i]) <==>
              !entries[i].isDir && (EndsSql(entries[i].name) ==> IsMigration(entries[i]))
    {
      GoodEntryMeans(entries[i]);
    }
    forall i, j | 0 <= i < |entries| && 0 <= j < |entries|
      ensures SameName(entries[i], entries[j]) <==> SameVersionSameLabel(entries[i], entries[j])
    {
      SameNameMeans(entries[i], entries[j]);
    }
    forall v, isUp
      ensures Last(entries, v, isUp).Some? <==> HasFile(entries, v, isUp)
    {
      LastMeans(entries, v, isUp);
    }
  }

  lemma {:induction false} LastIsLatest(entries: seq<Entry>, version: int, title: string, isUp: bool, body: string)
    ensures (exists i :: Latest(entries, i, version, title, isUp, body)) <==>
            && Last(entries, version, isUp).Some?
            && var e := Last(entries, version, isUp).value;
               Name(e) == title && Body(e) == body
  {
    hide ParseName, TrimSpace, Says, IsFor, Last, HasSuffix;
    if i: nat :| Latest(entries, i, version, title, isUp, body) {
      EntryMeans(entries[i], version, title, isUp, body);
      assert IsFor(entries[i], version, isUp) by {
        ForSays(entries[i], version, title, isUp, body);
      }
      LastForIsLast(entries, i, version, isUp);
    }
    if Last(entries, version, isUp).Some? {
      var e := Last(entries, version, isUp).value;
      var i := LastIsFor(entries, version, isUp);
      EntryMeans(e, version, Name(e), isUp, Body(e));
      assert Latest(entries, i, version, Name(e), isUp, Body(e));
    }
  }

  lemma ForSays(e: Entry, version: int, title: string, isUp: bool, body: string)
    requires Says(e, version, title, isUp, body)
    ensures IsFor(e, version, isUp)
  {
  }

  /** A migration is described by a directory exactly when it is made of its files. */
  lemma {:induction false} DescribesMeans(entries: seq<Entry>, m: Migrations.Migration)
    ensures Describes(entries, m) <==> MadeOf(entries, m)
  {
    hide Latest, Last, IsSql, GoodEntry, Name, Body;
    LastIsLatest(entries, m.version, m.name, true, m.up);
    var down := Last(entries, m.version, false);
    if down.Some? {
      LastIsLatest(entries, m.version, Name(down.value), false, m.down);
    }
    if j: nat, title :| Latest(entries, j, m.version, title, false, m.down) {
      LastIsLatest(entries, m.version, title, false, m.down);
    }
  }

  const DIR_SQLITE := "sqlite"
  const DIR_POSTGRES := "postgres"

  datatype ForError = UnknownDirectory | BadDirectory(error: LoadError)

  /** One engine's migrations: a good directory yields its versions from 1 up, each made of
      its own files, and nothing else is accepted. */
  method For(dir: string, sqlite: seq<Entry>, postgres: seq<Entry>)
    returns (r: Result<seq<Migrations.Migration>, ForError>)
    ensures dir != "sqlite" && dir != "postgres" ==> r == Err(UnknownDirectory)
    ensures dir == "sqlite" ==> (r.Ok? <==> Good(sqlite)) && (r.Ok? ==> Loaded(sqlite, r.value))
    ensures dir == "postgres" ==> (r.Ok? <==> Good(postgres)) && (r.Ok? ==> Loaded(postgres, r.value))
    ensures r.Err? && r.error.BadDirectory? ==> Reports(if dir == "sqlite" then sqlite else postgres, r.error.error)
  {
    hide WellFormed, Good, Loaded, Reports;
    if dir != DIR_SQLITE && dir != DIR_POSTGRES {
      return Err(UnknownDirectory);
    }
    var entries := if dir == DIR_SQLITE then sqlite else postgres;
    var parsed := Parse(entries);
    WellFormedMeans(entries);
    if parsed.Err? {
      return Err(BadDirectory(parsed.error));
    }
    ParsedIsLoaded(entries, parsed.value);
    r := Ok(parsed.value);
  }

  /** Versions 1 to n in order, each made of its own files, and no file of another version. */
  ghost predicate Loaded(entries: seq<Entry>, ms: seq<Migrations.Migration>) {
    && (forall i | 0 <= i < |ms| :: ms[i].version == i + 1 && MadeOf(entries, ms[i]))
    && (forall v | HasFile(entries, v, true) :: 1 <= v <= |ms|)
  }

  lemma {:induction false} ParsedIsLoaded(entries: seq<Entry>, ms: seq<Migrations.Migration>)
    requires Migrations.Contiguous(ms) && forall i | 0 <= i < |ms| :: Describes(entries, ms[i])
    requires forall v | Last(entries, v, true).Some? :: 1 <= v <= |ms|
    ensures Loaded(entries, ms)
  {
    hide Describes, MadeOf, Last, HasFile;
    forall i | 0 <= i < |ms|
      ensures MadeOf(entries, ms[i])
    {
      DescribesMeans(entries, ms[i]);
    }
    forall v | HasFile(entries, v, true)
      ensures 1 <= v <= |ms|
    {
      LastMeans(entries, v, true);
    }
  }
}
