/** Breaking a migration file into statements: the scanner, and the plain description
    it meets. Text is a sequence of Unicode code points. */
module Splitter {
  import opened Text
  import opened Wrappers

  datatype SplitError = DollarQuoted | Unterminated

  /** White space as Unicode has it. */
  predicate IsSpace(c: char) {
    || c == ' ' || '\t' <= c <= '\r' || c == '\U{85}' || c == '\U{A0}' || c == '\U{1680}'
    || '\U{2000}' <= c <= '\U{200A}' || c == '\U{2028}' || c == '\U{2029}' || c == '\U{202F}'
    || c == '\U{205F}' || c == '\U{3000}'
  }

  function TrimLeft(s: string): string {
    if s != "" && IsSpace(s[0]) then TrimLeft(s[1..]) else s
  }

  function TrimRight(s: string): string {
    if s != "" && IsSpace(s[|s| - 1]) then TrimRight(s[..|s| - 1]) else s
  }

  function TrimSpace(s: string): string {
    TrimRight(TrimLeft(s))
  }

  function IndexOf(s: string, c: char): (i: nat)
    ensures i <= |s|
    ensures forall k | 0 <= k < i :: s[k] != c
    ensures i < |s| ==> s[i] == c
  {
    if s == "" || s[0] == c then 0 else 1 + IndexOf(s[1..], c)
  }

  function Lines(s: string): (lines: seq<string>)
    ensures lines != []
    decreases |s|
  {
    var i := IndexOf(s, '\n');
    if i == |s| then [s] else [s[..i]] + Lines(s[i + 1..])
  }

  predicate IsComment(line: string) {
    "--" <= TrimSpace(line)
  }

  // ---- What a file means ----

  function Quotes(s: string): nat {
    if s == "" then 0 else Quotes(s[..|s| - 1]) + (if s[|s| - 1] == '\'' then 1 else 0)
  }

  /** Inside a literal: an odd number of quotes came before. */
  predicate Open(s: string) {
    Quotes(s) % 2 == 1
  }

  /** The text left when comment lines that start outside a literal are dropped. */
  function Kept(lines: seq<string>, open: bool): string {
    if lines == [] then ""
    else if !open && IsComment(lines[0]) then Kept(lines[1..], open)
    else lines[0] + "\n" + Kept(lines[1..], open != Open(lines[0]))
  }

  /** A semicolon ends a statement when it is preceded by an even number of quotes. */
  predicate Ends(text: string, i: nat) {
    i < |text| && text[i] == ';' && !Open(text[..i])
  }

  function FirstEnd(text: string, from: nat): (i: nat)
    requires from <= |text|
    ensures from <= i <= |text|
    ensures i < |text| ==> Ends(text, i)
    ensures forall k | from <= k < i :: !Ends(text, k)
    decreases |text| - from
  {
    if from == |text| || Ends(text, from) then from else FirstEnd(text, from + 1)
  }

  /** The stretches between statement ends. */
  function Pieces(text: string): (pieces: seq<string>)
    ensures pieces != []
    decreases |text|
  {
    var i := FirstEnd(text, 0);
    if i == |text| then [text] else [text[..i]] + Pieces(text[i + 1..])
  }

  /** Trims every piece and drops the empty ones. */
  function Clean(pieces: seq<string>): seq<string> {
    if pieces == [] then []
    else
      var s := TrimSpace(pieces[|pieces| - 1]);
      Clean(pieces[..|pieces| - 1]) + (if s == "" then [] else [s])
  }

  /** The statements of a file: cut its kept text at every end, trim, drop empties. */
  function Statements(sql: string): Result<seq<string>, SplitError> {
    if Contains(sql, "$$") then Err(DollarQuoted)
    else
      var text := Kept(Lines(sql), false);
      if Open(text) then Err(Unterminated) else Ok(Clean(Pieces(text)))
  }

  // ---- Facts about the description ----

  lemma {:induction false} IndexOfUnique(s: string, c: char, i: nat)
    requires i <= |s| && (forall k | 0 <= k < i :: s[k] != c) && (i < |s| ==> s[i] == c)
    ensures IndexOf(s, c) == i
  {
  }

  lemma {:induction false} QuotesConcat(a: string, b: string)
    ensures Quotes(a + b) == Quotes(a) + Quotes(b)
  {
    if b == "" {
      assert a + b == a;
    } else {
      assert (a + b)[..|a + b| - 1] == a + b[..|b| - 1];
      QuotesConcat(a, b[..|b| - 1]);
    }
  }

  lemma OpenConcat(a: string, b: string)
    ensures Open(a + b) == (Open(a) != Open(b))
  {
    QuotesConcat(a, b);
  }

  lemma OpenChar(c: char)
    ensures Open([c]) == (c == '\'')
  {
    assert [c][..|[c]| - 1] == "";
    assert Quotes("") == 0;
  }

  lemma {:induction false} EndsExtend(text: string, c: char)
    ensures forall k | 0 <= k < |text| :: Ends(text + [c], k) <==> Ends(text, k)
    ensures Ends(text + [c], |text|) <==> c == ';' && !Open(text)
  {
    assert forall k | 0 <= k <= |text| :: (text + [c])[..k] == text[..k];
    assert text[..|text|] == text;
  }

  lemma {:induction false} FirstEndExtend(text: string, c: char)
    ensures FirstEnd(text + [c], 0) ==
            if FirstEnd(text, 0) < |text| then FirstEnd(text, 0)
            else if c == ';' && !Open(text) then |text|
            else |text| + 1
  {
    EndsExtend(text, c);
    hide Ends, FirstEnd, Open;
    var i, j := FirstEnd(text, 0), FirstEnd(text + [c], 0);
    assert i < |text| ==> Ends(text + [c], i);
    assert j < |text| ==> Ends(text, j);
  }

  /** Past an end, the rest is open exactly when the whole is. */
  lemma {:induction false} OpenAfterEnd(text: string, i: nat)
    requires Ends(text, i)
    ensures Open(text[i + 1..]) == Open(text)
  {
    assert text == text[..i] + [text[i]] + text[i + 1..];
    OpenConcat(text[..i] + [text[i]], text[i + 1..]);
    OpenConcat(text[..i], [text[i]]);
    OpenChar(text[i]);
  }

  /** Adding one character opens a new piece after an end and extends the last one otherwise. */
  lemma {:induction false} PiecesExtend(text: string, c: char)
    ensures Pieces(text + [c]) ==
            if c == ';' && !Open(text) then Pieces(text) + [""]
            else Pieces(text)[..|Pieces(text)| - 1] + [Pieces(text)[|Pieces(text)| - 1] + [c]]
    decreases |text|
  {
    hide Ends, FirstEnd, Open, Pieces;
    var t := text + [c];
    var i := FirstEnd(text, 0);
    FirstEndExtend(text, c);
    PiecesUnfold(text);
    PiecesUnfold(t);
    if i < |text| {
      OpenAfterEnd(text, i);
      assert t[i + 1..] == text[i + 1..] + [c] && t[..i] == text[..i];
      PiecesExtend(text[i + 1..], c);
    } else if c == ';' && !Open(text) {
      assert t[..|text|] == text && t[|text| + 1..] == "";
      PiecesUnfold("");
    }
  }

  lemma PiecesUnfold(text: string)
    ensures var i := FirstEnd(text, 0);
            Pieces(text) == if i == |text| then [text] else [text[..i]] + Pieces(text[i + 1..])
  {
    hide Ends, FirstEnd;
  }

  // ---- The scanner ----

  /** The scanner's state after reading some kept text: finished statements, the
      text of the unfinished one, and whether a literal is open. */
  ghost predicate Scanned(text: string, statements: seq<string>, current: string, inString: bool) {
    var pieces := Pieces(text);
    var n := |pieces| - 1;
    statements == Clean(pieces[..n]) && current == pieces[n] && inString == Open(text)
  }

  lemma ScanChar(text: string, statements: seq<string>, current: string, inString: bool, c: char)
    requires Scanned(text, statements, current, inString)
    ensures if c == ';' && !inString then
              Scanned(text + [c], statements + (if TrimSpace(current) == "" then [] else [TrimSpace(current)]), "",
                      inString)
            else Scanned(text + [c], statements, current + [c], inString != (c == '\''))
  {
    PiecesExtend(text, c);
    OpenConcat(text, [c]);
    OpenChar(c);
    var pieces := Pieces(text);
    var n := |pieces| - 1;
    assert (pieces + [""])[..n + 1] == pieces;
    assert (pieces[..n] + [current + [c]])[..n] == pieces[..n];
  }

  /** Scans one kept line. An escaped quote inside a literal is two toggles at once. */
  method ScanLine(line: string, done: seq<string>, pending: string, open: bool, ghost text: string)
    returns (statements: seq<string>, current: string, inString: bool)
    requires Scanned(text, done, pending, open)
    ensures Scanned(text + line, statements, current, inString)
  {
    hide Scanned, TrimSpace;
    statements, current, inString := done, pending, open;
    var i := 0;
    assert text + line[..0] == text;
    while i < |line|
      invariant 0 <= i <= |line|
      invariant Scanned(text + line[..i], statements, current, inString)
    {
      var c := line[i];
      assert text + line[..i] + [c] == text + line[..i + 1];
      ScanChar(text + line[..i], statements, current, inString, c);
      if c == '\'' {
        if inString && i + 1 < |line| && line[i + 1] == '\'' {
          ScanChar(text + line[..i + 1], statements, current + [c], false, '\'');
          assert text + line[..i + 1] + ['\''] == text + line[..i + 2];
          assert current + [c] + ['\''] == current + "''";
          current := current + "''";
          i := i + 2;
          continue;
        }
        inString := !inString;
        current := current + [c];
        i := i + 1;
        continue;
      }
      if c == ';' && !inString {
        var s := TrimSpace(current);
        statements := statements + (if s == "" then [] else [s]);
        current := "";
        i := i + 1;
        continue;
      }
      current := current + [c];
      i := i + 1;
    }
    assert line[..i] == line;
  }

  /** Reads a file line by line, dropping comment lines that start outside a literal,
      and yields exactly the statements of the plain description, or its error. */
  method SplitStatements(sql: string) returns (r: Result<seq<string>, SplitError>)
    ensures r == Statements(sql)
  {
    if Contains(sql, "$$") {
      return Err(DollarQuoted);
    }
    hide Scanned, Reading, IsComment, Lines, Kept, Pieces, Clean, TrimSpace, Open;
    var lines := Lines(sql);
    var statements: seq<string> := [];
    var current := "";
    var inString := false;
    ghost var text := "";
    ReadingStarts(lines);
    for k := 0 to |lines|
      invariant Reading(lines, k, text, statements, current, inString)
    {
      ReadingScanned(lines, k, text, statements, current, inString);
      if !inString && IsComment(lines[k]) {
        ReadingSkips(lines, k, text, statements, current, inString);
        continue;
      }
      ghost var open := inString;
      statements, current, inString := ScanLine(lines[k], statements, current, inString, text);
      ReadingTakes(lines, k, text, open, statements, current, inString);
      current := current + "\n";
      text := text + lines[k] + "\n";
    }
    ReadingEnds(lines, text, statements, current, inString);
    if inString {
      return Err(Unterminated);
    }
    var s := TrimSpace(current);
    r := Ok(statements + (if s == "" then [] else [s]));
  }

  /** After k lines: the scanner has read some kept text, and what it has still to
      keep of the other lines completes the whole. */
  ghost predicate Reading(lines: seq<string>, k: nat, text: string, statements: seq<string>, current: string,
                          inString: bool)
    requires k <= |lines|
  {
    Scanned(text, statements, current, inString) && text + Kept(lines[k..], inString) == Kept(lines, false)
  }

  lemma {:induction false} ReadingStarts(lines: seq<string>)
    ensures Reading(lines, 0, "", [], "", false)
  {
    assert lines[0..] == lines;
    assert Pieces("") == [""];
  }

  lemma {:induction false} ReadingScanned(lines: seq<string>, k: nat, text: string, statements: seq<string>,
                                          current: string, inString: bool)
    requires k <= |lines| && Reading(lines, k, text, statements, current, inString)
    ensures Scanned(text, statements, current, inString) && inString == Open(text)
    ensures text + Kept(lines[k..], inString) == Kept(lines, false)
  {
  }

  lemma {:induction false} ReadingSkips(lines: seq<string>, k: nat, text: string, statements: seq<string>,
                                        current: string, inString: bool)
    requires k < |lines| && Reading(lines, k, text, statements, current, inString) && !inString && IsComment(lines[k])
    ensures Reading(lines, k + 1, text, statements, current, inString)
  {
    hide IsComment, Scanned;
    assert lines[k..][1..] == lines[k + 1..];
  }

  lemma KeptNext(lines: seq<string>, k: nat, open: bool)
    requires k < |lines| && (open || !IsComment(lines[k]))
    ensures Kept(lines[k..], open) == lines[k] + "\n" + Kept(lines[k + 1..], open != Open(lines[k]))
  {
    hide IsComment, Open;
    assert lines[k..][1..] == lines[k + 1..];
  }

  lemma ScannedIsOpen(text: string, statements: seq<string>, current: string, inString: bool)
    requires Scanned(text, statements, current, inString)
    ensures inString == Open(text)
  {
  }

  lemma {:induction false} ReadingTakes(lines: seq<string>, k: nat, text: string, open: bool,
                                        statements: seq<string>, current: string, inString: bool)
    requires k < |lines| && text + Kept(lines[k..], open) == Kept(lines, false) && open == Open(text)
    requires (open || !IsComment(lines[k])) && Scanned(text + lines[k], statements, current, inString)
    ensures Reading(lines, k + 1, text + lines[k] + "\n", statements, current + "\n", inString)
  {
    hide IsComment, Open, Scanned, Kept, TrimSpace;
    ScanChar(text + lines[k], statements, current, inString, '\n');
    ScannedIsOpen(text + lines[k], statements, current, inString);
    OpenConcat(text, lines[k]);
    KeptNext(lines, k, open);
    var rest := Kept(lines[k + 1..], inString);
    assert text + (lines[k] + "\n" + rest) == text + lines[k] + "\n" + rest;
  }

  lemma {:induction false} ReadingEnds(lines: seq<string>, text: string, statements: seq<string>, current: string,
                                       inString: bool)
    requires Reading(lines, |lines|, text, statements, current, inString)
    ensures text == Kept(lines, false) && inString == Open(text)
    ensures Clean(Pieces(text)) == statements + (if TrimSpace(current) == "" then [] else [TrimSpace(current)])
  {
    assert Kept(lines[|lines|..], inString) == "";
    assert text + "" == text;
  }
}
