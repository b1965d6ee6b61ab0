/** Printing statements as a script and splitting it again: exactly when that gives
    the statements back. */
module Scripts {
  import opened Text
  import opened Wrappers
  import opened Splitter

  /** Some line that starts outside a literal is a comment. */
  predicate HasComment(lines: seq<string>, open: bool) {
    lines != [] && ((!open && IsComment(lines[0])) || HasComment(lines[1..], open != Open(lines[0])))
  }

  /** A statement the splitter cannot mistake for more, for less or for a comment. */
  predicate CleanStatement(s: string) {
    && s != "" && TrimSpace(s) == s
    && !Open(s)
    && (forall i | 0 <= i < |s| :: !Ends(s, i))
    && !HasComment(Lines(s), false)
    && !Contains(s, "$$")
  }

  function ScriptOf(statements: seq<string>): string {
    if statements == [] then "" else statements[0] + ";\n" + ScriptOf(statements[1..])
  }

  predicate DollarsAt(s: string, i: nat) {
    i + 1 < |s| && s[i] == '$' && s[i + 1] == '$'
  }

  lemma {:induction false} ContainsDollars(s: string)
    ensures Contains(s, "$$") <==> exists i | 0 <= i < |s| :: DollarsAt(s, i)
  {
    if i :| 0 <= i < |s| && DollarsAt(s, i) {
      assert "$$" <= s[i..];
    }
    if i :| 0 <= i <= |s| && "$$" <= s[i..] {
      assert s[i..][0] == '$' && s[i..][1] == '$';
      assert DollarsAt(s, i);
    }
  }

  lemma {:induction false} ScriptHasNoDollars(statements: seq<string>)
    requires forall i | 0 <= i < |statements| :: !Contains(statements[i], "$$")
    ensures !Contains(ScriptOf(statements), "$$")
  {
    ContainsDollars(ScriptOf(statements));
    if statements != [] {
      var a, b := statements[0], ScriptOf(statements[1..]);
      ScriptHasNoDollars(statements[1..]);
      ContainsDollars(a);
      ContainsDollars(b);
      var all := a + ";\n" + b;
      forall i | 0 <= i < |all|
        ensures !DollarsAt(all, i)
      {
        if i < |a| {
          assert !DollarsAt(a, i);
        } else if |a| + 2 <= i {
          assert !DollarsAt(b, i - |a| - 2);
        }
      }
    }
  }

  /** Cutting off the first line, for a newline known to come first at i. */
  lemma {:induction false} FirstLine(s: string, i: nat)
    requires i <= |s| && (forall k | 0 <= k < i :: s[k] != '\n') && (i < |s| ==> s[i] == '\n')
    ensures Lines(s) == if i == |s| then [s] else [s[..i]] + Lines(s[i + 1..])
  {
    IndexOfUnique(s, '\n', i);
    hide IndexOf;
  }

  lemma {:induction false} LinesConcat(a: string, b: string)
    ensures Lines(a + "\n" + b) == Lines(a) + Lines(b)
    decreases |a|
  {
    hide IndexOf, Lines;
    var all := a + "\n" + b;
    var i := IndexOf(a, '\n');
    FirstLine(a, i);
    FirstLine(all, i);
    if i == |a| {
      assert all[..i] == a && all[i + 1..] == b;
    } else {
      assert all[..i] == a[..i] && all[i + 1..] == a[i + 1..] + "\n" + b;
      LinesConcat(a[i + 1..], b);
    }
  }

  lemma {:induction false} KeptLine(line: string, rest: seq<string>, open: bool)
    requires !HasComment([line] + rest, open)
    ensures Kept([line] + rest, open) == line + "\n" + Kept(rest, open != Open(line))
    ensures !HasComment(rest, open != Open(line))
  {
    hide IsComment, Open;
    assert ([line] + rest)[1..] == rest;
  }

  /** Text without comment lines is kept whole. */
  lemma {:induction false} KeptWhole(s: string, open: bool)
    requires !HasComment(Lines(s), open)
    ensures Kept(Lines(s), open) == s + "\n"
    decreases |s|
  {
    hide IsComment, Open, IndexOf, Lines, Kept, HasComment;
    var i := IndexOf(s, '\n');
    FirstLine(s, i);
    if i == |s| {
      assert [s] == [s] + [];
      KeptLine(s, [], open);
      KeptNothing(open != Open(s));
      assert s + "\n" + "" == s + "\n";
    } else {
      KeptLine(s[..i], Lines(s[i + 1..]), open);
      KeptWhole(s[i + 1..], open != Open(s[..i]));
      assert s[..i] + "\n" + (s[i + 1..] + "\n") == s + "\n";
    }
  }

  lemma KeptNothing(open: bool)
    ensures Kept([], open) == ""
  {
  }

  lemma {:induction false} LineOpens(line: string, rest: string)
    ensures Open(line + "\n" + rest) == (Open(line) != Open(rest))
  {
    OpenConcat(line + "\n", rest);
    OpenConcat(line, "\n");
    OpenChar('\n');
    hide Open;
  }

  lemma {:induction false} KeptConcat(a: seq<string>, b: seq<string>, open: bool)
    ensures Kept(a + b, open) == Kept(a, open) + Kept(b, open != Open(Kept(a, open)))
  {
    hide IsComment, Open;
    if a == [] {
      assert a + b == b;
      OpensNothing();
    } else {
      assert (a + b)[1..] == a[1..] + b;
      if !open && IsComment(a[0]) {
        KeptConcat(a[1..], b, open);
      } else {
        var after := open != Open(a[0]);
        KeptConcat(a[1..], b, after);
        var rest := Kept(a[1..], after);
        LineOpens(a[0], rest);
        var more := Kept(b, after != Open(rest));
        assert a[0] + "\n" + (rest + more) == a[0] + "\n" + rest + more;
      }
    }
  }

  lemma OpensNothing()
    ensures !Open("")
  {
  }

  lemma {:induction false} TrimLeftSemicolon(s: string)
    ensures TrimLeft(s + ";") == TrimLeft(s) + ";"
  {
    if s != "" && IsSpace(s[0]) {
      assert (s + ";")[1..] == s[1..] + ";";
      TrimLeftSemicolon(s[1..]);
    }
  }

  lemma {:induction false} TrimRightKeepsDashes(s: string)
    requires "--" <= s
    ensures "--" <= TrimRight(s)
    decreases |s|
  {
    if IsSpace(s[|s| - 1]) {
      assert s[0] == '-' && s[1] == '-';
      TrimRightKeepsDashes(s[..|s| - 1]);
    }
  }

  lemma {:induction false} TrimWithSemicolon(s: string)
    ensures TrimSpace(s + ";") == TrimLeft(s) + ";"
  {
    TrimLeftSemicolon(s);
    hide TrimLeft;
  }

  lemma {:induction false} DashesBeforeSemicolon(t: string)
    ensures "--" <= t + ";" <==> "--" <= t
  {
    if "--" <= t + ";" {
      assert (t + ";")[0] == '-' && (t + ";")[1] == '-';
    }
  }

  /** A trailing semicolon does not make a line a comment. */
  lemma {:induction false} SemicolonIsNoComment(s: string)
    ensures IsComment(s + ";") ==> IsComment(s)
  {
    TrimWithSemicolon(s);
    DashesBeforeSemicolon(TrimLeft(s));
    if "--" <= TrimLeft(s) {
      TrimRightKeepsDashes(TrimLeft(s));
    }
    hide TrimLeft, TrimRight;
  }

  lemma {:induction false} SemicolonAddsNoComment(s: string, open: bool)
    requires !HasComment(Lines(s), open)
    ensures !HasComment(Lines(s + ";"), open)
    decreases |s|
  {
    hide IsComment, Open;
    var i := IndexOf(s, '\n');
    if i == |s| {
      IndexOfUnique(s + ";", '\n', |s| + 1);
      SemicolonIsNoComment(s);
      assert Lines(s) == [s] && Lines(s + ";") == [s + ";"];
      assert [s + ";"][1..] == [] && [s][1..] == [];
    } else {
      IndexOfUnique(s + ";", '\n', i);
      assert (s + ";")[..i] == s[..i] && (s + ";")[i + 1..] == s[i + 1..] + ";";
      assert Lines(s)[1..] == Lines(s[i + 1..]) && Lines(s + ";")[1..] == Lines(s[i + 1..] + ";");
      SemicolonAddsNoComment(s[i + 1..], open != Open(s[..i]));
    }
  }

  lemma {:induction false} BlankIsKept()
    ensures Kept(Lines(""), false) == "\n" && !Open("\n")
  {
    OpenChar('\n');
    assert IndexOf("", '\n') == 0;
    assert Lines("") == [""] && !IsComment("");
    assert [""][1..] == [];
    assert Kept([], false != Open("")) == "";
    assert Kept([""], false) == "" + "\n" + Kept([], false != Open(""));
  }

  /** One clean statement in front of a script is kept whole and leaves no literal open. */
  lemma {:induction false} StatementIsKept(s: string, rest: string)
    requires !HasComment(Lines(s), false) && !Open(s)
    ensures Kept(Lines(s + ";\n" + rest), false) == s + ";\n" + Kept(Lines(rest), false)
    ensures !Open(s + ";\n")
  {
    SemicolonAddsNoComment(s, false);
    KeptWhole(s + ";", false);
    assert s + ";\n" + rest == (s + ";") + "\n" + rest;
    assert s + ";\n" == s + ";" + "\n";
    LinesConcat(s + ";", rest);
    KeptConcat(Lines(s + ";"), Lines(rest), false);
    OpenConcat(s + ";", "\n");
    OpenConcat(s, ";");
    OpenChar(';');
    OpenChar('\n');
    hide Lines, Kept, HasComment, Open;
  }

  /** All of a script is kept, and it leaves no literal open. */
  lemma {:induction false} ScriptIsKept(statements: seq<string>)
    requires forall i | 0 <= i < |statements| :: !HasComment(Lines(statements[i]), false) && !Open(statements[i])
    ensures Kept(Lines(ScriptOf(statements)), false) == ScriptOf(statements) + "\n"
    ensures !Open(ScriptOf(statements) + "\n")
  {
    hide Lines, Kept, HasComment, Open;
    if statements == [] {
      BlankIsKept();
      assert "" + "\n" == "\n";
    } else {
      var s, rest := statements[0], ScriptOf(statements[1..]);
      ScriptIsKept(statements[1..]);
      StatementIsKept(s, rest);
      assert s + ";\n" + (rest + "\n") == ScriptOf(statements) + "\n";
      OpenConcat(s + ";\n", rest + "\n");
    }
  }

  lemma {:induction false} CleanConcat(a: seq<string>, b: seq<string>)
    ensures Clean(a + b) == Clean(a) + Clean(b)
  {
    hide TrimSpace;
    if b == [] {
      assert a + b == a;
    } else {
      assert (a + b)[..|a + b| - 1] == a + b[..|b| - 1];
      CleanConcat(a, b[..|b| - 1]);
    }
  }

  lemma {:induction false} FirstEndUnique(text: string, i: nat)
    requires i <= |text| && (forall k | 0 <= k < i :: !Ends(text, k)) && (i < |text| ==> Ends(text, i))
    ensures FirstEnd(text, 0) == i
  {
    hide Ends, FirstEnd;
  }

  /** The first end of a script comes right after its first statement. */
  lemma {:induction false} FirstStatementEnds(lead: string, s: string, rest: string)
    requires lead == "" || lead == "\n"
    requires !Open(s) && forall i | 0 <= i < |s| :: !Ends(s, i)
    ensures FirstEnd(lead + s + ";" + rest, 0) == |lead| + |s|
  {
    var text := lead + s + ";" + rest;
    assert Quotes("") == 0;
    OpenChar('\n');
    assert !Open(lead);
    forall k | 0 <= k < |lead| + |s|
      ensures !Ends(text, k)
    {
      if |lead| <= k {
        var i := k - |lead|;
        assert text[..k] == lead + s[..i] && text[k] == s[i];
        OpenConcat(lead, s[..i]);
        assert !Ends(s, i);
      }
    }
    assert text[..|lead| + |s|] == lead + s;
    OpenConcat(lead, s);
    FirstEndUnique(text, |lead| + |s|);
  }

  lemma {:induction false} BlankCleans(lead: string)
    requires lead == "" || lead == "\n"
    ensures Clean(Pieces(lead + "" + "\n")) == []
  {
    var blank := lead + "" + "\n";
    assert blank == "\n" || blank == "\n\n";
    FirstEndUnique(blank, |blank|);
    assert Pieces(blank) == [blank];
    assert "\n\n"[1..] == "\n" && "\n"[1..] == "";
    assert TrimLeft("\n") == "" && TrimLeft("\n\n") == TrimLeft("\n");
    assert [blank][..0] == [];
  }

  /** Splitting off the first statement of some text. */
  lemma {:induction false} FirstStatementCleans(lead: string, s: string, tail: string)
    requires (lead == "" || lead == "\n") && s != "" && TrimSpace(s) == s
    requires !Open(s) && forall i | 0 <= i < |s| :: !Ends(s, i)
    ensures Clean(Pieces(lead + s + ";" + tail)) == [s] + Clean(Pieces(tail))
  {
    hide Ends, FirstEnd, TrimSpace, Open, Clean;
    var text := lead + s + ";" + tail;
    FirstStatementEnds(lead, s, tail);
    assert text[..|lead| + |s|] == lead + s && text[|lead| + |s| + 1..] == tail;
    assert Pieces(text) == [lead + s] + Pieces(tail);
    CleanConcat([lead + s], Pieces(tail));
    LeadTrims(lead, s);
    CleanOne(lead + s);
  }

  lemma {:induction false} CleanOne(s: string)
    ensures Clean([s]) == if TrimSpace(s) == "" then [] else [TrimSpace(s)]
  {
    hide TrimSpace;
    assert [s][..|[s]| - 1] == [];
    assert Clean([]) == [];
  }

  lemma {:induction false} ScriptCleans(statements: seq<string>, lead: string)
    requires lead == "" || lead == "\n"
    requires forall i | 0 <= i < |statements| :: CleanStatement(statements[i])
    ensures Clean(Pieces(lead + ScriptOf(statements) + "\n")) == statements
    decreases |statements|
  {
    hide Pieces, Clean, TrimSpace, Open, Ends, HasComment, Contains, Lines;
    if statements == [] {
      BlankCleans(lead);
    } else {
      var s, rest := statements[0], ScriptOf(statements[1..]);
      var tail := "\n" + rest + "\n";
      assert lead + ScriptOf(statements) + "\n" == lead + s + ";" + tail;
      ScriptCleans(statements[1..], "\n");
      FirstStatementCleans(lead, s, tail);
    }
  }

  lemma {:induction false} LeadTrims(lead: string, s: string)
    requires (lead == "" || lead == "\n") && TrimSpace(s) == s
    ensures TrimSpace(lead + s) == s
  {
    if lead == "\n" {
      assert (lead + s)[1..] == s;
    } else {
      assert lead + s == s;
    }
  }

  /** Printing clean statements, each ended by a semicolon and a newline, and splitting gives them back. */
  lemma {:induction false} SplitUndoesPrint(statements: seq<string>)
    requires forall i | 0 <= i < |statements| :: CleanStatement(statements[i])
    ensures Statements(ScriptOf(statements)) == Ok(statements)
  {
    hide Contains, Kept, Lines, Open, Clean, Pieces, ScriptOf, HasComment, TrimSpace, Ends;
    ScriptHasNoDollars(statements);
    ScriptIsKept(statements);
    ScriptCleans(statements, "");
    assert "" + ScriptOf(statements) + "\n" == ScriptOf(statements) + "\n";
  }

  /** The text left after the semicolon of "a;--b" is one piece, whose trimmed text is "--b". */
  lemma {:induction false} TrailerCleans()
    ensures Clean(Pieces("--b\n")) == ["--b"]
  {
    FirstEndUnique("--b\n", 4);
    assert Pieces("--b\n") == ["--b\n"];
    assert "--b\n"[..3] == "--b";
    assert TrimSpace("--b\n") == "--b";
    CleanOne("--b\n");
  }

  lemma {:induction false} TrailerIsComment()
    ensures HasComment(Lines("--b"), false)
  {
    FirstLine("--b", 3);
    assert IsComment("--b");
  }

  lemma {:induction false} OneLetter()
    ensures TrimSpace("a") == "a" && !Open("a") && !Ends("a", 0)
  {
    assert "a"[..0] == "" && Quotes("") == 0;
  }

  // ---- Only clean statements come back ----

  predicate Trimmed(s: string) {
    s == "" || (!IsSpace(s[0]) && !IsSpace(s[|s| - 1]))
  }

  predicate Blank(s: string) {
    forall i | 0 <= i < |s| :: IsSpace(s[i])
  }

  lemma {:induction false} TrimLeftCuts(s: string) returns (a: nat)
    ensures a <= |s| && TrimLeft(s) == s[a..] && Blank(s[..a])
    ensures a < |s| ==> !IsSpace(s[a])
  {
    a := 0;
    if s != "" && IsSpace(s[0]) {
      var b := TrimLeftCuts(s[1..]);
      a := b + 1;
      assert s[1..][b..] == s[a..];
      assert forall i | 0 < i < a :: s[i] == s[1..][..b][i - 1];
    }
  }

  lemma {:induction false} TrimRightCuts(s: string) returns (b: nat)
    ensures b <= |s| && TrimRight(s) == s[..b] && Blank(s[b..])
    ensures b > 0 ==> !IsSpace(s[b - 1])
  {
    b := |s|;
    if s != "" && IsSpace(s[|s| - 1]) {
      b := TrimRightCuts(s[..|s| - 1]);
      assert s[..|s| - 1][..b] == s[..b];
      assert forall i | b <= i < |s| - 1 :: s[i] == s[..|s| - 1][b..][i - b];
    }
  }

  /** Trimming cuts off blanks at both ends and leaves trimmed text. */
  lemma {:induction false} TrimCuts(s: string) returns (a: nat, b: nat)
    ensures a <= b <= |s| && TrimSpace(s) == s[a..b] && Blank(s[..a]) && Blank(s[b..])
    ensures Trimmed(TrimSpace(s))
  {
    a := TrimLeftCuts(s);
    var n := TrimRightCuts(s[a..]);
    b := a + n;
    assert s[a..][..n] == s[a..b] && s[a..][n..] == s[b..];
    if n > 0 {
      assert s[a..b][0] == s[a] && s[a..b][n - 1] == s[a..][n - 1];
      assert s[a] == s[a..][0];
    }
  }

  lemma {:induction false} TrimmedStays(s: string)
    ensures TrimSpace(s) == s <==> Trimmed(s)
  {
    var a, b := TrimCuts(s);
  }

  lemma {:induction false} BlankHasNoQuotes(s: string)
    requires Blank(s)
    ensures Quotes(s) == 0
  {
    if s != "" {
      BlankHasNoQuotes(s[..|s| - 1]);
    }
  }

  /** Trimming changes neither the quotes nor the ends of a piece. */
  lemma {:induction false} TrimKeeps(p: string)
    ensures Open(TrimSpace(p)) == Open(p)
    ensures (forall k | 0 <= k < |p| :: !Ends(p, k)) ==> forall k | 0 <= k < |TrimSpace(p)| :: !Ends(TrimSpace(p), k)
  {
    hide TrimSpace, Ends, Open, Blank, Trimmed;
    var a, b := TrimCuts(p);
    CutKeepsQuotes(p, a, b);
    if forall k | 0 <= k < |p| :: !Ends(p, k) {
      CutKeepsEnds(p, a, b);
    }
  }

  lemma {:induction false} CutKeepsQuotes(p: string, a: nat, b: nat)
    requires a <= b <= |p| && Blank(p[..a]) && Blank(p[b..])
    ensures Open(p[a..b]) == Open(p)
  {
    hide Blank, Quotes;
    BlankHasNoQuotes(p[..a]);
    BlankHasNoQuotes(p[b..]);
    QuotesConcat(p[..a] + p[a..b], p[b..]);
    QuotesConcat(p[..a], p[a..b]);
    assert p == p[..a] + p[a..b] + p[b..];
  }

  lemma {:induction false} CutKeepsEnds(p: string, a: nat, b: nat)
    requires a <= b <= |p| && Blank(p[..a])
    requires forall k | 0 <= k < |p| :: !Ends(p, k)
    ensures forall k | 0 <= k < |p[a..b]| :: !Ends(p[a..b], k)
  {
    hide Blank, Quotes;
    BlankHasNoQuotes(p[..a]);
    forall k | 0 <= k < b - a
      ensures !Ends(p[a..b], k)
    {
      assert p[..a + k] == p[..a] + p[a..b][..k];
      QuotesConcat(p[..a], p[a..b][..k]);
      assert !Ends(p, a + k);
    }
  }

  /** A stretch between ends: no end inside, and no literal left open. */
  predicate Whole(p: string) {
    !Open(p) && forall k | 0 <= k < |p| :: !Ends(p, k)
  }

  lemma {:induction false} PiecesWhole(text: string)
    requires !Open(text)
    ensures forall i | 0 <= i < |Pieces(text)| :: Whole(Pieces(text)[i])
    decreases |text|
  {
    var i := FirstEnd(text, 0);
    if i < |text| {
      OpenAfterEnd(text, i);
      PiecesWhole(text[i + 1..]);
      forall k | 0 <= k < i
        ensures !Ends(text[..i], k)
      {
        assert text[..i][..k] == text[..k];
        assert !Ends(text, k);
      }
      assert Whole(text[..i]);
    }
  }

  /** A statement that can come out of the splitter. */
  predicate Yielded(s: string) {
    s != "" && Trimmed(s) && Whole(s)
  }

  lemma {:induction false} CleanYields(pieces: seq<string>)
    requires forall i | 0 <= i < |pieces| :: Whole(pieces[i])
    ensures forall i | 0 <= i < |Clean(pieces)| :: Yielded(Clean(pieces)[i])
    ensures |Clean(pieces)| <= |pieces|
  {
    if pieces != [] {
      var p := pieces[|pieces| - 1];
      CleanYields(pieces[..|pieces| - 1]);
      TrimKeeps(p);
      var a, b := TrimCuts(p);
      hide TrimSpace, Ends, Open;
      assert TrimSpace(p) != "" ==> Yielded(TrimSpace(p));
    }
  }

  // ---- Counting what is printed ----

  /** The characters that are not white space. */
  function Ink(s: string): nat {
    if s == "" then 0 else Ink(s[..|s| - 1]) + (if IsSpace(s[|s| - 1]) then 0 else 1)
  }

  function InkAll(lines: seq<string>): nat {
    if lines == [] then 0 else Ink(lines[0]) + InkAll(lines[1..])
  }

  lemma {:induction false} InkConcat(a: string, b: string)
    ensures Ink(a + b) == Ink(a) + Ink(b)
  {
    if b == "" {
      assert a + b == a;
    } else {
      assert (a + b)[..|a + b| - 1] == a + b[..|b| - 1];
      InkConcat(a, b[..|b| - 1]);
    }
  }

  lemma InkChar(c: char)
    ensures Ink([c]) == if IsSpace(c) then 0 else 1
  {
    assert [c][..|[c]| - 1] == "";
    assert Ink("") == 0;
  }

  lemma {:induction false} InkAllConcat(a: seq<string>, b: seq<string>)
    ensures InkAll(a + b) == InkAll(a) + InkAll(b)
  {
    if a == [] {
      assert a + b == b;
    } else {
      assert (a + b)[1..] == a[1..] + b;
      InkAllConcat(a[1..], b);
    }
  }

  lemma {:induction false} BlankHasNoInk(s: string)
    requires Blank(s)
    ensures Ink(s) == 0
  {
    if s != "" {
      BlankHasNoInk(s[..|s| - 1]);
    }
  }

  lemma {:induction false} TrimKeepsInk(p: string)
    ensures Ink(TrimSpace(p)) == Ink(p)
  {
    var a, b := TrimCuts(p);
    var s := TrimSpace(p);
    hide TrimSpace;
    assert p == p[..a] + s + p[b..];
    BlankHasNoInk(p[..a]);
    BlankHasNoInk(p[b..]);
    InkConcat(p[..a] + s, p[b..]);
    InkConcat(p[..a], s);
  }

  lemma InkOne(s: string)
    ensures InkAll([s]) == Ink(s)
  {
    hide Ink;
    assert [s][1..] == [];
  }

  lemma {:induction false} CleanKeepsInk(pieces: seq<string>)
    ensures InkAll(Clean(pieces)) == InkAll(pieces)
  {
    hide TrimSpace, Ink, InkAll;
    if pieces != [] {
      var init, p := pieces[..|pieces| - 1], pieces[|pieces| - 1];
      CleanKeepsInk(init);
      TrimKeepsInk(p);
      assert pieces == init + [p];
      InkAllConcat(init, [p]);
      var t := TrimSpace(p);
      InkAllConcat(Clean(init), if t == "" then [] else [t]);
      NoInk();
      InkOne(p);
      InkOne(t);
    }
  }

  lemma NoInk()
    ensures Ink("") == 0 && InkAll([]) == 0
  {
  }

  lemma {:induction false} InkAround(s: string, i: nat)
    requires i < |s|
    ensures Ink(s) == Ink(s[..i]) + (if IsSpace(s[i]) then 0 else 1) + Ink(s[i + 1..])
  {
    InkChar(s[i]);
    hide Ink, IsSpace;
    assert s == s[..i] + [s[i]] + s[i + 1..];
    InkConcat(s[..i] + [s[i]], s[i + 1..]);
    InkConcat(s[..i], [s[i]]);
  }

  lemma SpaceOfCuts()
    ensures !IsSpace(';') && IsSpace('\n')
  {
  }

  /** Cutting text at its ends loses one semicolon for every cut. */
  lemma {:induction false} PiecesKeepInk(text: string)
    ensures Ink(text) == InkAll(Pieces(text)) + |Pieces(text)| - 1
    decreases |text|
  {
    var i := FirstEnd(text, 0);
    if i < |text| {
      PiecesKeepInk(text[i + 1..]);
      InkAround(text, i);
      SpaceOfCuts();
      hide FirstEnd, Ends, Ink, IsSpace;
      assert ([text[..i]] + Pieces(text[i + 1..]))[1..] == Pieces(text[i + 1..]);
    } else {
      assert [text][1..] == [];
    }
  }

  lemma {:induction false} LinesKeepInk(s: string)
    ensures InkAll(Lines(s)) == Ink(s)
    decreases |s|
  {
    var i := IndexOf(s, '\n');
    if i < |s| {
      LinesKeepInk(s[i + 1..]);
      InkAround(s, i);
      SpaceOfCuts();
      hide IndexOf, Ink, IsSpace;
      assert ([s[..i]] + Lines(s[i + 1..]))[1..] == Lines(s[i + 1..]);
    } else {
      assert [s][1..] == [];
    }
  }

  lemma {:induction false} CommentHasInk(line: string)
    requires IsComment(line)
    ensures 2 <= Ink(line)
  {
    TrimKeepsInk(line);
    var t := TrimSpace(line);
    hide TrimSpace;
    assert t == "--" + t[2..];
    InkConcat("--", t[2..]);
    InkChar('-');
    InkConcat("-", "-");
    assert "-" + "-" == "--";
  }

  /** A comment line that is dropped takes its ink with it. */
  lemma {:induction false} KeptInk(lines: seq<string>, open: bool)
    ensures Ink(Kept(lines, open)) <= InkAll(lines)
    ensures HasComment(lines, open) ==> Ink(Kept(lines, open)) + 2 <= InkAll(lines)
  {
    if lines == [] {
      assert Ink("") == 0;
    } else if !open && IsComment(lines[0]) {
      CommentHasInk(lines[0]);
      KeptInk(lines[1..], open);
    } else {
      var after := open != Open(lines[0]);
      KeptInk(lines[1..], after);
      hide IsComment, Ink, Open;
      InkConcat(lines[0] + "\n", Kept(lines[1..], after));
      InkConcat(lines[0], "\n");
      InkChar('\n');
    }
  }

  lemma {:induction false} ScriptInk(statements: seq<string>)
    ensures Ink(ScriptOf(statements)) == InkAll(statements) + |statements|
  {
    if statements == [] {
      assert Ink("") == 0;
    } else {
      var s, rest := statements[0], ScriptOf(statements[1..]);
      ScriptInk(statements[1..]);
      hide Ink;
      assert s + ";\n" + rest == s + ";" + "\n" + rest;
      InkConcat(s + ";" + "\n", rest);
      InkConcat(s + ";", "\n");
      InkConcat(s, ";");
      InkChar(';');
      InkChar('\n');
    }
  }

  /** If as many statements come back as were printed, with the same ink, no comment was dropped. */
  lemma {:induction false} NothingWasDropped(statements: seq<string>)
    requires Clean(Pieces(Kept(Lines(ScriptOf(statements)), false))) == statements
    ensures !HasComment(Lines(ScriptOf(statements)), false)
  {
    var script := ScriptOf(statements);
    var lines := Lines(script);
    var text := Kept(lines, false);
    var pieces := Pieces(text);
    ScriptInk(statements);
    LinesKeepInk(script);
    KeptInk(lines, false);
    PiecesKeepInk(text);
    CleanKeepsInk(pieces);
    CleanIsNoLonger(pieces);
    hide ScriptOf, Lines, Kept, Pieces, Clean, Ink, InkAll, HasComment;
  }

  lemma {:induction false} CleanIsNoLonger(pieces: seq<string>)
    ensures |Clean(pieces)| <= |pieces|
  {
    if pieces != [] {
      CleanIsNoLonger(pieces[..|pieces| - 1]);
    }
  }

  // ---- A comment or a dollar pair in a statement is one in the script ----

  /** Whether reading the lines leaves a literal open that was not open before. */
  predicate Flips(lines: seq<string>) {
    lines != [] && (Open(lines[0]) != Flips(lines[1..]))
  }

  lemma {:induction false} LinesFlip(s: string)
    ensures Flips(Lines(s)) == Open(s)
    decreases |s|
  {
    hide Open;
    var i := IndexOf(s, '\n');
    FirstLine(s, i);
    if i < |s| {
      LinesFlip(s[i + 1..]);
      assert s == s[..i] + "\n" + s[i + 1..];
      OpenConcat(s[..i] + "\n", s[i + 1..]);
      OpenConcat(s[..i], "\n");
      OpenChar('\n');
      assert ([s[..i]] + Lines(s[i + 1..]))[1..] == Lines(s[i + 1..]);
    } else {
      assert [s][1..] == [];
    }
  }

  lemma {:induction false} CommentConcat(a: seq<string>, b: seq<string>, open: bool)
    ensures HasComment(a + b, open) <==> HasComment(a, open) || HasComment(b, open != Flips(a))
  {
    hide IsComment, Open;
    if a == [] {
      assert a + b == b;
    } else {
      assert (a + b)[1..] == a[1..] + b;
      CommentConcat(a[1..], b, open != Open(a[0]));
    }
  }

  lemma {:induction false} SemicolonKeepsComment(s: string)
    ensures IsComment(s) ==> IsComment(s + ";")
  {
    TrimWithSemicolon(s);
    var t := TrimLeft(s);
    DashesBeforeSemicolon(t);
    var b := TrimRightCuts(t);
    hide TrimLeft, TrimRight;
    if "--" <= t[..b] {
      assert t[..b][0] == '-' && t[..b][1] == '-';
    }
  }

  lemma {:induction false} CommentOne(line: string, open: bool)
    ensures HasComment([line], open) <==> !open && IsComment(line)
  {
    hide IsComment, Open;
    assert [line][1..] == [];
    assert !HasComment([], open != Open(line));
  }

  lemma {:induction false} SemicolonKeepsComments(s: string, open: bool)
    ensures HasComment(Lines(s), open) ==> HasComment(Lines(s + ";"), open)
    decreases |s|
  {
    hide IsComment, Open, Lines;
    var i := IndexOf(s, '\n');
    FirstLine(s, i);
    if i == |s| {
      FirstLine(s + ";", |s| + 1);
      SemicolonKeepsComment(s);
      CommentOne(s, open);
      CommentOne(s + ";", open);
    } else {
      FirstLine(s + ";", i);
      assert (s + ";")[..i] == s[..i] && (s + ";")[i + 1..] == s[i + 1..] + ";";
      SemicolonKeepsComments(s[i + 1..], open != Open(s[..i]));
      assert ([s[..i]] + Lines(s[i + 1..]))[1..] == Lines(s[i + 1..]);
      assert ([s[..i]] + Lines(s[i + 1..] + ";"))[1..] == Lines(s[i + 1..] + ";");
    }
  }

  lemma {:induction false} CommentShows(statements: seq<string>, i: nat)
    requires i < |statements| && forall k | 0 <= k < |statements| :: !Open(statements[k])
    ensures HasComment(Lines(statements[i]), false) ==> HasComment(Lines(ScriptOf(statements)), false)
  {
    hide HasComment, Lines, Open;
    var s, rest := statements[0], ScriptOf(statements[1..]);
    assert s + ";\n" + rest == s + ";" + "\n" + rest;
    LinesConcat(s + ";", rest);
    CommentConcat(Lines(s + ";"), Lines(rest), false);
    LinesFlip(s + ";");
    OpenConcat(s, ";");
    OpenChar(';');
    if i == 0 {
      SemicolonKeepsComments(s, false);
    } else {
      CommentShows(statements[1..], i - 1);
    }
  }

  lemma {:induction false} DollarsShow(statements: seq<string>, i: nat)
    requires i < |statements|
    ensures Contains(statements[i], "$$") ==> Contains(ScriptOf(statements), "$$")
  {
    var s, rest := statements[0], ScriptOf(statements[1..]);
    var all := s + ";\n" + rest;
    ContainsDollars(s);
    ContainsDollars(rest);
    ContainsDollars(all);
    hide Contains;
    if i > 0 {
      DollarsShow(statements[1..], i - 1);
    }
    assert forall k | 0 <= k < |s| :: DollarsAt(s, k) ==> DollarsAt(all, k);
    assert forall k | 0 <= k < |rest| :: DollarsAt(rest, k) ==> DollarsAt(all, |s| + 2 + k);
  }

  lemma {:induction false} YieldedIsClean(statements: seq<string>, i: nat)
    requires Statements(ScriptOf(statements)) == Ok(statements) && i < |statements|
    ensures CleanStatement(statements[i])
  {
    var text := Kept(Lines(ScriptOf(statements)), false);
    PiecesWhole(text);
    CleanYields(Pieces(text));
    NothingWasDropped(statements);
    DollarsShow(statements, i);
    TrimmedStays(statements[i]);
    hide Lines, Kept, Pieces, Clean, HasComment, Contains, TrimSpace, Open, Ends, ScriptOf;
    assert forall k | 0 <= k < |statements| :: Yielded(statements[k]) && Whole(statements[k]);
    CommentShows(statements, i);
  }

  /** Statements printed one after another, each ended by a semicolon and a newline, come
      back from the splitter exactly when every one of them is clean. */
  lemma {:induction false} SplitUndoesPrintExactly(statements: seq<string>)
    ensures Statements(ScriptOf(statements)) == Ok(statements) <==>
            forall i | 0 <= i < |statements| :: CleanStatement(statements[i])
  {
    hide CleanStatement, Statements, ScriptOf;
    if forall i | 0 <= i < |statements| :: CleanStatement(statements[i]) {
      SplitUndoesPrint(statements);
    }
    if Statements(ScriptOf(statements)) == Ok(statements) {
      forall i | 0 <= i < |statements|
        ensures CleanStatement(statements[i])
      {
        YieldedIsClean(statements, i);
      }
    }
  }

  // ---- A statement that does not come back ----

  /** A comment that trails a statement on its line is not dropped: it becomes the
      head of the next statement, which printing would then lose. */
  lemma {:induction false} TrailingCommentLeaks()
    ensures Statements("a;--b") == Ok(["a", "--b"])
    ensures !CleanStatement("--b") && Statements(ScriptOf(["a", "--b"])) != Ok(["a", "--b"])
  {
    TrailerStays();
    hide Pieces, Clean, Lines, Kept, TrimSpace, Open, Ends, HasComment, Contains, ScriptOf, CleanStatement;
    OneLetter();
    assert "a;--b\n" == "" + "a" + ";" + "--b\n";
    FirstStatementCleans("", "a", "--b\n");
    TrailerCleans();
    assert ["a"] + ["--b"] == ["a", "--b"];
    TrailerIsNotClean();
    SplitUndoesPrintExactly(["a", "--b"]);
    assert ["a", "--b"][1] == "--b";
  }

  lemma {:induction false} TrailerIsNotClean()
    ensures !CleanStatement("--b")
  {
    TrailerIsComment();
  }

  lemma {:induction false} TrailerStays()
    ensures Kept(Lines("a;--b"), false) == "a;--b\n" && !Open("a;--b\n") && !Contains("a;--b", "$$")
  {
    ContainsDollars("a;--b");
    FirstLine("a;--b", 5);
    TrimmedStays("a;--b");
    CommentOne("a;--b", false);
    KeptWhole("a;--b", false);
    NoQuotes("a;--b\n");
  }

  lemma {:induction false} NoQuotes(s: string)
    requires '\'' !in s
    ensures Quotes(s) == 0
  {
    if s != "" {
      NoQuotes(s[..|s| - 1]);
    }
  }
}
