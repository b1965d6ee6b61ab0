/** What the splitter's words mean, character by character: white space by code point,
    a comment line by its first characters, a quote by counting. Only the theorems
    mention the splitter. */
module SqlText {
  import opened Text
  import opened Wrappers
  import opened Splitter
  import opened Scripts

  // ---- The words ----

  /** The code points Unicode calls white space. */
  ghost predicate WhiteSpace(code: int) {
    || code == 0x9 || code == 0xA || code == 0xB || code == 0xC || code == 0xD || code == 0x20 || code == 0x85
    || code == 0xA0 || code == 0x1680 || code == 0x2000 || code == 0x2001 || code == 0x2002 || code == 0x2003
    || code == 0x2004 || code == 0x2005 || code == 0x2006 || code == 0x2007 || code == 0x2008 || code == 0x2009
    || code == 0x200A || code == 0x2028 || code == 0x2029 || code == 0x202F || code == 0x205F || code == 0x3000
  }

  ghost predicate White(s: string, from: nat, to: nat)
    requires to <= |s|
  {
    forall k | from <= k < to :: WhiteSpace(s[k] as int)
  }

  ghost predicate PairAt(s: string, i: nat, c: char) {
    i + 1 < |s| && s[i] == c && s[i + 1] == c
  }

  /** White space, and then two dashes. */
  ghost predicate CommentLine(line: string) {
    exists q | 0 <= q < |line| :: White(line, 0, q) && PairAt(line, q, '-')
  }

  ghost predicate NoDollars(s: string) {
    forall i | 0 <= i < |s| :: !PairAt(s, i, '$')
  }

  ghost predicate OneLine(s: string) {
    forall i | 0 <= i < |s| :: s[i] != '\n'
  }

  ghost predicate AllLines(lines: seq<string>) {
    forall i | 0 <= i < |lines| :: OneLine(lines[i])
  }

  ghost function Join(lines: seq<string>): string
    requires lines != []
  {
    if |lines| == 1 then lines[0] else lines[0] + "\n" + Join(lines[1..])
  }

  ghost function QuoteCount(s: string, n: nat): nat
    requires n <= |s|
  {
    |set i | 0 <= i < n && s[i] == '\''|
  }

  /** A line starts at p outside any literal, and is white space up to the two dashes at q. */
  ghost predicate CommentFrom(s: string, p: nat, q: nat)
    requires p <= q <= |s|
  {
    && (p == 0 || s[p - 1] == '\n')
    && QuoteCount(s, p) % 2 == 0
    && White(s, p, q) && '\n' !in s[p..q]
    && PairAt(s, q, '-')
  }

  ghost predicate NoComments(s: string) {
    forall p, q | 0 <= p <= q <= |s| :: !CommentFrom(s, p, q)
  }

  /** A semicolon outside any literal. */
  ghost predicate Outer(s: string, k: nat) {
    k < |s| && s[k] == ';' && QuoteCount(s, k) % 2 == 0
  }

  datatype Span = Span(from: nat, to: nat)

  ghost predicate Inside(spans: seq<Span>, k: nat) {
    exists i | 0 <= i < |spans| :: spans[i].from <= k < spans[i].to
  }

  /** A statement in place: it begins and ends with ink and no outer semicolon is in it. */
  ghost predicate Spanned(s: string, statement: string, span: Span) {
    && span.from < span.to <= |s| && statement == s[span.from..span.to]
    && !WhiteSpace(s[span.from] as int) && !WhiteSpace(s[span.to - 1] as int)
    && (forall k | span.from <= k < span.to :: !Outer(s, k))
  }

  ghost predicate Parted(s: string, a: Span, b: Span) {
    exists k | a.to <= k < b.from :: Outer(s, k)
  }

  /** The statements lie in the text in order, an outer semicolon between any two, and
      all else is white space and outer semicolons. */
  ghost predicate LaidOut(s: string, statements: seq<string>, spans: seq<Span>) {
    && |spans| == |statements|
    && (forall i | 0 <= i < |spans| :: Spanned(s, statements[i], spans[i]))
    && (forall i, j | 0 <= i < j < |spans| :: Parted(s, spans[i], spans[j]))
    && (forall k | 0 <= k < |s| :: Inside(spans, k) || WhiteSpace(s[k] as int) || Outer(s, k))
  }

  /** A statement with no semicolon and no comment line outside its literals. */
  ghost predicate PlainStatement(s: string) {
    && s != "" && !WhiteSpace(s[0] as int) && !WhiteSpace(s[|s| - 1] as int)
    && QuoteCount(s, |s|) % 2 == 0
    && (forall i | 0 <= i < |s| :: !Outer(s, i))
    && NoComments(s) && NoDollars(s)
  }

  // ---- White space and comments ----

  lemma SpaceMeans(c: char)
    ensures IsSpace(c) <==> WhiteSpace(c as int)
  {
  }

  lemma BlankMeans(s: string, from: nat, to: nat)
    requires from <= to <= |s|
    ensures Blank(s[from..to]) <==> White(s, from, to)
  {
    hide IsSpace, WhiteSpace;
    forall k | from <= k < to
      ensures IsSpace(s[k]) <==> WhiteSpace(s[k] as int)
    {
      SpaceMeans(s[k]);
    }
    assert forall k | from <= k < to :: s[from..to][k - from] == s[k];
  }

  /** A line is dropped outside a literal exactly when it is white space and two dashes. */
  lemma {:induction false} CommentMeans(line: string)
    ensures IsComment(line) <==> CommentLine(line)
  {
    hide TrimSpace, IsSpace, WhiteSpace;
    var a, b := TrimCuts(line);
    BlankMeans(line, 0, a);
    DashIsInk();
    if IsComment(line) {
      assert line[a..b][0] == '-' && line[a..b][1] == '-';
      assert PairAt(line, a, '-');
    }
    if q :| 0 <= q < |line| && White(line, 0, q) && PairAt(line, q, '-') {
      DashesSurvive(line, a, b, q);
    }
  }

  lemma DashIsInk()
    ensures !IsSpace('-')
  {
  }

  /** The first character that is not white space starts the trimmed line. */
  lemma {:induction false} DashesSurvive(line: string, a: nat, b: nat, q: nat)
    requires a <= b <= |line| && Blank(line[..a]) && Blank(line[b..]) && Trimmed(line[a..b])
    requires q < |line| && White(line, 0, q) && PairAt(line, q, '-')
    ensures a == q && "--" <= line[a..b]
  {
    hide IsSpace, WhiteSpace;
    DashIsInk();
    BlankMeans(line, 0, q);
    assert forall k | 0 <= k < a :: IsSpace(line[k]) by {
      assert forall k | 0 <= k < a :: line[k] == line[..a][k];
    }
    assert forall k | b <= k < |line| :: IsSpace(line[k]) by {
      assert forall k | b <= k < |line| :: line[k] == line[b..][k - b];
    }
    assert forall k | 0 <= k < q :: IsSpace(line[k]) by {
      assert forall k | 0 <= k < q :: line[k] == line[0..q][k];
    }
    assert a <= q && q + 1 < b;
    assert line[a] == line[a..b][0];
  }

  // ---- Lines ----

  /** Lines cuts at every newline and nowhere else: it is what a join undoes. */
  lemma {:induction false} LinesMeans(s: string, lines: seq<string>)
    ensures Lines(s) == lines <==> lines != [] && AllLines(lines) && Join(lines) == s
  {
    LinesJoin(s);
    if lines != [] && AllLines(lines) && Join(lines) == s {
      JoinLines(lines);
    }
  }

  lemma {:induction false} LinesJoin(s: string)
    ensures AllLines(Lines(s)) && Join(Lines(s)) == s
    decreases |s|
  {
    var i := IndexOf(s, '\n');
    if i < |s| {
      LinesJoin(s[i + 1..]);
      assert ([s[..i]] + Lines(s[i + 1..]))[1..] == Lines(s[i + 1..]);
      assert s == s[..i] + "\n" + s[i + 1..];
    }
  }

  lemma {:induction false} JoinLines(lines: seq<string>)
    requires lines != [] && AllLines(lines)
    ensures Lines(Join(lines)) == lines
  {
    hide Lines, IndexOf;
    var s := Join(lines);
    assert OneLine(lines[0]);
    FirstLine(s, |lines[0]|);
    if |lines| == 1 {
    } else {
      JoinLines(lines[1..]);
      assert |s| > |lines[0]|;
      assert s[..|lines[0]|] == lines[0] && s[|lines[0]| + 1..] == Join(lines[1..]);
      assert lines == [lines[0]] + lines[1..];
    }
  }

  lemma NoDollarsMeans(s: string)
    ensures NoDollars(s) <==> !Contains(s, "$$")
  {
    ContainsDollars(s);
    hide Contains;
    assert forall i | 0 <= i < |s| :: DollarsAt(s, i) <==> PairAt(s, i, '$');
  }

  lemma {:induction false} JoinDollars(lines: seq<string>)
    requires lines != []
    ensures NoDollars(Join(lines)) <==> forall i | 0 <= i < |lines| :: NoDollars(lines[i])
  {
    hide NoDollars;
    if |lines| == 1 {
    } else {
      var a, b := lines[0], Join(lines[1..]);
      JoinDollars(lines[1..]);
      DollarsApart(a, b);
      assert forall i | 1 <= i < |lines| :: lines[i] == lines[1..][i - 1];
    }
  }

  lemma DollarsApart(a: string, b: string)
    ensures NoDollars(a + "\n" + b) <==> NoDollars(a) && NoDollars(b)
  {
    var all := a + "\n" + b;
    assert forall i | 0 <= i < |a| :: PairAt(all, i, '$') <==> PairAt(a, i, '$');
    assert forall i | 0 <= i < |b| :: PairAt(all, |a| + 1 + i, '$') <==> PairAt(b, i, '$');
    assert forall i | |a| < i < |all| :: PairAt(all, i, '$') <==> PairAt(b, i - |a| - 1, '$');
    assert !PairAt(all, |a|, '$');
  }

  // ---- Comment lines change nothing ----

  /** A comment line put anywhere outside a literal leaves the statements and the errors as they were. */
  lemma {:induction false} CommentsChangeNothing(before: seq<string>, comment: string, after: seq<string>)
    requires before + after != [] && AllLines(before + after)
    requires OneLine(comment) && CommentLine(comment) && NoDollars(comment)
    requires before == [] || Statements(Join(before)) != Err(Unterminated)
    ensures Statements(Join(before + [comment] + after)) == Statements(Join(before + after))
  {
    hide *;
    var extended, plain := before + [comment] + after, before + after;
    LinesApart(before, comment, after);
    InsertKeepsDollars(before, comment, after);
    StatementsOf(extended);
    StatementsOf(plain);
    if NoDollars(Join(plain)) {
      OutsideLiteral(before, after);
      CommentMeans(comment);
      KeptAround(before, comment, after);
    }
  }

  lemma LinesApart(before: seq<string>, comment: string, after: seq<string>)
    requires AllLines(before + after) && OneLine(comment)
    ensures AllLines(before) && AllLines(before + [comment] + after)
  {
    hide OneLine;
    var extended, plain := before + [comment] + after, before + after;
    assert forall i | 0 <= i < |before| :: before[i] == plain[i] == extended[i];
    assert forall i | |before| < i < |extended| :: extended[i] == plain[i - 1];
  }

  lemma {:induction false} KeptAround(before: seq<string>, comment: string, after: seq<string>)
    requires IsComment(comment) && !Open(Kept(before, false))
    ensures Kept(before + [comment] + after, false) == Kept(before + after, false)
  {
    hide IsComment, Open, Kept;
    assert before + ([comment] + after) == before + [comment] + after;
    KeptConcat(before, [comment] + after, false);
    KeptConcat(before, after, false);
    KeptDrops(comment, after);
  }

  lemma StatementsOf(lines: seq<string>)
    requires lines != [] && AllLines(lines)
    ensures Statements(Join(lines)) ==
            if !NoDollars(Join(lines)) then Err(DollarQuoted)
            else if Open(Kept(lines, false)) then Err(Unterminated)
            else Ok(Clean(Pieces(Kept(lines, false))))
  {
    hide Lines, Join, Kept, Open, NoDollars, Contains, OneLine, Clean, Pieces;
    JoinLines(lines);
    NoDollarsMeans(Join(lines));
  }

  lemma {:induction false} InsertKeepsDollars(before: seq<string>, comment: string, after: seq<string>)
    requires before + after != [] && NoDollars(comment)
    ensures NoDollars(Join(before + [comment] + after)) <==> NoDollars(Join(before + after))
  {
    hide NoDollars, Join;
    var extended, plain := before + [comment] + after, before + after;
    JoinDollars(extended);
    JoinDollars(plain);
    assert forall i | 0 <= i < |before| :: extended[i] == plain[i];
    assert forall i | |before| <= i < |plain| :: extended[i + 1] == plain[i];
    assert forall i | |before| < i < |extended| :: extended[i] == plain[i - 1];
  }

  /** What comes before is a script of its own that leaves no literal open. */
  lemma {:induction false} OutsideLiteral(before: seq<string>, after: seq<string>)
    requires before + after != [] && AllLines(before) && NoDollars(Join(before + after))
    requires before == [] || Statements(Join(before)) != Err(Unterminated)
    ensures !Open(Kept(before, false))
  {
    hide Statements, Join, Open, NoDollars, OneLine, IsComment;
    if before == [] {
      OpensNothing();
    } else {
      JoinDollars(before);
      JoinDollars(before + after);
      assert forall i | 0 <= i < |before| :: before[i] == (before + after)[i];
      StatementsOf(before);
    }
  }

  lemma KeptDrops(comment: string, after: seq<string>)
    requires IsComment(comment)
    ensures Kept([comment] + after, false) == Kept(after, false)
  {
    hide IsComment;
    assert ([comment] + after)[1..] == after;
  }

  // ---- Clean statements, character by character ----

  lemma {:induction false} QuotesAreCounted(s: string, n: nat)
    requires n <= |s|
    ensures Quotes(s[..n]) == QuoteCount(s, n)
  {
    if n == 0 {
    } else {
      QuotesAreCounted(s, n - 1);
      assert s[..n][..n - 1] == s[..n - 1];
      var less := set i | 0 <= i < n - 1 && s[i] == '\'';
      var all := set i | 0 <= i < n && s[i] == '\'';
      assert all == if s[n - 1] == '\'' then less + {n - 1} else less;
    }
  }

  /** CommentFrom for text that follows an open or a closed literal. */
  ghost predicate CommentAfter(s: string, p: nat, q: nat, open: bool)
    requires p <= q <= |s|
  {
    && (p == 0 || s[p - 1] == '\n')
    && open == Open(s[..p])
    && White(s, p, q) && '\n' !in s[p..q]
    && PairAt(s, q, '-')
  }

  ghost predicate AnyComment(s: string, open: bool) {
    exists p, q | 0 <= p <= q <= |s| :: CommentAfter(s, p, q, open)
  }

  /** In the first line, the comment starts where the line does. */
  lemma {:induction false} FirstLineComment(s: string, i: nat, open: bool)
    requires i <= |s| && (forall k | 0 <= k < i :: s[k] != '\n') && (i < |s| ==> s[i] == '\n')
    ensures !open && IsComment(s[..i]) <==> exists q | 0 <= q <= |s| :: CommentAfter(s, 0, q, open)
  {
    hide IsComment, WhiteSpace, Quotes;
    CommentMeans(s[..i]);
    assert s[..0] == "";
    OpensNothing();
    var line := s[..i];
    if !open && CommentLine(line) {
      var q :| 0 <= q < |line| && White(line, 0, q) && PairAt(line, q, '-');
      assert White(s, 0, q) && PairAt(s, q, '-') by {
        assert forall k | 0 <= k < i :: s[k] == line[k];
      }
      assert CommentAfter(s, 0, q, open);
    }
    if q :| 0 <= q <= |s| && CommentAfter(s, 0, q, open) {
      assert q <= i by {
        assert forall k | 0 <= k < q :: s[k] == s[0..q][k];
      }
      assert White(line, 0, q) && PairAt(line, q, '-');
    }
  }

  lemma {:induction false} LaterComment(s: string, i: nat, p: nat, q: nat, open: bool)
    requires i < p <= q <= |s| && s[i] == '\n'
    ensures CommentAfter(s, p, q, open) <==>
            CommentAfter(s[i + 1..], p - i - 1, q - i - 1, open != Open(s[..i]))
  {
    hide Open, WhiteSpace;
    var rest := s[i + 1..];
    assert s[..p] == s[..i] + "\n" + rest[..p - i - 1];
    LineOpens(s[..i], rest[..p - i - 1]);
    assert s[p..q] == rest[p - i - 1..q - i - 1];
    assert White(s, p, q) <==> White(rest, p - i - 1, q - i - 1) by {
      assert forall k | p <= k < q :: s[k] == rest[k - i - 1];
      assert forall k | p - i - 1 <= k < q - i - 1 :: rest[k] == s[k + i + 1];
    }
  }

  lemma {:induction false} CommentsMean(s: string, open: bool)
    ensures HasComment(Lines(s), open) <==> AnyComment(s, open)
    decreases |s|
  {
    hide CommentAfter, IsComment, Open, Lines;
    var i := IndexOf(s, '\n');
    FirstLine(s, i);
    FirstLineComment(s, i, open);
    if i == |s| {
      CommentOne(s, open);
      assert s[..i] == s;
      NoLaterLine(s, open);
    } else {
      var rest := s[i + 1..];
      CommentsMean(rest, open != Open(s[..i]));
      assert ([s[..i]] + Lines(rest))[1..] == Lines(rest);
      CommentSplits(s, i, open);
    }
  }

  lemma NoLaterLine(s: string, open: bool)
    requires forall k | 0 <= k < |s| :: s[k] != '\n'
    ensures AnyComment(s, open) <==> exists q | 0 <= q <= |s| :: CommentAfter(s, 0, q, open)
  {
    hide Open, WhiteSpace;
  }

  lemma {:induction false} CommentSplits(s: string, i: nat, open: bool)
    requires i < |s| && (forall k | 0 <= k < i :: s[k] != '\n') && s[i] == '\n'
    ensures AnyComment(s, open) <==>
            (exists q | 0 <= q <= |s| :: CommentAfter(s, 0, q, open)) || AnyComment(s[i + 1..], open != Open(s[..i]))
  {
    hide Open, WhiteSpace, White;
    var rest, inner := s[i + 1..], open != Open(s[..i]);
    if p, q :| 0 <= p <= q <= |s| && CommentAfter(s, p, q, open) {
      if p > 0 {
        assert i < p;
        LaterComment(s, i, p, q, open);
      }
    }
    if p, q :| 0 <= p <= q <= |rest| && CommentAfter(rest, p, q, inner) {
      LaterComment(s, i, p + i + 1, q + i + 1, open);
    }
  }

  /** Clean is what it should be: the splitter's words and the characters agree. */
  lemma {:induction false} CleanMeans(s: string)
    ensures CleanStatement(s) <==> PlainStatement(s)
  {
    hide Contains, Lines, HasComment, TrimSpace, IsSpace, WhiteSpace, NoDollars, NoComments, QuoteCount, Quotes, Ends,
      Outer;
    TrimmedStays(s);
    NoDollarsMeans(s);
    if s != "" {
      SpaceMeans(s[0]);
      SpaceMeans(s[|s| - 1]);
    }
    assert s[..|s|] == s;
    QuotesAreCounted(s, |s|);
    EndsMean(s);
    NoCommentsMean(s);
  }

  lemma EndsMean(s: string)
    ensures forall k | 0 <= k < |s| :: Ends(s, k) <==> Outer(s, k)
  {
    hide Quotes, QuoteCount;
    forall k | 0 <= k < |s|
      ensures Ends(s, k) <==> Outer(s, k)
    {
      QuotesAreCounted(s, k);
    }
  }

  lemma NoCommentsMean(s: string)
    ensures NoComments(s) <==> !HasComment(Lines(s), false)
  {
    hide CommentFrom, CommentAfter, Lines, HasComment;
    CommentsMean(s, false);
    forall p, q | 0 <= p <= q <= |s|
      ensures CommentFrom(s, p, q) <==> CommentAfter(s, p, q, false)
    {
      FromIsAfter(s, p, q);
    }
  }

  lemma FromIsAfter(s: string, p: nat, q: nat)
    requires p <= q <= |s|
    ensures CommentFrom(s, p, q) <==> CommentAfter(s, p, q, false)
  {
    hide Quotes, QuoteCount, White, PairAt;
    QuotesAreCounted(s, p);
  }

  /** Printed statements come back exactly when each is plain. */
  lemma {:induction false} PlainStatementsComeBack(statements: seq<string>)
    ensures Statements(ScriptOf(statements)) == Ok(statements) <==>
            forall i | 0 <= i < |statements| :: PlainStatement(statements[i])
  {
    hide CleanStatement, PlainStatement, Statements, ScriptOf;
    SplitUndoesPrintExactly(statements);
    forall i | 0 <= i < |statements|
      ensures CleanStatement(statements[i]) <==> PlainStatement(statements[i])
    {
      CleanMeans(statements[i]);
    }
  }

  // ---- Any script, character by character ----

  /** The same layout in the splitter's own words. */
  ghost predicate Cut(s: string, statements: seq<string>, spans: seq<Span>) {
    && |spans| == |statements|
    && (forall i | 0 <= i < |spans| :: CutOut(s, statements[i], spans[i]))
    && (forall i, j | 0 <= i < j < |spans| :: CutApart(s, spans[i], spans[j]))
    && (forall k | 0 <= k < |s| :: Inside(spans, k) || IsSpace(s[k]) || Ends(s, k))
  }

  ghost predicate CutOut(s: string, statement: string, span: Span) {
    && span.from < span.to <= |s| && statement == s[span.from..span.to]
    && !IsSpace(s[span.from]) && !IsSpace(s[span.to - 1])
    && (forall k | span.from <= k < span.to :: !Ends(s, k))
  }

  ghost predicate CutApart(s: string, a: Span, b: Span) {
    exists k | a.to <= k < b.from :: Ends(s, k)
  }

  ghost function Shift(spans: seq<Span>, n: nat): seq<Span> {
    seq(|spans|, i requires 0 <= i < |spans| => Span(spans[i].from + n, spans[i].to + n))
  }

  lemma {:induction false} TrimSpan(p: string) returns (a: nat, b: nat)
    ensures a <= b <= |p| && TrimSpace(p) == p[a..b]
    ensures forall k | 0 <= k < |p| :: IsSpace(p[k]) || a <= k < b
    ensures a < b ==> !IsSpace(p[a]) && !IsSpace(p[b - 1])
  {
    hide TrimSpace, IsSpace;
    a, b := TrimCuts(p);
    assert forall k | 0 <= k < a :: p[k] == p[..a][k];
    assert forall k | b <= k < |p| :: p[k] == p[b..][k - b];
    assert a < b ==> p[a..b][0] == p[a] && p[a..b][b - a - 1] == p[b - 1];
  }

  /** Up to its first end, text holds at most one statement. */
  lemma {:induction false} FirstPieceCut(text: string, i: nat) returns (spans: seq<Span>)
    requires i <= |text| && forall k | 0 <= k < i :: !Ends(text, k)
    ensures Cut(text[..i], Clean([text[..i]]), spans)
    ensures forall s | s in spans :: s.to <= i
  {
    hide Ends, TrimSpace, IsSpace, Clean;
    var p := text[..i];
    PrefixEnds(text, i);
    CleanOne(p);
    var a, b := TrimSpan(p);
    spans := if a < b then [Span(a, b)] else [];
    forall k | a <= k < b
      ensures Inside(spans, k)
    {
      assert spans[0].from <= k < spans[0].to;
    }
  }

  lemma PrefixEnds(text: string, i: nat)
    requires i <= |text|
    ensures forall k | 0 <= k < i :: Ends(text[..i], k) <==> Ends(text, k)
  {
    assert forall k | 0 <= k < i :: text[..i][..k] == text[..k];
  }

  lemma SuffixEnds(text: string, i: nat, rest: string)
    requires Ends(text, i) && rest == text[i + 1..]
    ensures forall k | 0 <= k < |rest| :: Ends(rest, k) <==> Ends(text, i + 1 + k)
  {
    hide Quotes;
    forall k | 0 <= k < |rest|
      ensures Ends(rest, k) <==> Ends(text, i + 1 + k)
    {
      var upto := text[..i + 1 + k];
      assert upto[..i] == text[..i] && upto[i + 1..] == rest[..k];
      OpenAfterEnd(upto, i);
    }
  }

  /** Whatever the text, its cleaned pieces are cut out of it. */
  lemma {:induction false} PiecesCut(text: string) returns (spans: seq<Span>)
    ensures Cut(text, Clean(Pieces(text)), spans)
    decreases |text|
  {
    hide Cut, Clean, FirstEnd, Ends;
    var i := FirstEnd(text, 0);
    var first := FirstPieceCut(text, i);
    if i == |text| {
      assert text[..i] == text;
      spans := first;
    } else {
      var later := text[i + 1..];
      var rest := PiecesCut(later);
      CleanConcat([text[..i]], Pieces(later));
      spans := first + Shift(rest, i + 1);
      CutsJoin(text, i, later, Clean([text[..i]]), first, Clean(Pieces(later)), rest);
    }
  }

  lemma {:induction false} CutsJoin(text: string, i: nat, later: string, head: seq<string>, first: seq<Span>,
                                    tail: seq<string>, rest: seq<Span>)
    requires Ends(text, i) && later == text[i + 1..] && (forall s | s in first :: s.to <= i)
    requires Cut(text[..i], head, first) && Cut(later, tail, rest)
    ensures Cut(text, head + tail, first + Shift(rest, i + 1))
  {
    hide CutOut, CutApart, Inside;
    var spans := first + Shift(rest, i + 1);
    CutOutsJoin(text, i, later, head, first, tail, rest);
    forall j, m | 0 <= j < m < |spans|
      ensures CutApart(text, spans[j], spans[m])
    {
      JoinedApart(text, i, later, first, rest, j, m);
    }
    forall k | 0 <= k < |text|
      ensures Inside(spans, k) || IsSpace(text[k]) || Ends(text, k)
    {
      JoinedCovers(text, i, later, first, rest, k);
    }
  }

  lemma {:induction false} CutOutsJoin(text: string, i: nat, later: string, head: seq<string>, first: seq<Span>,
                                       tail: seq<string>, rest: seq<Span>)
    requires Ends(text, i) && later == text[i + 1..] && |head| == |first| && |tail| == |rest|
    requires forall j | 0 <= j < |first| :: CutOut(text[..i], head[j], first[j])
    requires forall j | 0 <= j < |rest| :: CutOut(later, tail[j], rest[j])
    ensures forall j | 0 <= j < |first| + |rest| ::
              CutOut(text, (head + tail)[j], (first + Shift(rest, i + 1))[j])
  {
    hide CutOut;
    forall j | 0 <= j < |first| + |rest|
      ensures CutOut(text, (head + tail)[j], (first + Shift(rest, i + 1))[j])
    {
      if |first| <= j {
        LaterCutOut(text, i, later, tail[j - |first|], rest[j - |first|]);
      } else {
        EarlierCutOut(text, i, head[j], first[j]);
      }
    }
  }

  lemma EarlierCutOut(text: string, i: nat, statement: string, span: Span)
    requires i <= |text| && CutOut(text[..i], statement, span)
    ensures CutOut(text, statement, span)
  {
    PrefixEnds(text, i);
    hide Ends, IsSpace;
    assert text[..i][span.from..span.to] == text[span.from..span.to];
  }

  lemma LaterCutOut(text: string, i: nat, later: string, statement: string, span: Span)
    requires Ends(text, i) && later == text[i + 1..] && CutOut(later, statement, span)
    ensures CutOut(text, statement, Span(span.from + i + 1, span.to + i + 1))
  {
    SuffixEnds(text, i, later);
    hide Open, IsSpace;
    assert later[span.from..span.to] == text[span.from + i + 1..span.to + i + 1];
    forall k | span.from + i + 1 <= k < span.to + i + 1
      ensures !Ends(text, k)
    {
      assert !Ends(later, k - i - 1);
    }
  }

  lemma {:induction false} JoinedApart(text: string, i: nat, later: string, first: seq<Span>, rest: seq<Span>, j: nat,
                                       m: nat)
    requires Ends(text, i) && later == text[i + 1..] && (forall s | s in first :: s.to <= i)
    requires j < m < |first| + |rest|
    requires forall a, b | 0 <= a < b < |first| :: CutApart(text[..i], first[a], first[b])
    requires forall a, b | 0 <= a < b < |rest| :: CutApart(later, rest[a], rest[b])
    ensures CutApart(text, (first + Shift(rest, i + 1))[j], (first + Shift(rest, i + 1))[m])
  {
    PrefixEnds(text, i);
    SuffixEnds(text, i, later);
    hide Open;
    if m < |first| {
      var k :| first[j].to <= k < first[m].from && Ends(text[..i], k);
      assert Ends(text, k);
    } else if |first| <= j {
      var k :| rest[j - |first|].to <= k < rest[m - |first|].from && Ends(later, k);
      assert Ends(text, i + 1 + k);
    } else {
      assert first[j] in first;
    }
  }

  lemma {:induction false} JoinedCovers(text: string, i: nat, later: string, first: seq<Span>, rest: seq<Span>, k: nat)
    requires Ends(text, i) && later == text[i + 1..] && k < |text|
    requires forall n | 0 <= n < i :: Inside(first, n) || IsSpace(text[..i][n]) || Ends(text[..i], n)
    requires forall n | 0 <= n < |later| :: Inside(rest, n) || IsSpace(later[n]) || Ends(later, n)
    ensures Inside(first + Shift(rest, i + 1), k) || IsSpace(text[k]) || Ends(text, k)
  {
    PrefixEnds(text, i);
    SuffixEnds(text, i, later);
    var spans := first + Shift(rest, i + 1);
    if k < i {
      hide Ends, IsSpace;
      assert text[..i][k] == text[k];
      if Inside(first, k) {
        var j :| 0 <= j < |first| && first[j].from <= k < first[j].to;
        assert spans[j] == first[j];
      }
    } else if i < k {
      var n := k - i - 1;
      assert later[n] == text[k];
      hide Ends, IsSpace;
      if Inside(rest, n) {
        var j :| 0 <= j < |rest| && rest[j].from <= n < rest[j].to;
        assert spans[|first| + j].from <= k < spans[|first| + j].to;
      }
    }
  }

  lemma CutMeans(s: string, statements: seq<string>, spans: seq<Span>)
    ensures Cut(s, statements, spans) ==> LaidOut(s, statements, spans)
  {
    EndsMean(s);
    hide IsSpace, WhiteSpace, Ends, Outer;
    forall k | 0 <= k < |s|
      ensures IsSpace(s[k]) <==> WhiteSpace(s[k] as int)
    {
      SpaceMeans(s[k]);
    }
    if Cut(s, statements, spans) {
      forall i | 0 <= i < |spans|
        ensures Spanned(s, statements[i], spans[i])
      {
        assert CutOut(s, statements[i], spans[i]);
      }
      forall i, j | 0 <= i < j < |spans|
        ensures Parted(s, spans[i], spans[j])
      {
        assert CutOut(s, statements[j], spans[j]) && CutApart(s, spans[i], spans[j]);
        var k :| spans[i].to <= k < spans[j].from && Ends(s, k);
        assert Outer(s, k);
      }
    }
  }

  /** The newline added to the last line lies in no statement. */
  lemma {:induction false} NewlineIsOutside(s: string, statements: seq<string>, spans: seq<Span>)
    requires Cut(s + "\n", statements, spans)
    ensures Cut(s, statements, spans)
  {
    EndsWithNewline(s);
    hide Ends;
    var t := s + "\n";
    forall i | 0 <= i < |spans|
      ensures CutOut(s, statements[i], spans[i])
    {
      assert CutOut(t, statements[i], spans[i]);
      CutBeforeNewline(s, statements[i], spans[i]);
    }
    hide IsSpace;
    forall i, j | 0 <= i < j < |spans|
      ensures CutApart(s, spans[i], spans[j])
    {
      assert CutApart(t, spans[i], spans[j]);
      assert CutOut(s, statements[j], spans[j]);
    }
    forall k | 0 <= k < |s|
      ensures Inside(spans, k) || IsSpace(s[k]) || Ends(s, k)
    {
      assert t[k] == s[k];
    }
  }

  lemma EndsWithNewline(s: string)
    ensures forall k | 0 <= k < |s| :: Ends(s + "\n", k) <==> Ends(s, k)
  {
    EndsExtend(s, '\n');
    hide Ends;
  }

  lemma CutBeforeNewline(s: string, statement: string, span: Span)
    requires CutOut(s + "\n", statement, span)
    ensures CutOut(s, statement, span)
  {
    EndsWithNewline(s);
    SpaceOfCuts();
    hide Ends, IsSpace;
    var t := s + "\n";
    assert t[|s|] == '\n';
    assert t[span.from..span.to] == s[span.from..span.to];
    assert forall k | span.from <= k < span.to :: !Ends(s, k) by {
      assert forall k | span.from <= k < span.to :: !Ends(t, k);
    }
  }

  lemma {:induction false} SplitLaysOut(sql: string) returns (spans: seq<Span>)
    requires NoComments(sql)
    ensures Statements(sql).Err? <==> !NoDollars(sql) || QuoteCount(sql, |sql|) % 2 == 1
    ensures Statements(sql).Err? ==>
              Statements(sql).error == if NoDollars(sql) then Unterminated else DollarQuoted
    ensures Statements(sql).Ok? ==> LaidOut(sql, Statements(sql).value, spans)
  {
    hide *;
    NoCommentsMean(sql);
    KeptWhole(sql, false);
    NoDollarsMeans(sql);
    OpenWithNewline(sql);
    StatementsOfText(sql);
    spans := [];
    if Statements(sql).Ok? {
      spans := PiecesCut(sql + "\n");
      NewlineIsOutside(sql, Statements(sql).value, spans);
      CutMeans(sql, Statements(sql).value, spans);
    }
  }

  lemma StatementsOfText(sql: string)
    requires Kept(Lines(sql), false) == sql + "\n"
    ensures Statements(sql) ==
            if Contains(sql, "$$") then Err(DollarQuoted)
            else if Open(sql + "\n") then Err(Unterminated)
            else Ok(Clean(Pieces(sql + "\n")))
  {
    hide Contains, Open, Clean, Pieces, Lines, Kept;
  }

  lemma OpenWithNewline(s: string)
    ensures Open(s + "\n") <==> QuoteCount(s, |s|) % 2 == 1
  {
    hide Quotes, QuoteCount;
    OpenConcat(s, "\n");
    OpenChar('\n');
    QuotesAreCounted(s, |s|);
    assert s[..|s|] == s;
  }

  // ---- The layout leaves no choice ----

  lemma Ascending(s: string, a: seq<string>, p: seq<Span>)
    requires LaidOut(s, a, p)
    ensures Rising(p)
  {
    hide WhiteSpace, Outer, Inside;
    forall i | 0 <= i < |p|
      ensures p[i].from < p[i].to
    {
      assert Spanned(s, a[i], p[i]);
    }
    forall i, j | 0 <= i < j < |p|
      ensures p[i].to <= p[j].from
    {
      assert Parted(s, p[i], p[j]);
    }
  }

  lemma InkIsInside(s: string, statement: string, span: Span, a: seq<string>, p: seq<Span>)
    requires Spanned(s, statement, span) && LaidOut(s, a, p)
    ensures Inside(p, span.from) && Inside(p, span.to - 1)
  {
    hide WhiteSpace, Outer, Inside, Parted;
  }

  /** Where a span starts, the other layout has one that starts no later. */
  lemma {:induction false} StartsAgree(s: string, a: seq<string>, b: seq<string>, p: seq<Span>, q: seq<Span>, n: nat)
    requires LaidOut(s, a, p) && LaidOut(s, b, q)
    requires n < |p| && n <= |q| && p[..n] == q[..n]
    ensures n < |q| && q[n].from <= p[n].from
  {
    Ascending(s, a, p);
    Ascending(s, b, q);
    assert Spanned(s, a[n], p[n]);
    InkIsInside(s, a[n], p[n], b, q);
    hide LaidOut, Spanned;
    SpansStart(p, q, n);
  }

  ghost predicate Rising(spans: seq<Span>) {
    && (forall i | 0 <= i < |spans| :: spans[i].from < spans[i].to)
    && (forall i, j | 0 <= i < j < |spans| :: spans[i].to <= spans[j].from)
  }

  lemma SpansStart(p: seq<Span>, q: seq<Span>, n: nat)
    requires Rising(p) && Rising(q) && n < |p| && n <= |q| && p[..n] == q[..n] && Inside(q, p[n].from)
    ensures n < |q| && q[n].from <= p[n].from
  {
    assert forall i | 0 <= i < n :: q[i].to <= p[n].from by {
      assert forall i | 0 <= i < n :: q[i] == q[..n][i] == p[..n][i] == p[i];
    }
    var j :| 0 <= j < |q| && q[j].from <= p[n].from < q[j].to;
  }

  /** Nor can it go on where a span ends: an outer semicolon comes before the next one. */
  lemma {:induction false} EndsAgree(s: string, a: seq<string>, b: seq<string>, p: seq<Span>, q: seq<Span>, n: nat)
    requires LaidOut(s, a, p) && LaidOut(s, b, q)
    requires n < |p| && n < |q| && p[n].from == q[n].from
    ensures q[n].to <= p[n].to
  {
    assert Spanned(s, b[n], q[n]) && Spanned(s, a[n], p[n]);
    InkIsInside(s, b[n], q[n], a, p);
    OuterBefore(s, a, p, n, q[n].to - 1);
    hide LaidOut, WhiteSpace, Outer;
  }

  lemma {:induction false} OuterBefore(s: string, a: seq<string>, p: seq<Span>, n: nat, x: nat)
    requires LaidOut(s, a, p) && n < |p| && Inside(p, x)
    ensures p[n].to <= x ==> exists k | p[n].to <= k < x :: Outer(s, k)
  {
    hide WhiteSpace, Outer;
    Ascending(s, a, p);
    var m :| 0 <= m < |p| && p[m].from <= x < p[m].to;
    if n < m {
      assert Parted(s, p[n], p[m]);
    } else {
      assert x < p[n].to;
    }
  }

  lemma {:induction false} SpansAgree(s: string, a: seq<string>, b: seq<string>, p: seq<Span>, q: seq<Span>, n: nat)
    requires LaidOut(s, a, p) && LaidOut(s, b, q) && n <= |p|
    ensures n <= |q| && p[..n] == q[..n]
  {
    hide LaidOut;
    if n > 0 {
      SpansAgree(s, a, b, p, q, n - 1);
      StartsAgree(s, a, b, p, q, n - 1);
      StartsAgree(s, b, a, q, p, n - 1);
      EndsAgree(s, a, b, p, q, n - 1);
      EndsAgree(s, b, a, q, p, n - 1);
      assert p[..n] == p[..n - 1] + [p[n - 1]] && q[..n] == q[..n - 1] + [q[n - 1]];
    }
  }

  lemma {:induction false} LayoutIsUnique(s: string, a: seq<string>, b: seq<string>, p: seq<Span>, q: seq<Span>)
    requires LaidOut(s, a, p) && LaidOut(s, b, q)
    ensures a == b
  {
    hide LaidOut;
    SpansAgree(s, a, b, p, q, |p|);
    SpansAgree(s, b, a, q, p, |q|);
    assert p[..|p|] == p && q[..|q|] == q;
    SameSpansSameText(s, a, b, p);
  }

  lemma SameSpansSameText(s: string, a: seq<string>, b: seq<string>, p: seq<Span>)
    requires LaidOut(s, a, p) && LaidOut(s, b, p)
    ensures a == b
  {
    hide WhiteSpace, Outer, Parted, Inside;
    forall i | 0 <= i < |p|
      ensures a[i] == b[i]
    {
      assert Spanned(s, a[i], p[i]) && Spanned(s, b[i], p[i]);
    }
  }

  /** The splitter's answer for a script without comment lines, error for error and
      character for character. */
  lemma {:induction false} SplitMeans(sql: string, statements: seq<string>)
    requires NoComments(sql)
    ensures Statements(sql) == Err(DollarQuoted) <==> !NoDollars(sql)
    ensures Statements(sql) == Err(Unterminated) <==> NoDollars(sql) && QuoteCount(sql, |sql|) % 2 == 1
    ensures Statements(sql) == Ok(statements) <==>
            NoDollars(sql) && QuoteCount(sql, |sql|) % 2 == 0 && exists spans :: LaidOut(sql, statements, spans)
  {
    hide *;
    var spans := SplitLaysOut(sql);
    if Statements(sql).Ok? {
      if p :| LaidOut(sql, statements, p) {
        LayoutIsUnique(sql, Statements(sql).value, statements, spans, p);
      }
    }
  }
}
