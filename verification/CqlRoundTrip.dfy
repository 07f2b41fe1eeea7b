/** Printing statements as a migration file and splitting the file again. */
module CqlRoundTrip {
  import opened Text
  import opened CqlSplitter
  import opened Sequences
  import opened CqlComments

  function Print(statements: seq<string>): string {
    if statements == [] then "" else statements[0] + [';'] + ['\n'] + Print(statements[1..])
  }

  // What every statement of a split file is
  predicate Clean(statement: string) {
    Trim(statement) == statement && Runs(statement) && ';' !in statement
  }

  // ---- a semicolon at the end of a line does not make or hide a comment ----

  lemma SemicolonKeepsComment(line: string)
    ensures IsComment(line + [';']) == IsComment(line)
  {
    CommentIffLeft(line);
    CommentIffLeft(line + [';']);
    TrimLeftIsSuffix(line);
    var inner := TrimLeft(line);
    if inner == "" {
      TrimLeftOf(line, [';']);
    } else {
      TrimLeftBefore(line, [';']);
      if |inner| >= 2 {
        assert (inner + [';'])[..2] == inner[..2];
      }
    }
  }

  // ---- the lines of a printed file ----

  lemma LinesOfTerminated(statement: string)
    ensures (exists line | line in Split(statement + [';'], '\n') :: IsComment(line)) <==> HasCommentLine(statement)
  {
    var lines := Split(statement, '\n');
    var last := lines[|lines| - 1];
    SplitConcat(statement, [';'], '\n');
    SplitWithout([';'], '\n');
    SemicolonKeepsComment(last);
    assert lines == lines[..|lines| - 1] + [last];
    var terminated := lines[..|lines| - 1] + [last + [';']];
    if line :| line in lines && IsComment(line) {
      assert line in lines[..|lines| - 1] || line == last;
      assert if line == last then last + [';'] in terminated else line in terminated;
    }
    if line :| line in terminated && IsComment(line) {
      assert line in lines[..|lines| - 1] || line == last + [';'];
      assert if line == last + [';'] then last in lines else line in lines;
    }
  }

  lemma {:induction false} PrintedComments(statements: seq<string>)
    ensures (exists line | line in Split(Print(statements), '\n') :: IsComment(line)) <==>
              exists s | s in statements :: HasCommentLine(s)
  {
    if statements == [] {
      TrimOfSpace("");
      assert Split("", '\n') == [""];
    } else {
      var s, rest := statements[0], statements[1..];
      PrintedComments(rest);
      LinesOfTerminated(s);
      SplitAtSeparator(s + [';'], '\n', Print(rest));
      var first, more := Split(s + [';'], '\n'), Split(Print(rest), '\n');
      assert Split(Print(statements), '\n') == first + more;
      assert forall line :: line in first + more <==> line in first || line in more;
      assert forall other :: other in statements <==> other == s || other in rest;
    }
  }

  // ---- the round trip ----

  lemma FirstPiece(piece: string, more: string)
    requires ';' !in piece && Runs(Trim(piece))
    ensures Kept(Split(piece + [';'] + more, ';')) == [Trim(piece)] + Kept(Split(more, ';'))
  {
    SplitAtSeparator(piece, ';', more);
    SplitWithout(piece, ';');
    KeptCons(piece, Split(more, ';'));
  }

  lemma PrintedAfter(w: string, s: string, rest: seq<string>)
    ensures w + (s + [';'] + ['\n'] + Print(rest)) == (w + s) + [';'] + (['\n'] + Print(rest))
  {
    Associative(s + [';'], ['\n'], Print(rest));
    Associative(w, s + [';'], ['\n'] + Print(rest));
    Associative(w, s, [';']);
  }

  lemma {:induction false} PrintSplits(w: string, statements: seq<string>)
    requires AllSpace(w) && ';' !in w
    requires forall s | s in statements :: Clean(s)
    ensures Kept(Split(w + Print(statements), ';')) == statements
    decreases |statements|
  {
    if statements == [] {
      SplitWithout(w, ';');
      assert w + "" == w;
      TrimOfSpace(w);
      KeptOfOne(w);
    } else {
      var s, rest := statements[0], statements[1..];
      PrintSplits(['\n'], rest);
      assert Clean(s);
      PrintedAfter(w, s, rest);
      assert Print(statements) == s + [';'] + ['\n'] + Print(rest);
      TrimAfterSpace(w, s);
      FirstPiece(w + s, ['\n'] + Print(rest));
    }
  }

  // Statements printed one after the other, with any full-line comments inserted between the lines, are the
  // statements the migration runs.
  lemma RoundTrip(statements: seq<string>, lines: seq<string>)
    requires forall s | s in statements :: Clean(s)
    requires forall line | line in lines :: '\n' !in line
    requires StripLines(lines) == Split(Print(statements), '\n')
    ensures Statements(Join(lines, '\n')) == statements
  {
    JoinSplit(lines, '\n');
    SplitJoin(Print(statements), '\n');
    PrintSplits("", statements);
    assert "" + Print(statements) == Print(statements);
  }

  // Such a file exists, the plain print, when no statement has a comment line of its own.
  lemma PrintedRoundTrip(statements: seq<string>)
    requires forall s | s in statements :: Clean(s) && !HasCommentLine(s)
    ensures Statements(Print(statements)) == statements
  {
    var lines := Split(Print(statements), '\n');
    PrintedComments(statements);
    NothingToStrip(lines);
    SplitPartsAvoid(Print(statements), '\n');
    SplitJoin(Print(statements), '\n');
    RoundTrip(statements, lines);
  }

  // ---- printing what was split ----

  lemma {:induction false} KeptAreClean(pieces: seq<string>)
    requires forall piece | piece in pieces :: ';' !in piece
    ensures forall s | s in Kept(pieces) :: Clean(s)
  {
    if pieces == [] {
    } else {
      KeptAreClean(pieces[1..]);
      var left, right := TrimCuts(pieces[0]);
      assert pieces[0] in pieces;
      assert forall c | c in Trim(pieces[0]) :: c in pieces[0];
    }
  }

  function Dashes(s: string): nat {
    if s == "" then 0 else (if s[0] == '-' then 1 else 0) + Dashes(s[1..])
  }

  function TotalDashes(parts: seq<string>): nat {
    if parts == [] then 0 else Dashes(parts[0]) + TotalDashes(parts[1..])
  }

  lemma {:induction false} DashesConcat(a: string, b: string)
    ensures Dashes(a + b) == Dashes(a) + Dashes(b)
  {
    if a == "" {
      assert a + b == b;
    } else {
      DashesConcat(a[1..], b);
      assert (a + b)[1..] == a[1..] + b;
    }
  }

  lemma {:induction false} NoDashesInSpace(w: string)
    requires AllSpace(w)
    ensures Dashes(w) == 0
  {
    if w == "" {
    } else {
      NoDashesInSpace(w[1..]);
      assert w[0] in w;
    }
  }

  lemma TrimKeepsDashes(s: string)
    ensures Dashes(Trim(s)) == Dashes(s)
  {
    var left, right := TrimCuts(s);
    NoDashesInSpace(left);
    NoDashesInSpace(right);
    DashesConcat(left + Trim(s), right);
    DashesConcat(left, Trim(s));
  }

  lemma {:induction false} JoinKeepsDashes(parts: seq<string>, sep: char)
    requires sep != '-'
    ensures Dashes(Join(parts, sep)) == TotalDashes(parts)
  {
    if |parts| > 1 {
      JoinKeepsDashes(parts[1..], sep);
      DashesConcat(parts[0] + [sep], Join(parts[1..], sep));
      DashesConcat(parts[0], [sep]);
    }
  }

  lemma SplitKeepsDashes(s: string, sep: char)
    requires sep != '-'
    ensures TotalDashes(Split(s, sep)) == Dashes(s)
  {
    SplitJoin(s, sep);
    JoinKeepsDashes(Split(s, sep), sep);
  }

  lemma {:induction false} KeptAddsNoDashes(pieces: seq<string>)
    ensures TotalDashes(Kept(pieces)) <= TotalDashes(pieces)
  {
    if pieces == [] {
    } else {
      KeptAddsNoDashes(pieces[1..]);
      TrimKeepsDashes(pieces[0]);
      assert pieces == [pieces[0]] + pieces[1..];
      KeptCons(pieces[0], pieces[1..]);
      var rest := Kept(pieces[1..]);
      assert ([Trim(pieces[0])] + rest)[1..] == rest;
      assert [] + rest == rest;
    }
  }

  lemma CommentHasDashes(line: string)
    requires IsComment(line)
    ensures Dashes(line) >= 2
  {
    TrimKeepsDashes(line);
    var t := Trim(line);
    assert t == "--" + t[2..];
    DashesConcat("--", t[2..]);
    assert "--"[1..] == "-";
  }

  lemma {:induction false} StrippingLosesDashes(lines: seq<string>)
    ensures TotalDashes(StripLines(lines)) <= TotalDashes(lines)
    ensures (exists line | line in lines :: IsComment(line)) ==>
              TotalDashes(StripLines(lines)) < TotalDashes(lines)
  {
    if lines == [] {
    } else {
      StrippingLosesDashes(lines[1..]);
      assert lines == [lines[0]] + lines[1..];
      StripCons(lines[0], lines[1..]);
      var rest := StripLines(lines[1..]);
      assert ([lines[0]] + rest)[1..] == rest;
      assert [] + rest == rest;
      if IsComment(lines[0]) {
        CommentHasDashes(lines[0]);
      } else if line :| line in lines && IsComment(line) {
        assert line in lines[1..];
      }
    }
  }

  lemma {:induction false} PrintDashes(statements: seq<string>)
    ensures Dashes(Print(statements)) == TotalDashes(statements)
  {
    if statements == [] {
    } else {
      var s, rest := statements[0], statements[1..];
      PrintDashes(rest);
      DashesConcat(s + [';'] + ['\n'], Print(rest));
      DashesConcat(s + [';'], ['\n']);
      DashesConcat(s, [';']);
    }
  }

  lemma CommentedPrintChanges(statements: seq<string>)
    requires exists s | s in statements :: HasCommentLine(s)
    ensures Statements(Print(statements)) != statements
  {
    var text := Print(statements);
    var lines := Split(text, '\n');
    PrintedComments(statements);
    StrippingLosesDashes(lines);
    SplitKeepsDashes(text, '\n');
    PrintDashes(statements);
    JoinKeepsDashes(StripLines(lines), '\n');
    SplitKeepsDashes(Cleaned(text), ';');
    KeptAddsNoDashes(Split(Cleaned(text), ';'));
  }

  // Printing the statements of any file and splitting again gives the same statements exactly when the file has no
  // comment behind a semicolon on a line: none of its statements then has a comment line.
  lemma SplittingIsStableIff(text: string)
    ensures Statements(Print(Statements(text))) == Statements(text) <==> !HidesComment(text)
    ensures !HidesComment(text) <==> forall s | s in Statements(text) :: !HasCommentLine(s)
  {
    CommentsAreExecutedIff(text);
    SplitPartsAvoid(Cleaned(text), ';');
    KeptAreClean(Split(Cleaned(text), ';'));
    if s :| s in Statements(text) && HasCommentLine(s) {
      CommentedPrintChanges(Statements(text));
    } else {
      PrintedRoundTrip(Statements(text));
    }
  }

  lemma CleanedOfLine(line: string)
    requires '\n' !in line && !IsComment(line)
    ensures Cleaned(line) == line
  {
    SplitWithout(line, '\n');
    NothingToStrip([line]);
  }

  lemma TwoPieces(a: string, b: string)
    requires ';' !in a && ';' !in b && Trim(a) == a && Trim(b) == b && Runs(a) && Runs(b)
    ensures Kept(Split(a + [';'] + b, ';')) == [a, b]
  {
    SplitAtSeparator(a, ';', b);
    SplitWithout(a, ';');
    SplitWithout(b, ';');
    KeptConcat([a], [b]);
    KeptOfOne(a);
    KeptOfOne(b);
  }

  // A comment that shares its line with the end of a statement is executed as a statement of its own.
  lemma InlineCommentIsExecuted(a: string, comment: string)
    requires Clean(a) && Clean(comment) && IsComment(comment) && !IsComment(a + [';'] + comment)
    requires '\n' !in a && '\n' !in comment
    ensures Statements(a + [';'] + comment) == [a, comment]
    ensures Statements(Print([a, comment])) != [a, comment]
  {
    CleanedOfLine(a + [';'] + comment);
    TwoPieces(a, comment);
    SplitWithout(comment, '\n');
    assert comment in Split(comment, '\n');
    assert HasCommentLine(comment);
    assert comment in [a, comment];
    CommentedPrintChanges([a, comment]);
  }

  lemma ByItsEnds(s: string)
    requires s != "" && !IsSpace(s[0]) && !IsSpace(s[|s| - 1])
    ensures Trim(s) == s && TrimLeft(s) == s
    ensures UpperChar(s[0]) != 'U' && UpperChar(s[0]) != 'C' ==> Runs(s)
  {
    assert Upper(s)[0] == UpperChar(s[0]);
  }

  const STATEMENT := "TRUNCATE t"
  const REMARK := "-- all"

  // TRUNCATE t;-- all
  lemma RemarkIsExecuted()
    ensures HidesComment(STATEMENT + [';'] + REMARK)
    ensures Statements(STATEMENT + [';'] + REMARK) == [STATEMENT, REMARK]
    ensures var text := STATEMENT + [';'] + REMARK; Statements(Print(Statements(text))) != Statements(text)
  {
    var text := STATEMENT + [';'] + REMARK;
    ByItsEnds(STATEMENT);
    ByItsEnds(REMARK);
    ByItsEnds(text);
    assert text[0] == 'T';
    InlineCommentIsExecuted(STATEMENT, REMARK);
    assert REMARK in Statements(text);
    CommentsAreExecutedIff(text);
  }

  const USE_K := "use k"
  const KEYSPACE := "CREATE KEYSPACE k"
  const TABLE := "CREATE TABLE t (id INT)"

  lemma UseIsSkipped()
    ensures !Runs(Trim(USE_K))
  {
    ByItsEnds(USE_K);
    UpperPrefix(USE_K, "USE ");
    assert Upper(USE_K[..4]) == "USE ";
  }

  lemma KeyspaceIsSkipped()
    ensures !Runs(Trim(KEYSPACE))
  {
    ByItsEnds(KEYSPACE);
    UpperPrefix(KEYSPACE, "CREATE KEYSPACE");
    assert Upper(KEYSPACE[..15]) == "CREATE KEYSPACE";
  }

  lemma TableRuns()
    ensures Trim(TABLE) == TABLE && Runs(TABLE)
  {
    ByItsEnds(TABLE);
    assert Upper(TABLE)[0] == 'C' && Upper(TABLE)[7] == 'T';
  }

  lemma LastOfThreeRuns(a: string, b: string, c: string)
    requires !Runs(Trim(a)) && !Runs(Trim(b)) && Trim(c) == c && Runs(c)
    ensures Kept([a, b, c]) == [c]
  {
    KeptConcat([a], [b, c]);
    KeptConcat([b], [c]);
    KeptOfOne(a);
    KeptOfOne(b);
    KeptOfOne(c);
    assert [a] + [b, c] == [a, b, c] && [b] + [c] == [b, c];
  }

  lemma ThreePieces(a: string, b: string, c: string)
    requires ';' !in a && ';' !in b && ';' !in c
    ensures Split(a + [';'] + (b + [';'] + c), ';') == [a, b, c]
  {
    SplitAtSeparator(a, ';', b + [';'] + c);
    SplitAtSeparator(b, ';', c);
    SplitWithout(a, ';');
    SplitWithout(b, ';');
    SplitWithout(c, ';');
  }

  lemma NoBreakInThree(a: string, b: string, c: string)
    requires '\n' !in a && '\n' !in b && '\n' !in c && a != "" && !IsSpace(a[0]) && a[0] != '-'
    ensures Cleaned(a + [';'] + (b + [';'] + c)) == a + [';'] + (b + [';'] + c)
  {
    var text := a + [';'] + (b + [';'] + c);
    assert text[0] == a[0] && TrimLeft(text) == text;
    CommentIffLeft(text);
    CleanedOfLine(text);
  }

  // use k;CREATE KEYSPACE k;CREATE TABLE t (id INT)
  lemma KeyspaceStatementsAreSkipped()
    ensures Statements(USE_K + [';'] + (KEYSPACE + [';'] + TABLE)) == [TABLE]
  {
    NoBreakInThree(USE_K, KEYSPACE, TABLE);
    ThreePieces(USE_K, KEYSPACE, TABLE);
    UseIsSkipped();
    KeyspaceIsSkipped();
    TableRuns();
    LastOfThreeRuns(USE_K, KEYSPACE, TABLE);
  }
}
