/** The Scylla migration splitter: strip full-line comments, split on semicolons, trim, filter. */
module CqlSplitter {
  import opened Text
  import opened Sequences

  const COMMENT := "--"

  predicate IsComment(line: string) {
    HasPrefix(Trim(line), COMMENT)
  }

  function StripLines(lines: seq<string>): seq<string> {
    if lines == [] then []
    else (if IsComment(lines[0]) then [] else [lines[0]]) + StripLines(lines[1..])
  }

  function Cleaned(text: string): string {
    Join(StripLines(Split(text, '\n')), '\n')
  }

  // Statements the migration does not skip
  predicate Runs(statement: string) {
    && statement != ""
    && !HasPrefix(Upper(statement), "USE ")
    && !HasPrefix(Upper(statement), "CREATE KEYSPACE")
  }

  function Kept(pieces: seq<string>): seq<string> {
    if pieces == [] then []
    else (if Runs(Trim(pieces[0])) then [Trim(pieces[0])] else []) + Kept(pieces[1..])
  }

  // The statements a migration file executes
  function Statements(text: string): seq<string> {
    Kept(Split(Cleaned(text), ';'))
  }

  lemma StripCons(line: string, rest: seq<string>)
    ensures StripLines([line] + rest) == (if IsComment(line) then [] else [line]) + StripLines(rest)
  {
    assert ([line] + rest)[1..] == rest;
  }

  lemma {:induction false} StripConcat(a: seq<string>, b: seq<string>)
    ensures StripLines(a + b) == StripLines(a) + StripLines(b)
  {
    if a == [] {
      assert a + b == b;
    } else {
      TailOfConcat(a, b);
      StripConcat(a[1..], b);
      Associative(if IsComment(a[0]) then [] else [a[0]], StripLines(a[1..]), StripLines(b));
    }
  }

  lemma KeptCons(piece: string, rest: seq<string>)
    ensures Kept([piece] + rest) == (if Runs(Trim(piece)) then [Trim(piece)] else []) + Kept(rest)
  {
    assert ([piece] + rest)[1..] == rest;
  }

  lemma {:induction false} KeptConcat(a: seq<string>, b: seq<string>)
    ensures Kept(a + b) == Kept(a) + Kept(b)
  {
    if a == [] {
      assert a + b == b;
    } else {
      TailOfConcat(a, b);
      KeptConcat(a[1..], b);
      Associative(if Runs(Trim(a[0])) then [Trim(a[0])] else [], Kept(a[1..]), Kept(b));
    }
  }

  // Places in a list of n items, from first to last
  predicate Rising(at: seq<nat>, n: nat) {
    && (forall i, j | 0 <= i < j < |at| :: at[i] < at[j])
    && (forall i | 0 <= i < |at| :: at[i] < n)
  }

  function Picked(items: seq<string>, at: seq<nat>): seq<string>
    requires Rising(at, |items|)
  {
    seq(|at|, i requires 0 <= i < |at| => items[at[i]])
  }

  lemma UpperPrefix(s: string, prefix: string)
    ensures HasPrefix(Upper(s), prefix) <==> |s| >= |prefix| && Upper(s[..|prefix|]) == prefix
  {
    if |s| >= |prefix| {
      assert Upper(s)[..|prefix|] == Upper(s[..|prefix|]);
    }
  }

  lemma PickOneMore(items: seq<string>, at: seq<nat>, i: nat)
    requires i < |items| && Rising(at, i)
    ensures Rising(at, i + 1) && Rising(at + [i], i + 1) && Rising(at, |items|) && Rising(at + [i], |items|)
    ensures Picked(items, at + [i]) == Picked(items, at) + [items[i]]
    ensures forall k :: k in at + [i] <==> k in at || k == i
    ensures i !in at
  {
  }

  // The first loop of migrateScylla: the lines that stay
  method Strip(lines: seq<string>) returns (cleanedLines: seq<string>, ghost lineNumbers: seq<nat>)
    ensures cleanedLines == StripLines(lines)
    ensures Rising(lineNumbers, |lines|) && cleanedLines == Picked(lines, lineNumbers)
    ensures forall k: nat | k < |lines| ::
              k in lineNumbers <==> !(|Trim(lines[k])| >= 2 && Trim(lines[k])[..2] == "--")
  {
    cleanedLines, lineNumbers := [], [];
    for i := 0 to |lines|
      invariant cleanedLines == StripLines(lines[..i])
      invariant Rising(lineNumbers, i) && Rising(lineNumbers, |lines|) && cleanedLines == Picked(lines, lineNumbers)
      invariant forall k: nat | k < i ::
                  k in lineNumbers <==> !(|Trim(lines[k])| >= 2 && Trim(lines[k])[..2] == "--")
    {
      StripOneMore(lines, i);
      PickOneMore(lines, lineNumbers, i);
      if HasPrefix(Trim(lines[i]), COMMENT) {
        continue;
      }
      cleanedLines := cleanedLines + [lines[i]];
      lineNumbers := lineNumbers + [i];
    }
    assert lines[..|lines|] == lines;
  }

  lemma StripOneMore(lines: seq<string>, i: nat)
    requires i < |lines|
    ensures StripLines(lines[..i + 1]) == StripLines(lines[..i]) + (if IsComment(lines[i]) then [] else [lines[i]])
  {
    assert lines[..i + 1] == lines[..i] + [lines[i]];
    StripConcat(lines[..i], [lines[i]]);
    assert StripLines([lines[i]]) == if IsComment(lines[i]) then [] else [lines[i]];
  }

  lemma KeepOneMore(pieces: seq<string>, i: nat)
    requires i < |pieces|
    ensures Kept(pieces[..i + 1]) == Kept(pieces[..i]) + (if Runs(Trim(pieces[i])) then [Trim(pieces[i])] else [])
  {
    assert pieces[..i + 1] == pieces[..i] + [pieces[i]];
    KeptConcat(pieces[..i], [pieces[i]]);
    KeptOfOne(pieces[i]);
  }

  // The second loop: split, trim, filter, send
  method Send(cleaned: string) returns (executed: seq<string>, ghost pieceNumbers: seq<nat>)
    ensures executed == Kept(Split(cleaned, ';'))
    ensures var pieces := Split(cleaned, ';');
            && Rising(pieceNumbers, |pieces|)
            && (forall k: nat | k < |pieces| ::
                  k in pieceNumbers <==>
                    && |Trim(pieces[k])| > 0
                    && !(|Trim(pieces[k])| >= 4 && Upper(Trim(pieces[k])[..4]) == "USE ")
                    && !(|Trim(pieces[k])| >= 15 && Upper(Trim(pieces[k])[..15]) == "CREATE KEYSPACE"))
            && |executed| == |pieceNumbers|
            && forall i | 0 <= i < |executed| :: executed[i] == Trim(pieces[pieceNumbers[i]])
  {
    var statements := Split(cleaned, ';');
    executed, pieceNumbers := [], [];
    for i := 0 to |statements|
      invariant executed == Kept(statements[..i])
      invariant Rising(pieceNumbers, i) && |executed| == |pieceNumbers|
      invariant forall k: nat | k < i :: k in pieceNumbers <==> Runs(Trim(statements[k]))
      invariant forall k | 0 <= k < |executed| :: executed[k] == Trim(statements[pieceNumbers[k]])
    {
      KeepOneMore(statements, i);
      PickOneMore(statements, pieceNumbers, i);
      var statement := Trim(statements[i]);
      if statement == "" || HasPrefix(Upper(statement), "USE ") || HasPrefix(Upper(statement), "CREATE KEYSPACE") {
        continue;
      }
      executed := executed + [statement];
      pieceNumbers := pieceNumbers + [i];
    }
    assert statements[..|statements|] == statements;
    forall k: nat | k < |statements|
      ensures Runs(Trim(statements[k])) <==>
                && |Trim(statements[k])| > 0
                && !(|Trim(statements[k])| >= 4 && Upper(Trim(statements[k])[..4]) == "USE ")
                && !(|Trim(statements[k])| >= 15 && Upper(Trim(statements[k])[..15]) == "CREATE KEYSPACE")
    {
      UpperPrefix(Trim(statements[k]), "USE ");
      UpperPrefix(Trim(statements[k]), "CREATE KEYSPACE");
    }
  }

  // The two loops over one file; executed collects what is sent to the session. The line and piece numbers say which
  // lines stay in the text and which pieces of it are sent.
  method Migrate(data: string)
    returns (executed: seq<string>, ghost lineNumbers: seq<nat>, ghost pieceNumbers: seq<nat>)
    ensures executed == Statements(data)
    ensures var lines := Split(data, '\n');
            && Rising(lineNumbers, |lines|)
            && (forall k: nat | k < |lines| ::
                  k in lineNumbers <==> !(|Trim(lines[k])| >= 2 && Trim(lines[k])[..2] == "--"))
            && var pieces := Split(Join(Picked(lines, lineNumbers), '\n'), ';');
               && Rising(pieceNumbers, |pieces|)
               && (forall k: nat | k < |pieces| ::
                     k in pieceNumbers <==>
                       && |Trim(pieces[k])| > 0
                       && !(|Trim(pieces[k])| >= 4 && Upper(Trim(pieces[k])[..4]) == "USE ")
                       && !(|Trim(pieces[k])| >= 15 && Upper(Trim(pieces[k])[..15]) == "CREATE KEYSPACE"))
               && |executed| == |pieceNumbers|
               && forall i | 0 <= i < |executed| :: executed[i] == Trim(pieces[pieceNumbers[i]])
  {
    var cleanedLines;
    cleanedLines, lineNumbers := Strip(Split(data, '\n'));
    executed, pieceNumbers := Send(Join(cleanedLines, '\n'));
  }

  // ---- comments ----

  lemma {:induction false} StrippedLines(lines: seq<string>)
    ensures forall line | line in StripLines(lines) :: line in lines && !IsComment(line)
  {
    if lines == [] {
    } else {
      StrippedLines(lines[1..]);
    }
  }

  lemma {:induction false} NothingToStrip(lines: seq<string>)
    requires forall line | line in lines :: !IsComment(line)
    ensures StripLines(lines) == lines
  {
    if lines == [] {
    } else {
      NothingToStrip(lines[1..]);
      assert [lines[0]] + lines[1..] == lines;
    }
  }

  // Stripping what is stripped changes nothing.
  lemma CleaningIsIdempotent(text: string)
    ensures Cleaned(Cleaned(text)) == Cleaned(text)
  {
    var lines := StripLines(Split(text, '\n'));
    StrippedLines(Split(text, '\n'));
    SplitPartsAvoid(text, '\n');
    if lines == [] {
      assert StripLines([""]) == [""] by {
        TrimOfSpace("");
      }
    } else {
      JoinSplit(lines, '\n');
      NothingToStrip(lines);
    }
  }

  lemma StripInserted(before: seq<string>, comment: string, after: seq<string>)
    requires IsComment(comment)
    ensures StripLines(before + [comment] + after) == StripLines(before + after)
  {
    StripConcat(before + [comment], after);
    StripConcat(before, [comment]);
    StripConcat(before, after);
    StripCons(comment, []);
    assert [comment] + [] == [comment];
    assert StripLines([comment]) == [];
  }

  // A full-line comment between any two lines, whatever it says, leaves the statements as they were.
  lemma CommentsDoNotMatter(before: seq<string>, comment: string, after: seq<string>)
    requires before + after != []
    requires forall line | line in before + [comment] + after :: '\n' !in line
    requires IsComment(comment)
    ensures Statements(Join(before + [comment] + after, '\n')) == Statements(Join(before + after, '\n'))
  {
    var lines, more := before + after, before + [comment] + after;
    forall line | line in lines ensures line in more {
      assert line in before || line in after;
    }
    StripInserted(before, comment, after);
    JoinSplit(more, '\n');
    JoinSplit(lines, '\n');
  }

  // ---- two files in one ----

  lemma {:induction false} KeptAfterSpace(w: string, s: string)
    requires AllSpace(w) && ';' !in w
    ensures Kept(Split(w + s, ';')) == Kept(Split(s, ';'))
  {
    SplitAfter(w, s, ';');
    TrimAfterSpace(w, Split(s, ';')[0]);
    var parts := Split(s, ';');
    assert parts == [parts[0]] + parts[1..];
    KeptConcat([w + parts[0]], parts[1..]);
    KeptConcat([parts[0]], parts[1..]);
    KeptOfOne(w + parts[0]);
    KeptOfOne(parts[0]);
  }

  lemma KeptOfOne(piece: string)
    ensures Kept([piece]) == if Runs(Trim(piece)) then [Trim(piece)] else []
  {
  }

  lemma CleanedConcat(a: string, b: string)
    requires Cleaned(a) != ""
    ensures Cleaned(a + ['\n'] + b) ==
              if StripLines(Split(b, '\n')) == [] then Cleaned(a) else Cleaned(a) + ['\n'] + Cleaned(b)
  {
    var x, y := StripLines(Split(a, '\n')), StripLines(Split(b, '\n'));
    SplitAtSeparator(a, '\n', b);
    StripConcat(Split(a, '\n'), Split(b, '\n'));
    if y == [] {
      assert x + y == x;
    } else {
      JoinConcat(x, y, '\n');
    }
  }

  lemma NothingKept()
    ensures Kept(Split("", ';')) == []
  {
    TrimOfSpace("");
    KeptOfOne("");
  }

  // A file whose cleaned text ends a statement, followed by another file
  lemma FilesCompose(a: string, b: string)
    requires Cleaned(a) != "" && Cleaned(a)[|Cleaned(a)| - 1] == ';'
    ensures Statements(a + ['\n'] + b) == Statements(a) + Statements(b)
  {
    var body := Cleaned(a)[..|Cleaned(a)| - 1];
    CleanedConcat(a, b);
    StatementsOfTerminated(Cleaned(a), body);
    if StripLines(Split(b, '\n')) == [] {
      NothingKept();
    } else {
      StatementsAfterTerminated(Cleaned(a), body, Cleaned(b));
    }
  }

  // A text that ends a statement, with nothing after it
  lemma StatementsOfTerminated(text: string, body: string)
    requires text == body + [';']
    ensures Kept(Split(text, ';')) == Kept(Split(body, ';'))
  {
    assert text == body + [';'] + "";
    SplitAtSeparator(body, ';', "");
    KeptConcat(Split(body, ';'), Split("", ';'));
    NothingKept();
  }

  lemma StatementsAfterTerminated(text: string, body: string, more: string)
    requires text == body + [';']
    ensures Kept(Split(text + ['\n'] + more, ';')) == Kept(Split(body, ';')) + Kept(Split(more, ';'))
  {
    assert text + ['\n'] + more == body + [';'] + (['\n'] + more);
    SplitAtSeparator(body, ';', ['\n'] + more);
    KeptConcat(Split(body, ';'), Split(['\n'] + more, ';'));
    KeptAfterSpace(['\n'], more);
  }
}
