/** Comments the splitter does not strip: exactly those behind a semicolon on the same line, which it then executes. */
module CqlComments {
  import opened Text
  import opened CqlSplitter
  import opened Sequences

  predicate HasCommentLine(piece: string) {
    exists line | line in Split(piece, '\n') :: IsComment(line)
  }

  // A comment between two semicolons of the line or behind the last one
  predicate CommentAfterSemicolon(line: string) {
    exists i | 0 < i < |Split(line, ';')| :: IsComment(Split(line, ';')[i])
  }

  predicate HidesComment(text: string) {
    exists line | line in Split(text, '\n') :: !IsComment(line) && CommentAfterSemicolon(line)
  }

  // ---- a comment is recognised by its first characters ----

  lemma {:induction false} TrimRightKeepsInk(s: string, n: nat)
    requires n <= |s| && forall i | 0 <= i < n :: !IsSpace(s[i])
    ensures |TrimRight(s)| >= n && TrimRight(s)[..n] == s[..n]
  {
    if s != "" && IsSpace(s[|s| - 1]) {
      TrimRightKeepsInk(s[..|s| - 1], n);
      assert s[..|s| - 1][..n] == s[..n];
    }
  }

  lemma CommentIffLeft(line: string)
    ensures IsComment(line) <==> HasPrefix(TrimLeft(line), COMMENT)
  {
    var inner := TrimLeft(line);
    TrimRightIsPrefix(inner);
    if HasPrefix(inner, COMMENT) {
      TrimRightKeepsInk(inner, 2);
    }
  }

  lemma CommentGoesOn(line: string, more: string)
    requires IsComment(line)
    ensures IsComment(line + more)
  {
    CommentIffLeft(line);
    CommentIffLeft(line + more);
    TrimLeftBefore(line, more);
  }

  lemma SpaceBeforeComment(w: string, line: string)
    requires AllSpace(w)
    ensures IsComment(w + line) == IsComment(line)
  {
    TrimAfterSpace(w, line);
  }

  lemma FirstPart(s: string, sep: char) returns (rest: string)
    ensures s == Split(s, sep)[0] + rest
  {
    var parts := Split(s, sep);
    SplitJoin(s, sep);
    rest := if |parts| == 1 then "" else [sep] + Join(parts[1..], sep);
    if |parts| > 1 {
      assert s == parts[0] + ([sep] + Join(parts[1..], sep));
    }
  }

  // ---- the pieces of a text without comment lines ----

  predicate Commented(pieces: seq<string>) {
    exists piece | piece in pieces :: HasCommentLine(piece)
  }

  // Only the first line of a piece can be a comment.
  predicate PlainBelow(piece: string) {
    forall line | line in Split(piece, '\n')[1..] :: !IsComment(line)
  }

  lemma OneLine(piece: string)
    requires '\n' !in piece
    ensures PlainBelow(piece) && HasCommentLine(piece) == IsComment(piece)
  {
    SplitWithout(piece, '\n');
    assert piece in Split(piece, '\n');
  }

  lemma FirstSegment(line: string)
    requires !IsComment(line)
    ensures !IsComment(Split(line, ';')[0])
  {
    var rest := FirstPart(line, ';');
    if IsComment(Split(line, ';')[0]) {
      CommentGoesOn(Split(line, ';')[0], rest);
    }
  }

  lemma SegmentsOfLine(line: string)
    requires '\n' !in line && !IsComment(line)
    ensures forall s | s in Split(line, ';') :: PlainBelow(s) && HasCommentLine(s) == IsComment(s) && '\n' !in s
    ensures Commented(Split(line, ';')) <==> CommentAfterSemicolon(line)
    ensures !HasCommentLine(Split(line, ';')[0])
  {
    var segments := Split(line, ';');
    FirstSegment(line);
    PartsKeepOut(line, ';', '\n');
    forall s | s in segments
      ensures PlainBelow(s) && HasCommentLine(s) == IsComment(s)
    {
      OneLine(s);
    }
    assert segments[0] in segments;
    if s :| s in segments && HasCommentLine(s) {
      var i :| 0 <= i < |segments| && segments[i] == s;
      assert i > 0;
    }
  }

  lemma {:induction false} PartsKeepOut(s: string, sep: char, c: char)
    requires c !in s
    ensures forall part | part in Split(s, sep) :: c !in part
  {
    if s == "" {
    } else {
      PartsKeepOut(s[1..], sep, c);
      var rest := Split(s[1..], sep);
      assert rest[0] in rest && s[0] in s;
    }
  }

  // The piece across a line break
  lemma AcrossBreak(segment: string, piece: string)
    requires '\n' !in segment && PlainBelow(piece) && !HasCommentLine(piece)
    ensures var across := segment + ['\n'] + piece;
            PlainBelow(across) && HasCommentLine(across) == IsComment(segment)
  {
    SplitAtSeparator(segment, '\n', piece);
    SplitWithout(segment, '\n');
    var lines := Split(piece, '\n');
    assert Split(segment + ['\n'] + piece, '\n') == [segment] + lines;
    assert ([segment] + lines)[1..] == lines;
    assert forall line :: line in [segment] + lines <==> line == segment || line in lines;
  }

  lemma PiecesAcross(line: string, more: string)
    ensures var segments, pieces := Split(line, ';'), Split(more, ';');
            Split(line + ['\n'] + more, ';') ==
              segments[..|segments| - 1] + ([segments[|segments| - 1] + ['\n'] + pieces[0]] + pieces[1..])
  {
    var segments, pieces := Split(line, ';'), Split(more, ';');
    SplitAfter(['\n'], more, ';');
    Associative(line, ['\n'], more);
    SplitConcat(line, ['\n'] + more, ';');
    Associative(segments[|segments| - 1], ['\n'], pieces[0]);
    TailOfConcat([['\n'] + pieces[0]], pieces[1..]);
  }

  lemma {:induction false} PiecesOfLines(lines: seq<string>)
    requires lines != [] && forall line | line in lines :: '\n' !in line && !IsComment(line)
    ensures var pieces := Split(Join(lines, '\n'), ';');
            && (forall piece | piece in pieces :: PlainBelow(piece))
            && !HasCommentLine(pieces[0])
            && (Commented(pieces) <==> exists line | line in lines :: CommentAfterSemicolon(line))
  {
    var line := lines[0];
    SegmentsOfLine(line);
    if |lines| == 1 {
    } else {
      var more := Join(lines[1..], '\n');
      var segments, pieces := Split(line, ';'), Split(more, ';');
      assert forall l | l in lines[1..] :: l in lines;
      PiecesOfLines(lines[1..]);
      PiecesAcross(line, more);
      var last := segments[|segments| - 1];
      assert last in segments && pieces[0] in pieces;
      AcrossBreak(last, pieces[0]);
      CommentedAcross(segments, last + ['\n'] + pieces[0], pieces);
      assert forall l :: l in lines <==> l == line || l in lines[1..];
    }
  }

  lemma CommentedAcross(segments: seq<string>, across: string, pieces: seq<string>)
    requires segments != [] && pieces != [] && !HasCommentLine(pieces[0]) && !HasCommentLine(segments[0])
    requires PlainBelow(across) && HasCommentLine(across) == HasCommentLine(segments[|segments| - 1])
    requires forall s | s in segments :: PlainBelow(s)
    requires forall p | p in pieces :: PlainBelow(p)
    ensures var all := segments[..|segments| - 1] + ([across] + pieces[1..]);
            && (forall p | p in all :: PlainBelow(p))
            && !HasCommentLine(all[0])
            && (Commented(all) <==> Commented(segments) || Commented(pieces))
  {
    var front, last := segments[..|segments| - 1], segments[|segments| - 1];
    assert segments == front + [last] && pieces == [pieces[0]] + pieces[1..];
    CommentedConcat(front, [last]);
    CommentedConcat([pieces[0]], pieces[1..]);
    CommentedConcat(front, [across] + pieces[1..]);
    CommentedConcat([across], pieces[1..]);
    assert Commented([last]) == HasCommentLine(last) && Commented([across]) == HasCommentLine(across);
    assert !Commented([pieces[0]]);
  }

  lemma CommentedConcat(a: seq<string>, b: seq<string>)
    ensures Commented(a + b) <==> Commented(a) || Commented(b)
  {
  }

  // ---- from the pieces to the statements ----

  lemma CommentInFirstLine(piece: string)
    requires PlainBelow(piece) && HasCommentLine(piece)
    ensures IsComment(piece)
  {
    var lines := Split(piece, '\n');
    assert lines == [lines[0]] + lines[1..];
    var rest := FirstPart(piece, '\n');
    CommentGoesOn(lines[0], rest);
  }

  lemma CommentStatement(statement: string)
    requires Trim(statement) == statement && IsComment(statement)
    ensures Runs(statement) && HasCommentLine(statement)
  {
    assert statement == ['-'] + (['-'] + statement[2..]);
    SplitCons('-', ['-'] + statement[2..], '\n');
    SplitCons('-', statement[2..], '\n');
    var line := Split(statement, '\n')[0];
    assert line[..2] == COMMENT;
    assert TrimLeft(line) == line;
    CommentIffLeft(line);
    assert line in Split(statement, '\n');
    assert Upper(statement)[0] == '-';
  }

  lemma UntrimmedHasComment(piece: string)
    requires HasCommentLine(Trim(piece))
    ensures HasCommentLine(piece)
  {
    var left, right := TrimCuts(piece);
    CommentAfterSpace(left, Trim(piece));
    CommentBeforeMore(left + Trim(piece), right);
  }

  lemma CommentAfterSpace(w: string, s: string)
    requires AllSpace(w) && HasCommentLine(s)
    ensures HasCommentLine(w + s)
  {
    var a, b := Split(w, '\n'), Split(s, '\n');
    SplitConcat(w, s, '\n');
    var line :| line in b && IsComment(line);
    if line in b[1..] {
      assert line in Glued(a, b);
    } else {
      assert b == [b[0]] + b[1..];
      LastPartOfSpace(w);
      SpaceBeforeComment(a[|a| - 1], b[0]);
      assert a[|a| - 1] + b[0] in Glued(a, b);
    }
  }

  lemma {:induction false} LastPartOfSpace(w: string)
    requires AllSpace(w)
    ensures forall part | part in Split(w, '\n') :: AllSpace(part)
  {
    if w == "" {
    } else {
      LastPartOfSpace(w[1..]);
      var rest := Split(w[1..], '\n');
      assert rest[0] in rest && w[0] in w;
    }
  }

  lemma CommentBeforeMore(s: string, t: string)
    requires HasCommentLine(s)
    ensures HasCommentLine(s + t)
  {
    var a, b := Split(s, '\n'), Split(t, '\n');
    SplitConcat(s, t, '\n');
    var line :| line in a && IsComment(line);
    assert a == a[..|a| - 1] + [a[|a| - 1]];
    if line in a[..|a| - 1] {
      assert line in Glued(a, b);
    } else {
      CommentGoesOn(line, b[0]);
      assert line + b[0] in Glued(a, b);
    }
  }

  lemma PieceIsExecutedComment(piece: string)
    requires PlainBelow(piece)
    ensures HasCommentLine(piece) <==> Runs(Trim(piece)) && HasCommentLine(Trim(piece))
    ensures HasCommentLine(piece) <==> Runs(Trim(piece)) && IsComment(Trim(piece))
  {
    var left, right := TrimCuts(piece);
    if HasCommentLine(piece) {
      CommentInFirstLine(piece);
    }
    if IsComment(Trim(piece)) {
      CommentStatement(Trim(piece));
    }
    if HasCommentLine(Trim(piece)) {
      UntrimmedHasComment(piece);
    }
  }

  lemma {:induction false} KeptComments(pieces: seq<string>)
    requires forall piece | piece in pieces :: PlainBelow(piece)
    ensures Commented(Kept(pieces)) <==> Commented(pieces)
    ensures (exists s | s in Kept(pieces) :: IsComment(s)) <==> Commented(pieces)
  {
    if pieces == [] {
    } else {
      var piece, rest := pieces[0], pieces[1..];
      assert piece in pieces;
      KeptComments(rest);
      PieceIsExecutedComment(piece);
      var first := if Runs(Trim(piece)) then [Trim(piece)] else [];
      assert pieces == [piece] + rest;
      CommentedConcat([piece], rest);
      CommentedConcat(first, Kept(rest));
      assert forall s :: s in Kept(pieces) <==> s in first || s in Kept(rest);
    }
  }

  lemma {:induction false} KeepsOtherLines(lines: seq<string>)
    ensures forall line :: line in StripLines(lines) <==> line in lines && !IsComment(line)
  {
    if lines == [] {
    } else {
      KeepsOtherLines(lines[1..]);
      assert lines == [lines[0]] + lines[1..];
      StripCons(lines[0], lines[1..]);
    }
  }

  // Some executed statement is a comment, or has one for a line, exactly if a line of the file that is no comment
  // itself has one behind a semicolon.
  lemma CommentsAreExecutedIff(text: string)
    ensures (exists s | s in Statements(text) :: IsComment(s)) <==> HidesComment(text)
    ensures (exists s | s in Statements(text) :: HasCommentLine(s)) <==> HidesComment(text)
  {
    var lines := StripLines(Split(text, '\n'));
    KeepsOtherLines(Split(text, '\n'));
    SplitPartsAvoid(text, '\n');
    if lines == [] {
      NothingKept();
    } else {
      PiecesOfLines(lines);
      KeptComments(Split(Cleaned(text), ';'));
    }
  }
}
