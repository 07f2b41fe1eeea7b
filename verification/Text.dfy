/** The string helpers of the Go standard library that the migration splitter calls. */
module Text {
  import opened Sequences

  // unicode.IsSpace
  predicate IsSpace(c: char) {
    || c == '\t' || c == '\n' || c == '\U{0B}' || c == '\U{0C}' || c == '\r' || c == ' '
    || c == '\U{85}' || c == '\U{A0}' || c == '\U{1680}' || '\U{2000}' <= c <= '\U{200A}'
    || c == '\U{2028}' || c == '\U{2029}' || c == '\U{202F}' || c == '\U{205F}' || c == '\U{3000}'
  }

  predicate AllSpace(s: string) {
    forall c | c in s :: IsSpace(c)
  }

  function TrimLeft(s: string): string {
    if s != "" && IsSpace(s[0]) then TrimLeft(s[1..]) else s
  }

  function TrimRight(s: string): string {
    if s != "" && IsSpace(s[|s| - 1]) then TrimRight(s[..|s| - 1]) else s
  }

  // strings.TrimSpace
  function Trim(s: string): string {
    TrimRight(TrimLeft(s))
  }

  predicate HasPrefix(s: string, prefix: string) {
    prefix <= s
  }

  // strings.ToUpper on the characters that can become an ASCII letter; others never match an ASCII prefix
  function UpperChar(c: char): char {
    if 'a' <= c <= 'z' then c - 'a' + 'A'
    else if c == '\U{17F}' then 'S'
    else if c == '\U{131}' then 'I'
    else c
  }

  function Upper(s: string): string {
    seq(|s|, i requires 0 <= i < |s| => UpperChar(s[i]))
  }

  // Which characters an upper-case ASCII letter comes from: itself, its lower case, and two letters beyond ASCII
  lemma UpperLetters(c: char, letter: char)
    requires 'A' <= letter <= 'Z'
    ensures UpperChar(c) == letter <==>
              || c == letter || c as int == letter as int + 32
              || (letter == 'S' && c as int == 0x17F) || (letter == 'I' && c as int == 0x131)
    ensures !('a' <= c <= 'z') && c as int < 128 ==> UpperChar(c) == c
  {
  }

  // The white space of Unicode, by code point
  lemma SpaceCodes(c: char)
    ensures IsSpace(c) <==>
              || c as int in {0x09, 0x0A, 0x0B, 0x0C, 0x0D, 0x20, 0x85, 0xA0, 0x1680, 0x2028, 0x2029, 0x202F, 0x205F}
              || 0x2000 <= c as int <= 0x200A || c as int == 0x3000
  {
  }

  // The parts of a string after one more character in front of it
  function Grown(c: char, parts: seq<string>, sep: char): seq<string>
    requires parts != []
  {
    if c == sep then [""] + parts else [[c] + parts[0]] + parts[1..]
  }

  // strings.Split on a one-character separator
  function Split(s: string, sep: char): (parts: seq<string>)
    ensures parts != []
  {
    if s == "" then [""] else Grown(s[0], Split(s[1..], sep), sep)
  }

  // strings.Join
  function Join(parts: seq<string>, sep: char): string {
    if parts == [] then ""
    else if |parts| == 1 then parts[0]
    else parts[0] + [sep] + Join(parts[1..], sep)
  }

  // ---- splitting and joining ----

  lemma {:induction false} SplitPartsAvoid(s: string, sep: char)
    ensures forall part | part in Split(s, sep) :: sep !in part
  {
    if s == "" {
    } else {
      SplitPartsAvoid(s[1..], sep);
      var rest := Split(s[1..], sep);
      assert rest[0] in rest;
      assert forall part | part in rest[1..] :: part in rest;
    }
  }

  lemma {:induction false} SplitWithout(s: string, sep: char)
    requires sep !in s
    ensures Split(s, sep) == [s]
  {
    if s == "" {
    } else {
      SplitWithout(s[1..], sep);
      assert [s[0]] + s[1..] == s;
    }
  }

  lemma SplitCons(c: char, s: string, sep: char)
    ensures Split([c] + s, sep) == Grown(c, Split(s, sep), sep)
  {
    assert ([c] + s)[1..] == s;
  }

  lemma GrownConcat(c: char, parts: seq<string>, more: seq<string>, sep: char)
    requires parts != []
    ensures Grown(c, parts + more, sep) == Grown(c, parts, sep) + more
  {
  }

  lemma {:induction false} SplitAtSeparator(a: string, sep: char, b: string)
    ensures Split(a + [sep] + b, sep) == Split(a, sep) + Split(b, sep)
  {
    if a == "" {
      assert a + [sep] + b == [sep] + b;
      SplitCons(sep, b, sep);
    } else {
      SplitAtSeparator(a[1..], sep, b);
      assert a + [sep] + b == [a[0]] + (a[1..] + [sep] + b);
      SplitCons(a[0], a[1..] + [sep] + b, sep);
      GrownConcat(a[0], Split(a[1..], sep), Split(b, sep), sep);
      assert Split(a, sep) == Grown(a[0], Split(a[1..], sep), sep);
    }
  }

  // Characters before the first separator only lengthen the first part.
  lemma {:induction false} SplitAfter(a: string, s: string, sep: char)
    requires sep !in a
    ensures Split(a + s, sep) == [a + Split(s, sep)[0]] + Split(s, sep)[1..]
  {
    var parts := Split(s, sep);
    if a == "" {
      assert a + s == s && a + parts[0] == parts[0];
      assert [parts[0]] + parts[1..] == parts;
    } else {
      SplitAfter(a[1..], s, sep);
      assert a + s == [a[0]] + (a[1..] + s);
      SplitCons(a[0], a[1..] + s, sep);
      var rest := [a[1..] + parts[0]] + parts[1..];
      assert a[0] in a && rest[0] == a[1..] + parts[0] && rest[1..] == parts[1..];
      assert [a[0]] + (a[1..] + parts[0]) == a + parts[0];
    }
  }

  // The parts of two texts put together: the last of the one and the first of the other become one part.
  function Glued(a: seq<string>, b: seq<string>): seq<string>
    requires a != [] && b != []
  {
    a[..|a| - 1] + ([a[|a| - 1] + b[0]] + b[1..])
  }

  lemma GluedAfter(first: string, a: seq<string>, b: seq<string>)
    requires a != [] && b != []
    ensures Glued([first] + a, b) == [first] + Glued(a, b)
  {
    var grown := [first] + a;
    assert grown[|grown| - 1] == a[|a| - 1] && grown[..|grown| - 1] == [first] + a[..|a| - 1];
    Associative([first], a[..|a| - 1], [a[|a| - 1] + b[0]] + b[1..]);
  }

  lemma GrownGlued(c: char, a: seq<string>, b: seq<string>, sep: char)
    requires a != [] && b != []
    ensures Grown(c, Glued(a, b), sep) == Glued(Grown(c, a, sep), b)
  {
    if c == sep {
      GluedAfter("", a, b);
    } else if |a| == 1 {
      Associative([c], a[0], b[0]);
      assert Glued(a, b) == [a[0] + b[0]] + b[1..];
    } else {
      assert a == [a[0]] + a[1..];
      GluedAfter(a[0], a[1..], b);
      GluedAfter([c] + a[0], a[1..], b);
    }
  }

  lemma {:induction false} SplitConcat(s: string, t: string, sep: char)
    ensures Split(s + t, sep) == Glued(Split(s, sep), Split(t, sep))
  {
    if s == "" {
      assert s + t == t && "" + Split(t, sep)[0] == Split(t, sep)[0];
    } else {
      SplitConcat(s[1..], t, sep);
      assert s + t == [s[0]] + (s[1..] + t);
      SplitCons(s[0], s[1..] + t, sep);
      GrownGlued(s[0], Split(s[1..], sep), Split(t, sep), sep);
    }
  }

  lemma {:induction false} JoinSplit(parts: seq<string>, sep: char)
    requires parts != [] && forall part | part in parts :: sep !in part
    ensures Split(Join(parts, sep), sep) == parts
  {
    assert sep !in parts[0];
    if |parts| == 1 {
      SplitWithout(parts[0], sep);
    } else {
      forall part | part in parts[1..] ensures sep !in part {
        assert part in parts;
      }
      JoinSplit(parts[1..], sep);
      SplitAtSeparator(parts[0], sep, Join(parts[1..], sep));
      SplitWithout(parts[0], sep);
    }
  }

  lemma {:induction false} SplitJoin(s: string, sep: char)
    ensures Join(Split(s, sep), sep) == s
  {
    if s == "" {
    } else {
      SplitJoin(s[1..], sep);
      var rest := Split(s[1..], sep);
      if s[0] != sep {
        var parts := [[s[0]] + rest[0]] + rest[1..];
        if |rest| == 1 {
          assert parts[0] == s;
        } else {
          assert parts[1..] == rest[1..];
          assert Join(parts, sep) == [s[0]] + (rest[0] + [sep] + Join(rest[1..], sep));
        }
      } else {
        assert ([""] + rest)[1..] == rest;
      }
      assert [s[0]] + s[1..] == s;
    }
  }

  lemma {:induction false} JoinConcat(a: seq<string>, b: seq<string>, sep: char)
    requires a != [] && b != []
    ensures Join(a + b, sep) == Join(a, sep) + [sep] + Join(b, sep)
  {
    if |a| == 1 {
      assert (a + b)[1..] == b;
    } else {
      JoinConcat(a[1..], b, sep);
      assert (a + b)[0] == a[0] && (a + b)[1..] == a[1..] + b;
    }
  }

  // ---- trimming ----

  lemma {:induction false} TrimLeftOf(w: string, s: string)
    requires AllSpace(w)
    ensures TrimLeft(w + s) == TrimLeft(s)
  {
    if w == "" {
      assert w + s == s;
    } else {
      assert (w + s)[0] == w[0] && w[0] in w && (w + s)[1..] == w[1..] + s;
      TrimLeftOf(w[1..], s);
    }
  }

  lemma TrimAfterSpace(w: string, s: string)
    requires AllSpace(w)
    ensures Trim(w + s) == Trim(s)
  {
    TrimLeftOf(w, s);
  }

  lemma TrimOfSpace(w: string)
    requires AllSpace(w)
    ensures Trim(w) == ""
  {
    TrimLeftOf(w, "");
    assert w + "" == w;
  }

  lemma {:induction false} TrimLeftIsSuffix(s: string)
    ensures TrimLeft(s) == "" || !IsSpace(TrimLeft(s)[0])
    ensures |TrimLeft(s)| <= |s| && s[|s| - |TrimLeft(s)|..] == TrimLeft(s)
    ensures AllSpace(s[..|s| - |TrimLeft(s)|])
  {
    if s != "" && IsSpace(s[0]) {
      TrimLeftIsSuffix(s[1..]);
      var n := |s| - |TrimLeft(s)|;
      assert s[..n] == [s[0]] + s[1..][..n - 1];
    }
  }

  lemma {:induction false} TrimRightIsPrefix(s: string)
    ensures TrimRight(s) == "" || !IsSpace(TrimRight(s)[|TrimRight(s)| - 1])
    ensures TrimRight(s) <= s && AllSpace(s[|TrimRight(s)|..])
  {
    if s != "" && IsSpace(s[|s| - 1]) {
      TrimRightIsPrefix(s[..|s| - 1]);
      var n := |TrimRight(s)|;
      assert s[n..] == s[..|s| - 1][n..] + [s[|s| - 1]];
    }
  }

  lemma {:induction false} TrimLeftBefore(s: string, t: string)
    requires TrimLeft(s) != ""
    ensures TrimLeft(s + t) == TrimLeft(s) + t
  {
    if s == "" || !IsSpace(s[0]) {
    } else {
      TrimLeftBefore(s[1..], t);
      assert (s + t)[0] == s[0] && (s + t)[1..] == s[1..] + t;
    }
  }

  // Trimming cuts spaces off both ends and nothing else, and leaves none there.
  lemma TrimCuts(s: string) returns (left: string, right: string)
    ensures s == left + Trim(s) + right && AllSpace(left) && AllSpace(right)
    ensures Trim(s) != "" ==> !IsSpace(Trim(s)[0]) && !IsSpace(Trim(s)[|Trim(s)| - 1])
    ensures Trim(Trim(s)) == Trim(s)
  {
    TrimLeftIsSuffix(s);
    var inner := TrimLeft(s);
    TrimRightIsPrefix(inner);
    left := s[..|s| - |inner|];
    right := inner[|Trim(s)|..];
    if Trim(s) != "" {
      assert Trim(s)[0] == inner[0];
    }
  }
}
