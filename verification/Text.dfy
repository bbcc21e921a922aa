/** The character-level operations the text codecs share: std::getline over a
    string stream, searching, and trimming with std::isspace of the C locale. */
module Text {

  predicate IsSpace(c: char) {
    c == ' ' || 9 <= c as int <= 13
  }

  /** std::string::find of one character; -1 stands for npos. */
  function IndexOf(s: string, c: char): (i: int)
    ensures -1 <= i < |s|
    ensures i == -1 <==> c !in s
    ensures i >= 0 ==> s[i] == c && forall k | 0 <= k < i :: s[k] != c
  {
    if s == "" then -1
    else if s[0] == c then 0
    else
      var rest := IndexOf(s[1..], c);
      assert s == [s[0]] + s[1..];
      if rest < 0 then -1 else rest + 1
  }

  lemma IndexOfIs(s: string, c: char, i: nat)
    requires i < |s| && s[i] == c && forall k | 0 <= k < i :: s[k] != c
    ensures IndexOf(s, c) == i
  {
  }

  predicate StartsWith(s: string, prefix: string) {
    |prefix| <= |s| && s[..|prefix|] == prefix
  }

  lemma OtherFirstChar(s: string, prefix: string)
    requires s != "" && prefix != "" && s[0] != prefix[0]
    ensures !StartsWith(s, prefix)
  {
    assert |prefix| <= |s| ==> s[..|prefix|][0] == s[0];
  }

  function TrimStart(s: string): (r: string)
    ensures r != "" ==> !IsSpace(r[0])
    ensures |r| <= |s| && r == s[|s| - |r|..]
  {
    if s == "" || !IsSpace(s[0]) then s else TrimStart(s[1..])
  }

  function TrimEnd(s: string): (r: string)
    ensures r != "" ==> !IsSpace(r[|r| - 1])
    ensures |r| <= |s| && r == s[..|r|]
  {
    if s == "" || !IsSpace(s[|s| - 1]) then s else TrimEnd(s[..|s| - 1])
  }

  function Trim(s: string): string {
    TrimEnd(TrimStart(s))
  }

  lemma TrimIdentity(s: string)
    requires s != "" ==> !IsSpace(s[0]) && !IsSpace(s[|s| - 1])
    ensures Trim(s) == s
  {
  }

  predicate Blank(s: string) {
    forall i | 0 <= i < |s| :: s[i] in " \t\n\U{0B}\U{0C}\r"
  }

  lemma SpaceIs(c: char)
    ensures IsSpace(c) <==> c in " \t\n\U{0B}\U{0C}\r"
  {
    var blanks := " \t\n\U{0B}\U{0C}\r";
    if IsSpace(c) {
      var i := if c == ' ' then 0 else c as int - 8;
      assert blanks[i] == c;
    }
  }

  /** Trimming drops the blanks on both ends, and nothing else. */
  lemma TrimIs(before: string, middle: string, after: string)
    requires Blank(before) && Blank(after)
    requires middle != "" ==> !Blank([middle[0]]) && !Blank([middle[|middle| - 1]])
    ensures Trim(before + middle + after) == middle
  {
    hide TrimStart, TrimEnd;
    if middle == "" {
      assert before + middle + after == before + after;
      AllBlank(before + after);
    } else {
      assert before + middle + after == before + (middle + after);
      TrimStartIs(before, middle + after);
      TrimEndIs(middle, after);
    }
  }

  lemma {:induction false} TrimStartIs(before: string, rest: string)
    requires Blank(before) && rest != "" && !Blank([rest[0]])
    ensures TrimStart(before + rest) == rest
  {
    if before == "" {
      SpaceIs(rest[0]);
      assert before + rest == rest;
    } else {
      SpaceIs(before[0]);
      TrimStartIs(before[1..], rest);
      assert (before + rest)[1..] == before[1..] + rest;
    }
  }

  lemma {:induction false} AllBlank(s: string)
    requires Blank(s)
    ensures TrimStart(s) == ""
  {
    if s != "" {
      SpaceIs(s[0]);
      AllBlank(s[1..]);
    }
  }

  lemma {:induction false} TrimEndIs(middle: string, after: string)
    requires Blank(after) && middle != "" && !Blank([middle[|middle| - 1]])
    ensures TrimEnd(middle + after) == middle
    decreases |after|
  {
    var s := middle + after;
    if after == "" {
      SpaceIs(middle[|middle| - 1]);
      assert s == middle;
    } else {
      var n := |after| - 1;
      SpaceIs(after[n]);
      TrimEndIs(middle, after[..n]);
      assert s[..|s| - 1] == middle + after[..n];
    }
  }

  lemma TrimKeepsOnly(s: string, c: char)
    requires c !in s
    ensures c !in Trim(s)
  {
  }

  /** The lines std::getline yields: a last line without a newline counts, an
      empty remainder after the last newline does not. */
  function Lines(s: string): seq<string> {
    if s == "" then []
    else
      var i := IndexOf(s, '\n');
      if i < 0 then [s] else [s[..i]] + Lines(s[i + 1..])
  }

  function Concat(pieces: seq<string>): string {
    if pieces == [] then "" else pieces[0] + Concat(pieces[1..])
  }

  function Unlines(ls: seq<string>): string {
    if ls == [] then "" else ls[0] + "\n" + Unlines(ls[1..])
  }

  lemma Associative(a: string, b: string, c: string)
    ensures a + b + c == a + (b + c)
  {
  }

  lemma {:induction false} UnlinesAppend(a: seq<string>, b: seq<string>)
    ensures Unlines(a + b) == Unlines(a) + Unlines(b)
  {
    if a == [] {
      assert a + b == b;
    } else {
      UnlinesAppend(a[1..], b);
      assert (a + b)[1..] == a[1..] + b && (a + b)[0] == a[0];
      Associative(a[0] + "\n", Unlines(a[1..]), Unlines(b));
    }
  }

  lemma LinesOfCons(line: string, rest: string)
    requires '\n' !in line
    ensures Lines(line + "\n" + rest) == [line] + Lines(rest)
  {
    var s := line + "\n" + rest;
    assert forall k | 0 <= k < |line| :: s[k] == line[k];
    IndexOfIs(s, '\n', |line|);
    assert s[..|line|] == line;
    assert s[|line| + 1..] == rest;
  }

  lemma {:induction false} LinesOfUnlines(ls: seq<string>)
    requires forall l | l in ls :: '\n' !in l
    ensures Lines(Unlines(ls)) == ls
  {
    if ls != [] {
      LinesOfUnlines(ls[1..]);
      LinesOfCons(ls[0], Unlines(ls[1..]));
    }
  }

  lemma {:induction false} LinesAreNewlineFree(s: string)
    ensures forall l | l in Lines(s) :: '\n' !in l
    decreases |s|
  {
    if s != "" {
      var i := IndexOf(s, '\n');
      if i >= 0 { LinesAreNewlineFree(s[i + 1..]); }
    }
  }

  /** A text whose last line is ended. */
  function WithLastEnded(s: string): string {
    if s == "" || s[|s| - 1] == '\n' then s else s + "\n"
  }

  lemma EndedAfter(s: string, i: nat)
    requires i < |s| && s[i] == '\n'
    ensures WithLastEnded(s) == s[..i] + "\n" + WithLastEnded(s[i + 1..])
  {
    var rest := s[i + 1..];
    assert s == s[..i] + "\n" + rest;
    if rest != "" {
      assert rest[|rest| - 1] == s[|s| - 1];
      Associative(s[..i] + "\n", rest, "\n");
    }
  }

  /** What the lines are: none holds a newline, and ending each with one gives the
      text, or the text and the newline its last line lacks. */
  lemma {:induction false} UnlinesOfLines(s: string)
    ensures Unlines(Lines(s)) == if s == "" || s[|s| - 1] == '\n' then s else s + "\n"
    ensures forall l | l in Lines(s) :: '\n' !in l
    decreases |s|
  {
    LinesAreNewlineFree(s);
    EndedLines(s);
  }

  lemma {:induction false} EndedLines(s: string)
    ensures Unlines(Lines(s)) == WithLastEnded(s)
    decreases |s|
  {
    hide WithLastEnded;
    if s != "" {
      var i := IndexOf(s, '\n');
      if i < 0 {
        assert Unlines([s][1..]) == "";
        assert WithLastEnded(s) == s + "\n" by { OneLine(s); }
      } else {
        var rest := s[i + 1..];
        EndedLines(rest);
        EndedAfter(s, i);
        assert Lines(s)[1..] == Lines(rest) && Lines(s)[0] == s[..i];
      }
    } else {
      assert WithLastEnded("") == "" by { NoLine(); }
    }
  }

  lemma OneLine(s: string)
    requires s != "" && '\n' !in s
    ensures WithLastEnded(s) == s + "\n"
  {
  }

  lemma NoLine()
    ensures WithLastEnded("") == ""
  {
  }

  /** std::getline until the stream is exhausted. */
  method ReadLines(s: string) returns (lines: seq<string>)
    ensures lines == Lines(s)
  {
    lines := [];
    var rest := s;
    while rest != ""
      invariant Lines(s) == lines + Lines(rest)
      decreases |rest|
    {
      var i := IndexOf(rest, '\n');
      if i < 0 {
        lines := lines + [rest];
        rest := "";
      } else {
        lines := lines + [rest[..i]];
        rest := rest[i + 1..];
      }
    }
  }
}
