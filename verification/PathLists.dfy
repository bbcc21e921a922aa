/** Path lists such as PATH: splitting, normal forms, duplicates, and joining. */
module PathLists {
  import opened Prelude
  import opened Text

  // ----- pieces between separators

  /** All pieces, the empty ones too; there is one more piece than separators. */
  function Pieces(s: string, c: char): (r: seq<string>)
    ensures r != []
  {
    var i := IndexOf(s, c);
    if i < 0 then [s] else [s[..i]] + Pieces(s[i + 1..], c)
  }

  function Joined(pieces: seq<string>, c: char): string {
    if pieces == [] then ""
    else if |pieces| == 1 then pieces[0]
    else pieces[0] + [c] + Joined(pieces[1..], c)
  }

  lemma PiecesCons(a: string, c: char, rest: string)
    requires c !in a
    ensures Pieces(a + [c] + rest, c) == [a] + Pieces(rest, c)
  {
    var s := a + [c] + rest;
    assert forall k | 0 <= k < |a| :: s[k] == a[k];
    IndexOfIs(s, c, |a|);
    assert s[..|a|] == a && s[|a| + 1..] == rest;
  }

  lemma PiecesOne(a: string, c: char)
    requires c !in a
    ensures Pieces(a, c) == [a]
  {
  }

  predicate Free(pieces: seq<string>, c: char) {
    forall i | 0 <= i < |pieces| :: c !in pieces[i]
  }

  lemma {:induction false} PiecesOfJoined(pieces: seq<string>, c: char)
    requires pieces != [] && Free(pieces, c)
    ensures Pieces(Joined(pieces, c), c) == pieces
  {
    hide Pieces;
    if |pieces| == 1 {
      PiecesOne(pieces[0], c);
    } else {
      PiecesOfJoined(pieces[1..], c);
      PiecesCons(pieces[0], c, Joined(pieces[1..], c));
    }
  }

  lemma {:induction false} PiecesAreFree(s: string, c: char)
    ensures Free(Pieces(s, c), c)
    decreases |s|
  {
    var i := IndexOf(s, c);
    if i >= 0 { PiecesAreFree(s[i + 1..], c); }
  }

  lemma JoinedCons(a: string, rest: seq<string>, c: char)
    requires rest != []
    ensures Joined([a] + rest, c) == a + [c] + Joined(rest, c)
  {
    assert ([a] + rest)[1..] == rest;
  }

  lemma CutAt(s: string, i: nat, c: char)
    requires i < |s| && s[i] == c
    ensures s == s[..i] + [c] + s[i + 1..]
  {
  }

  /** What the pieces are: free of the separator, and joined they give the text. */
  lemma {:induction false} JoinedOfPieces(s: string, c: char)
    ensures Joined(Pieces(s, c), c) == s && Free(Pieces(s, c), c)
    decreases |s|
  {
    PiecesAreFree(s, c);
    var i := IndexOf(s, c);
    if i < 0 {
      PiecesOne(s, c);
    } else {
      hide Pieces, Joined, Free;
      JoinedOfPieces(s[i + 1..], c);
      CutAt(s, i, c);
      PiecesCons(s[..i], c, s[i + 1..]);
      JoinedCons(s[..i], Pieces(s[i + 1..], c), c);
    }
  }

  predicate DrawnFrom(pieces: seq<string>, s: string) {
    forall i, x | 0 <= i < |pieces| && x in pieces[i] :: x in s
  }

  lemma DrawnCons(head: string, tail: seq<string>, rest: string, s: string)
    requires DrawnFrom(tail, rest)
    requires (forall x | x in rest :: x in s) && (forall x | x in head :: x in s)
    ensures DrawnFrom([head] + tail, s)
  {
    forall k, x | 0 <= k < |[head] + tail| && x in ([head] + tail)[k] ensures x in s {
      if k > 0 { assert x in tail[k - 1]; }
    }
  }

  lemma NothingDrawn()
    ensures DrawnFrom([], "")
  {
  }

  lemma SlicesAreDrawn(s: string, i: nat)
    requires i < |s|
    ensures forall x | x in s[..i] :: x in s
    ensures forall x | x in s[i + 1..] :: x in s
  {
  }

  lemma {:induction false} PiecesAreDrawn(s: string, c: char)
    ensures DrawnFrom(Pieces(s, c), s)
    decreases |s|
  {
    hide IndexOf, DrawnFrom;
    var i := IndexOf(s, c);
    if i >= 0 {
      PiecesAreDrawn(s[i + 1..], c);
      SlicesAreDrawn(s, i);
      DrawnCons(s[..i], Pieces(s[i + 1..], c), s[i + 1..], s);
    } else {
      NothingDrawn();
      DrawnCons(s, [], "", s);
      assert [s] + [] == [s];
    }
  }

  // ----- normal forms: section [fs.path.generic] of ISO C++17, for POSIX

  function NonEmpty(pieces: seq<string>): seq<string> {
    if pieces == [] then []
    else (if pieces[0] == "" then [] else [pieces[0]]) + NonEmpty(pieces[1..])
  }

  /** The file names of a path. */
  function Names(path: string): seq<string> {
    NonEmpty(Pieces(path, '/'))
  }

  function Last<T>(s: seq<T>): T
    requires s != []
  {
    s[|s| - 1]
  }

  predicate IsRooted(path: string) {
    path != "" && path[0] == '/'
  }

  /** Dots vanish, a dot-dot takes the name before it, and at the root it vanishes. */
  function Resolve(rooted: bool, stack: seq<string>, names: seq<string>): seq<string>
    decreases |names|
  {
    if names == [] then stack
    else if names[0] == "." then Resolve(rooted, stack, names[1..])
    else if names[0] != ".." then Resolve(rooted, stack + [names[0]], names[1..])
    else if stack != [] && Last(stack) != ".." then Resolve(rooted, stack[..|stack| - 1], names[1..])
    else if rooted then Resolve(rooted, stack, names[1..])
    else Resolve(rooted, stack + [".."], names[1..])
  }

  /** Whether the names are followed by a separator: it was there, or what followed
      it has vanished; but never after a dot-dot. */
  predicate KeepsSlash(path: string, stack: seq<string>) {
    && stack != [] && Last(stack) != ".." && path != ""
    && (Last(path) == '/' || (Names(path) != [] && (Last(Names(path)) == "." || Last(Names(path)) == "..")))
  }

  function PathText(rooted: bool, stack: seq<string>, slash: bool): string {
    (if rooted then "/" else "") + Joined(stack, '/') + (if slash then "/" else "")
  }

  function Normal(path: string): string {
    if path == "" then ""
    else
      var stack := Resolve(IsRooted(path), [], Names(path));
      var text := PathText(IsRooted(path), stack, KeepsSlash(path, stack));
      if text == "" then "." else text
  }

  predicate IsName(s: string) {
    s != "" && '/' !in s
  }

  predicate AreNames(names: seq<string>) {
    forall i | 0 <= i < |names| :: IsName(names[i])
  }

  /** A resolved stack: no dots, and dot-dots only at the front of a relative one. */
  predicate Resolved(rooted: bool, stack: seq<string>) {
    && AreNames(stack)
    && (forall i | 0 <= i < |stack| :: stack[i] != "." && (rooted ==> stack[i] != ".."))
    && (forall i, j | 0 <= i < j < |stack| && stack[j] == ".." :: stack[i] == "..")
  }

  lemma {:induction false} ResolveIsResolved(rooted: bool, stack: seq<string>, names: seq<string>)
    requires Resolved(rooted, stack) && AreNames(names)
    ensures Resolved(rooted, Resolve(rooted, stack, names))
    ensures forall x | x in Resolve(rooted, stack, names) :: x in stack || x in names
    decreases |names|
  {
    if names != [] {
      var rest := names[1..];
      assert forall x | x in rest :: x in names;
      if names[0] == "." {
        ResolveIsResolved(rooted, stack, rest);
      } else if names[0] != ".." {
        ResolveIsResolved(rooted, stack + [names[0]], rest);
      } else if stack != [] && Last(stack) != ".." {
        ResolveIsResolved(rooted, stack[..|stack| - 1], rest);
      } else if rooted {
        ResolveIsResolved(rooted, stack, rest);
      } else {
        ResolveIsResolved(rooted, stack + [".."], rest);
      }
    }
  }

  lemma {:induction false} ResolveAgain(rooted: bool, stack: seq<string>, names: seq<string>)
    requires Resolved(rooted, stack + names)
    ensures Resolve(rooted, stack, names) == stack + names
    decreases |names|
  {
    if names == [] {
      assert stack + names == stack;
    } else {
      assert (stack + names)[|stack|] == names[0];
      if stack != [] { assert (stack + names)[|stack| - 1] == Last(stack); }
      assert stack + [names[0]] + names[1..] == stack + names;
      ResolveAgain(rooted, stack + [names[0]], names[1..]);
    }
  }

  lemma {:induction false} NonEmptyIs(pieces: seq<string>)
    ensures forall x :: x in NonEmpty(pieces) <==> x in pieces && x != ""
  {
    if pieces != [] {
      NonEmptyIs(pieces[1..]);
      assert pieces == [pieces[0]] + pieces[1..];
    }
  }

  lemma NamesAreNames(path: string)
    ensures AreNames(Names(path))
    ensures forall n, x | n in Names(path) && x in n :: x in path
  {
    hide Pieces;
    var pieces := Pieces(path, '/');
    PiecesAreFree(path, '/');
    PiecesAreDrawn(path, '/');
    NonEmptyIs(pieces);
    forall n | n in Names(path) ensures IsName(n) && forall x | x in n :: x in path {
      var i :| 0 <= i < |pieces| && pieces[i] == n;
    }
  }

  lemma {:induction false} NonEmptyAppend(a: seq<string>, b: seq<string>)
    ensures NonEmpty(a + b) == NonEmpty(a) + NonEmpty(b)
  {
    if a == [] {
      assert a + b == b;
    } else {
      NonEmptyAppend(a[1..], b);
      assert (a + b)[1..] == a[1..] + b && (a + b)[0] == a[0];
    }
  }

  lemma {:induction false} AllNonEmpty(names: seq<string>)
    requires AreNames(names)
    ensures NonEmpty(names) == names
  {
    if names != [] { AllNonEmpty(names[1..]); }
  }

  /** The pieces of names with a separator after the last one. */
  lemma {:induction false} PiecesWithSlash(names: seq<string>)
    requires names != [] && AreNames(names)
    ensures Pieces(Joined(names, '/') + "/", '/') == names + [""]
  {
    hide Pieces;
    PiecesOne("", '/');
    if |names| == 1 {
      PiecesCons(names[0], '/', "");
      assert names[0] + "/" + "" == names[0] + "/";
    } else {
      PiecesWithSlash(names[1..]);
      PiecesCons(names[0], '/', Joined(names[1..], '/') + "/");
      Associative(names[0] + "/", Joined(names[1..], '/'), "/");
    }
  }

  /** Reading a text back gives the names it was made of. */
  lemma NamesOfText(rooted: bool, stack: seq<string>, slash: bool)
    requires AreNames(stack) && (slash ==> stack != [])
    ensures Names(PathText(rooted, stack, slash)) == stack
  {
    hide Pieces;
    var body := Joined(stack, '/') + (if slash then "/" else "");
    PiecesOne("", '/');
    AllNonEmpty(stack);
    NonEmptyAppend(stack, [""]);
    assert NonEmpty([""]) == [] by { assert [""][1..] == []; }
    if slash {
      PiecesWithSlash(stack);
    } else {
      assert body == Joined(stack, '/');
      if stack != [] { PiecesOfJoined(stack, '/'); }
    }
    assert NonEmpty(Pieces(body, '/')) == stack;
    if rooted {
      PiecesCons("", '/', body);
      assert "" + "/" + body == PathText(rooted, stack, slash);
      NonEmptyAppend([""], Pieces(body, '/'));
    } else {
      assert body == PathText(rooted, stack, slash);
    }
  }

  lemma {:induction false} JoinedEnds(names: seq<string>)
    requires names != [] && AreNames(names)
    ensures var j := Joined(names, '/'); j != "" && Last(j) != '/' && j[0] != '/'
  {
    if |names| > 1 { JoinedEnds(names[1..]); }
  }

  lemma TextEnds(rooted: bool, stack: seq<string>, slash: bool)
    requires AreNames(stack) && (slash ==> stack != [])
    ensures var t := PathText(rooted, stack, slash);
            && (t == "" <==> !rooted && stack == [])
            && (t != "" ==> (Last(t) == '/' <==> slash || stack == []))
            && IsRooted(t) == rooted
  {
    if stack != [] { JoinedEnds(stack); }
  }

  /** The normal form of a normal form is itself. */
  lemma NormalIsIdempotent(path: string)
    ensures Normal(Normal(path)) == Normal(path)
  {
    hide Resolve, Names, PathText;
    if path != "" {
      var rooted := IsRooted(path);
      var stack := Resolve(rooted, [], Names(path));
      var slash := KeepsSlash(path, stack);
      NamesAreNames(path);
      ResolveIsResolved(rooted, [], Names(path));
      TextEnds(rooted, stack, slash);
      if PathText(rooted, stack, slash) == "" {
        NormalOfDot();
      } else {
        NamesOfText(rooted, stack, slash);
        ResolveAgain(rooted, [], stack);
        assert [] + stack == stack;
      }
    }
  }

  lemma NormalOfDot()
    ensures Normal(".") == "."
  {
    PiecesOne(".", '/');
    assert ["."][1..] == [];
    assert Names(".") == ["."];
    assert Resolve(false, [], ["."]) == [];
  }

  lemma NormalKeepsRoot(path: string)
    requires path != ""
    ensures Normal(path) != "" && IsRooted(Normal(path)) == IsRooted(path)
  {
    hide Resolve, Names, PathText;
    var stack := Resolve(IsRooted(path), [], Names(path));
    NamesAreNames(path);
    ResolveIsResolved(IsRooted(path), [], Names(path));
    TextEnds(IsRooted(path), stack, KeepsSlash(path, stack));
  }

  /** The path ends in a separator, or in a dot or dot-dot name. */
  ghost predicate EndsInDots(path: string) {
    exists before, tail :: path == before + tail && IsTail(before, tail)
  }

  predicate IsTail(before: string, tail: string) {
    (before == "" || before[|before| - 1] == '/') && (tail == "" || tail == "." || tail == "..")
  }

  lemma {:induction false} LastPiece(before: string, tail: string)
    requires '/' !in tail && (before == "" || before[|before| - 1] == '/')
    ensures Last(Pieces(before + tail, '/')) == tail
    decreases |before|
  {
    var path := before + tail;
    if before == "" {
      assert path == tail;
      PiecesOne(tail, '/');
    } else {
      hide Pieces;
      var i := IndexOf(before, '/');
      CutAt(before, i, '/');
      var rest := before[i + 1..] + tail;
      assert path == before[..i] + "/" + rest;
      LastPiece(before[i + 1..], tail);
      PiecesCons(before[..i], '/', rest);
    }
  }

  lemma {:induction false} LastNonEmpty(pieces: seq<string>)
    requires pieces != [] && Last(pieces) != ""
    ensures NonEmpty(pieces) != [] && Last(NonEmpty(pieces)) == Last(pieces)
  {
    if |pieces| > 1 { LastNonEmpty(pieces[1..]); }
  }

  lemma SplitTail(path: string) returns (before: string, tail: string)
    ensures path == before + tail && '/' !in tail && (before == "" || before[|before| - 1] == '/')
  {
    var n := |path|;
    while n > 0 && path[n - 1] != '/'
      invariant 0 <= n <= |path| && '/' !in path[n..]
    {
      n := n - 1;
    }
    before, tail := path[..n], path[n..];
  }

  lemma TailDecides(path: string)
    requires path != ""
    ensures Last(path) == '/' || (Names(path) != [] && (Last(Names(path)) == "." || Last(Names(path)) == "..")) <==> EndsInDots(path)
  {
    hide Pieces, NonEmpty;
    var before, tail := SplitTail(path);
    LastPiece(before, tail);
    if tail != "" { LastNonEmpty(Pieces(path, '/')); }
    forall b, t | path == b + t && IsTail(b, t) ensures IsTail(before, tail) {
      LastPiece(b, t);
    }
  }

  /** The normal form: resolved names with single separators between them, one in front
      if the path is rooted, and one behind if the path ends in a separator or in dots
      and a name other than dot-dot is left; a dot if nothing is left. */
  lemma NormalForm(path: string) returns (stack: seq<string>, slash: bool)
    requires path != ""
    ensures Resolved(path[0] == '/', stack)
    ensures slash <==> stack != [] && stack[|stack| - 1] != ".." && EndsInDots(path)
    ensures Normal(path) ==
            if stack == [] && path[0] != '/' then "."
            else (if path[0] == '/' then "/" else "") + Joined(stack, '/') + (if slash then "/" else "")
  {
    hide Names, EndsInDots;
    stack := Resolve(IsRooted(path), [], Names(path));
    slash := KeepsSlash(path, stack);
    TailDecides(path);
    NamesAreNames(path);
    ResolveIsResolved(IsRooted(path), [], Names(path));
    TextEnds(IsRooted(path), stack, slash);
  }

  // ----- normal forms lead to the same place

  /** Following names from a directory, in a tree without symbolic links. */
  function Walk(from: seq<string>, names: seq<string>): seq<string> {
    if names == [] then from
    else
      var there, last := Walk(from, names[..|names| - 1]), Last(names);
      if last == "." then there
      else if last != ".." then there + [last]
      else if there == [] then []
      else there[..|there| - 1]
  }

  function Place(cwd: seq<string>, path: string): seq<string> {
    Walk(if IsRooted(path) then [] else cwd, Names(path))
  }

  lemma WalkOne(from: seq<string>, names: seq<string>, last: string)
    ensures Walk(from, names + [last]) ==
            var there := Walk(from, names);
            if last == "." then there
            else if last != ".." then there + [last]
            else if there == [] then []
            else there[..|there| - 1]
  {
    assert (names + [last])[..|names|] == names;
  }

  lemma {:induction false} WalkAppend(from: seq<string>, a: seq<string>, b: seq<string>)
    ensures Walk(from, a + b) == Walk(Walk(from, a), b)
  {
    if b == [] {
      assert a + b == a;
    } else {
      WalkAppend(from, a, b[..|b| - 1]);
      assert (a + b)[..|a + b| - 1] == a + b[..|b| - 1];
    }
  }

  lemma {:induction false} ResolveLeadsThere(rooted: bool, from: seq<string>, stack: seq<string>, names: seq<string>)
    requires Resolved(rooted, stack) && AreNames(names) && (rooted ==> from == [])
    ensures Walk(from, Resolve(rooted, stack, names)) == Walk(Walk(from, stack), names)
    decreases |names|
  {
    hide Walk;
    if names == [] {
      WalkNothing(Walk(from, stack));
    } else {
      var next, rest := names[0], names[1..];
      assert names == [next] + rest;
      WalkAppend(Walk(from, stack), [next], rest);
      WalkOne(Walk(from, stack), [], next);
      WalkNothing(Walk(from, stack));
      assert [] + [next] == [next];
      if next == "." {
        ResolveLeadsThere(rooted, from, stack, rest);
      } else if next != ".." {
        WalkOne(from, stack, next);
        ResolveLeadsThere(rooted, from, stack + [next], rest);
      } else if stack != [] && Last(stack) != ".." {
        var shorter := stack[..|stack| - 1];
        WalkOne(from, shorter, Last(stack));
        assert shorter + [Last(stack)] == stack;
        ResolveLeadsThere(rooted, from, shorter, rest);
      } else if rooted {
        WalkNothing(from);
        ResolveLeadsThere(rooted, from, stack, rest);
      } else {
        WalkOne(from, stack, "..");
        ResolveLeadsThere(rooted, from, stack + [".."], rest);
      }
    }
  }

  lemma WalkNothing(from: seq<string>)
    ensures Walk(from, []) == from
  {
  }

  /** From every directory a path and its normal form lead to the same place. */
  lemma NormalLeadsThere(path: string, cwd: seq<string>)
    ensures Place(cwd, Normal(path)) == Place(cwd, path)
  {
    hide Resolve, Names, PathText, Walk;
    if path != "" {
      var rooted := IsRooted(path);
      var from := if rooted then [] else cwd;
      var stack := Resolve(rooted, [], Names(path));
      var slash := KeepsSlash(path, stack);
      NamesAreNames(path);
      ResolveIsResolved(rooted, [], Names(path));
      ResolveLeadsThere(rooted, from, [], Names(path));
      WalkNothing(from);
      TextEnds(rooted, stack, slash);
      NamesOfText(rooted, stack, slash);
      if PathText(rooted, stack, slash) == "" {
        NamesOfDot();
        WalkOne(from, [], ".");
        assert [] + ["."] == ["."];
      }
    }
  }

  lemma NamesOfDot()
    ensures Names(".") == ["."]
  {
    PiecesOne(".", '/');
    assert ["."][1..] == [];
  }

  // ----- no separator appears that was not there

  lemma {:induction false} JoinedChars(names: seq<string>, x: char)
    requires x in Joined(names, '/')
    ensures (x == '/' && |names| > 1) || exists i :: 0 <= i < |names| && x in names[i]
  {
    if |names| > 1 && x !in names[0] && x != '/' {
      JoinedChars(names[1..], x);
      var i :| 0 <= i < |names[1..]| && x in names[1..][i];
      assert x in names[i + 1];
    }
  }

  lemma NoSlash(path: string)
    requires path != "" && '/' !in path
    ensures Normal(path) == path
  {
    hide Pieces;
    PiecesOne(path, '/');
    AllNonEmpty([path]);
    assert Resolve(false, [], [path]) == if path == "." then [] else [path] by { ResolveOne(path); }
    if path != "." { assert Joined([path], '/') == path; }
  }

  lemma ResolveOne(name: string)
    ensures Resolve(false, [], [name]) == if name == "." then [] else [name]
  {
    assert [name][1..] == [];
    assert [] + [name] == [name] && [] + [".."] == [".."];
  }

  lemma {:induction false} NoDots(rooted: bool, stack: seq<string>, names: seq<string>)
    requires forall i | 0 <= i < |names| :: names[i] != "." && names[i] != ".."
    ensures Resolve(rooted, stack, names) == stack + names
    decreases |names|
  {
    if names == [] {
      assert stack + names == stack;
    } else {
      NoDots(rooted, stack + [names[0]], names[1..]);
      assert stack + [names[0]] + names[1..] == stack + names;
    }
  }

  lemma NormalIsMadeOf(path: string, x: char)
    requires path != "" && x != '/' && x != '.' && x in Normal(path)
    ensures x in path
  {
    hide Resolve, Names, Joined;
    var stack := Resolve(IsRooted(path), [], Names(path));
    NamesAreNames(path);
    ResolveIsResolved(IsRooted(path), [], Names(path));
    JoinedChars(stack, x);
    var i :| 0 <= i < |stack| && x in stack[i];
    assert stack[i] in Names(path);
  }

  lemma NoDotAppears(path: string)
    requires path != "" && '.' !in path
    ensures '.' !in Normal(path)
  {
    hide Resolve, Names, Joined;
    var names := Names(path);
    NamesAreNames(path);
    forall i | 0 <= i < |names| ensures names[i] != "." && names[i] != ".." && '.' !in names[i] {
      assert names[i] in names;
      assert "."[0] == '.' && ".."[0] == '.';
    }
    NoDots(IsRooted(path), [], names);
    assert [] + names == names;
    if '.' in Joined(names, '/') { JoinedChars(names, '.'); }
    if !IsRooted(path) { HasNames(path); }
    TextEnds(IsRooted(path), names, KeepsSlash(path, names));
  }

  lemma HasNames(path: string)
    requires path != "" && !IsRooted(path)
    ensures Names(path) != []
  {
    var i := IndexOf(path, '/');
    assert Pieces(path, '/')[0] == if i < 0 then path else path[..i];
  }

  /** A separator that a path does not contain does not appear in its normal form. */
  lemma SeparatorStaysOut(path: string, c: char)
    requires path != "" && c !in path
    ensures c !in Normal(path)
  {
    hide Normal;
    if c == '/' {
      NoSlash(path);
    } else if c == '.' {
      NoDotAppears(path);
    } else if c in Normal(path) {
      NormalIsMadeOf(path, c);
    }
  }

  // ----- lists

  datatype Options = Options(requireAbsolute: bool, dropDuplicates: bool, separator: Option<char>)

  datatype Reason = Selected | EmptyEntry | RelativeEntry | Duplicate

  datatype Candidate = Candidate(path: string, reason: Reason)

  datatype Report = Report(paths: seq<string>, candidates: seq<Candidate>)

  const NoReport := Report([], [])

  function SeparatorOf(o: Options): char {
    match o.separator case Some(c) => c case None => ':'
  }

  function Judged(segment: string, o: Options, seen: set<string>): Candidate {
    if segment == "" then Candidate("", EmptyEntry)
    else if o.requireAbsolute && !IsRooted(segment) then Candidate(segment, RelativeEntry)
    else if o.dropDuplicates && Normal(segment) in seen then Candidate(segment, Duplicate)
    else Candidate(Normal(segment), Selected)
  }

  function WithCandidate(r: Report, c: Candidate): Report {
    Report(if c.reason.Selected? then r.paths + [c.path] else r.paths, r.candidates + [c])
  }

  function Elements(s: seq<string>): set<string> {
    set x | x in s
  }

  function ParseSegments(r: Report, segments: seq<string>, o: Options): Report
    decreases |segments|
  {
    if segments == [] then r
    else ParseSegments(WithCandidate(r, Judged(segments[0], o, Elements(r.paths))), segments[1..], o)
  }

  function ParseList(value: string, o: Options): Report {
    ParseSegments(NoReport, Pieces(value, SeparatorOf(o)), o)
  }

  /** The source keeps the normal forms of the selected paths in `seen`. */
  method Flush(report: Report, current: string, o: Options, seen: set<string>) returns (next: Report, nowSeen: set<string>)
    requires o.dropDuplicates ==> seen == Elements(report.paths)
    ensures next == WithCandidate(report, Judged(current, o, Elements(report.paths)))
    ensures o.dropDuplicates ==> nowSeen == Elements(next.paths)
  {
    hide Normal;
    nowSeen := seen;
    if current == "" {
      return WithCandidate(report, Candidate("", EmptyEntry)), nowSeen;
    }
    if o.requireAbsolute && !IsRooted(current) {
      return WithCandidate(report, Candidate(current, RelativeEntry)), nowSeen;
    }
    var normalized := Normal(current);
    if o.dropDuplicates {
      if normalized in seen {
        return WithCandidate(report, Candidate(current, Duplicate)), nowSeen;
      }
      nowSeen := nowSeen + {normalized};
    }
    next := WithCandidate(report, Candidate(normalized, Selected));
  }

  method ParsePathList(value: string, o: Options) returns (report: Report)
    ensures report == ParseList(value, o)
  {
    hide Judged, Pieces, ParseSegments, WithCandidate, Elements;
    EmptyIsSeen();
    var separator := SeparatorOf(o);
    report := NoReport;
    var seen: set<string> := {};
    var current := "";
    assert "" + value[0..] == value;
    for i := 0 to |value|
      invariant o.dropDuplicates ==> seen == Elements(report.paths)
      invariant separator !in current
      invariant ParseSegments(report, Pieces(current + value[i..], separator), o) == ParseList(value, o)
    {
      if value[i] == separator {
        PieceEnds(current, value, i);
        NextSegment(report, current, Pieces(value[i + 1..], separator), o);
        report, seen := Flush(report, current, o, seen);
        current := "";
        assert "" + value[i + 1..] == value[i + 1..];
      } else {
        PieceGoesOn(current, value, i);
        current := current + [value[i]];
      }
    }
    assert current + value[|value|..] == current;
    PiecesOne(current, separator);
    NextSegment(report, current, [], o);
    report, seen := Flush(report, current, o, seen);
    NoSegments(report, o);
  }

  lemma PieceEnds(current: string, value: string, i: nat)
    requires i < |value| && value[i] !in current
    ensures Pieces(current + value[i..], value[i]) == [current] + Pieces(value[i + 1..], value[i])
  {
    hide Pieces;
    PiecesCons(current, value[i], value[i + 1..]);
    assert current + value[i..] == current + [value[i]] + value[i + 1..];
  }

  lemma PieceGoesOn(current: string, value: string, i: nat)
    requires i < |value|
    ensures current + value[i..] == current + [value[i]] + value[i + 1..]
  {
  }

  lemma EmptyIsSeen()
    ensures Elements(NoReport.paths) == {}
  {
  }

  lemma NoSegments(r: Report, o: Options)
    ensures ParseSegments(r, [], o) == r
  {
  }

  lemma NextSegment(r: Report, segment: string, rest: seq<string>, o: Options)
    ensures ParseSegments(r, [segment] + rest, o) == ParseSegments(WithCandidate(r, Judged(segment, o, Elements(r.paths))), rest, o)
    ensures [segment] + [] == [segment]
  {
    assert ([segment] + rest)[1..] == rest;
  }

  method JoinPathList(paths: seq<string>, o: Options) returns (joined: string)
    ensures joined == Joined(paths, SeparatorOf(o))
  {
    joined := "";
    var first := true;
    for i := 0 to |paths|
      invariant first == (i == 0)
      invariant first ==> joined == ""
      invariant !first ==> Joined(paths, SeparatorOf(o)) == if i == |paths| then joined else joined + [SeparatorOf(o)] + Joined(paths[i..], SeparatorOf(o))
    {
      assert paths[i..][1..] == paths[i + 1..];
      assert i == 0 ==> paths[i..] == paths;
      if i + 1 < |paths| {
        Associative(joined + [SeparatorOf(o)], paths[i] + [SeparatorOf(o)], Joined(paths[i + 1..], SeparatorOf(o)));
        Associative(joined + [SeparatorOf(o)], paths[i], [SeparatorOf(o)]);
      }
      if !first {
        joined := joined + [SeparatorOf(o)];
      }
      first := false;
      joined := joined + paths[i];
    }
  }

  // ----- what a report says

  /** Usable: absolute if it must be, normal, and free of the separator. */
  predicate IsKept(path: string, o: Options) {
    path != "" && Normal(path) == path && SeparatorOf(o) !in path && (o.requireAbsolute ==> IsRooted(path))
  }

  predicate Distinct(s: seq<string>) {
    forall i, j | 0 <= i < j < |s| :: s[i] != s[j]
  }

  predicate ReportOk(r: Report, o: Options) {
    && (forall i | 0 <= i < |r.paths| :: IsKept(r.paths[i], o))
    && (o.dropDuplicates ==> Distinct(r.paths))
  }

  lemma JudgedIsKept(segment: string, o: Options, seen: set<string>)
    requires SeparatorOf(o) !in segment && Judged(segment, o, seen).reason.Selected?
    ensures IsKept(Judged(segment, o, seen).path, o)
    ensures o.dropDuplicates ==> Judged(segment, o, seen).path !in seen
  {
    hide Normal;
    NormalIsIdempotent(segment);
    NormalKeepsRoot(segment);
    SeparatorStaysOut(segment, SeparatorOf(o));
  }

  lemma {:induction false} ParseIsOk(r: Report, segments: seq<string>, o: Options)
    requires ReportOk(r, o) && Free(segments, SeparatorOf(o))
    ensures ReportOk(ParseSegments(r, segments, o), o)
    ensures |ParseSegments(r, segments, o).candidates| == |r.candidates| + |segments|
    decreases |segments|
  {
    hide Judged, IsKept;
    if segments != [] {
      var c := Judged(segments[0], o, Elements(r.paths));
      if c.reason.Selected? { JudgedIsKept(segments[0], o, Elements(r.paths)); }
      ParseIsOk(WithCandidate(r, c), segments[1..], o);
    }
  }

  lemma NextIsNew(a: seq<string>, b: seq<string>)
    requires Distinct(a + b) && b != []
    ensures b[0] !in a
  {
    forall k | 0 <= k < |a| ensures a[k] != b[0] {
      assert (a + b)[k] == a[k] && (a + b)[|a|] == b[0];
    }
  }

  /** Kept, distinct paths are selected again, all of them and in order. */
  lemma {:induction false} KeptAreSelected(r: Report, paths: seq<string>, o: Options)
    requires forall i | 0 <= i < |paths| :: IsKept(paths[i], o)
    requires o.dropDuplicates ==> Distinct(r.paths + paths)
    ensures ParseSegments(r, paths, o).paths == r.paths + paths
    decreases |paths|
  {
    hide Normal;
    if paths == [] {
      assert r.paths + paths == r.paths;
    } else {
      var c := Judged(paths[0], o, Elements(r.paths));
      if o.dropDuplicates { NextIsNew(r.paths, paths); }
      assert c == Candidate(paths[0], Selected);
      assert r.paths + [paths[0]] + paths[1..] == r.paths + paths;
      KeptAreSelected(WithCandidate(r, c), paths[1..], o);
    }
  }

  /** The list of paths is a fixed point: joining it and parsing the text again gives
      the same list, whatever the value, the options and the separator. */
  lemma ParsedPathsAreFixed(value: string, o: Options)
    ensures var paths := ParseList(value, o).paths;
            ParseList(Joined(paths, SeparatorOf(o)), o).paths == paths
  {
    hide Pieces, IsKept, ParseSegments, Judged, Joined;
    var c := SeparatorOf(o);
    PiecesAreFree(value, c);
    ParseIsOk(NoReport, Pieces(value, c), o);
    var paths := ParseList(value, o).paths;
    if paths == [] {
      NothingParsed(o);
    } else {
      forall i | 0 <= i < |paths| ensures c !in paths[i] { KeptIsFree(paths[i], o); }
      PiecesOfJoined(paths, c);
      assert [] + paths == paths;
      KeptAreSelected(NoReport, paths, o);
    }
  }

  lemma KeptIsFree(path: string, o: Options)
    requires IsKept(path, o)
    ensures SeparatorOf(o) !in path
  {
  }

  lemma NothingParsed(o: Options)
    ensures ParseList(Joined([], SeparatorOf(o)), o).paths == []
  {
    PiecesOne("", SeparatorOf(o));
    assert [""][1..] == [];
  }

  function SelectedPaths(cs: seq<Candidate>): seq<string> {
    if cs == [] then []
    else SelectedPaths(cs[..|cs| - 1]) + (if Last(cs).reason.Selected? then [Last(cs).path] else [])
  }

  lemma {:induction false} PathsAreSelected(r: Report, segments: seq<string>, o: Options)
    requires r.paths == SelectedPaths(r.candidates)
    ensures var s := ParseSegments(r, segments, o); s.paths == SelectedPaths(s.candidates)
    decreases |segments|
  {
    hide Judged;
    if segments != [] {
      var next := WithCandidate(r, Judged(segments[0], o, Elements(r.paths)));
      assert next.candidates[..|next.candidates| - 1] == r.candidates;
      PathsAreSelected(next, segments[1..], o);
    }
  }

  lemma {:induction false} EverySegmentCounts(r: Report, segments: seq<string>, o: Options, s: string)
    requires s in segments && s != "" && (o.requireAbsolute ==> IsRooted(s))
    ensures Normal(s) in ParseSegments(r, segments, o).paths
    decreases |segments|
  {
    hide Normal;
    var next := WithCandidate(r, Judged(segments[0], o, Elements(r.paths)));
    if s == segments[0] {
      assert Normal(s) in next.paths;
      PathsGrow(next, segments[1..], o, Normal(s));
    } else {
      assert segments == [segments[0]] + segments[1..];
      EverySegmentCounts(next, segments[1..], o, s);
    }
  }

  lemma {:induction false} PathsGrow(r: Report, segments: seq<string>, o: Options, p: string)
    requires p in r.paths
    ensures p in ParseSegments(r, segments, o).paths
    decreases |segments|
  {
    hide Judged;
    if segments != [] { PathsGrow(WithCandidate(r, Judged(segments[0], o, Elements(r.paths))), segments[1..], o, p); }
  }

  /** One candidate per segment; the selected ones, in order, are the paths; each is
      a normal form, none twice if duplicates are dropped; and no usable segment is
      lost. */
  lemma ReportIsComplete(value: string, o: Options)
    ensures var r, segments := ParseList(value, o), Pieces(value, SeparatorOf(o));
            && |r.candidates| == |segments| && r.paths == SelectedPaths(r.candidates)
            && (forall i | 0 <= i < |r.paths| :: IsKept(r.paths[i], o))
            && (o.dropDuplicates ==> Distinct(r.paths))
            && (forall s | s in segments && s != "" && (o.requireAbsolute ==> IsRooted(s)) :: Normal(s) in r.paths)
  {
    hide Pieces, IsKept, ParseSegments, Normal;
    var segments := Pieces(value, SeparatorOf(o));
    PiecesAreFree(value, SeparatorOf(o));
    ParseIsOk(NoReport, segments, o);
    PathsAreSelected(NoReport, segments, o);
    forall s | s in segments && s != "" && (o.requireAbsolute ==> IsRooted(s)) ensures Normal(s) in ParseList(value, o).paths {
      EverySegmentCounts(NoReport, segments, o, s);
    }
  }

  /** The candidate of one piece, after the candidates before it. */
  predicate IsCandidate(c: Candidate, piece: string, o: Options, before: seq<Candidate>) {
    if piece == "" then c == Candidate("", EmptyEntry)
    else if o.requireAbsolute && piece[0] != '/' then c == Candidate(piece, RelativeEntry)
    else if o.dropDuplicates && Candidate(Normal(piece), Selected) in before then c == Candidate(piece, Duplicate)
    else c == Candidate(Normal(piece), Selected)
  }

  predicate AreCandidates(cs: seq<Candidate>, pieces: seq<string>, o: Options) {
    |cs| == |pieces| && forall i | 0 <= i < |cs| :: IsCandidate(cs[i], pieces[i], o, cs[..i])
  }

  lemma {:induction false} SelectedAre(cs: seq<Candidate>, path: string)
    ensures path in SelectedPaths(cs) <==> Candidate(path, Selected) in cs
  {
    if cs != [] {
      SelectedAre(cs[..|cs| - 1], path);
      assert cs == cs[..|cs| - 1] + [Last(cs)];
    }
  }

  lemma {:induction false} SegmentsAreCandidates(r: Report, done: seq<string>, segments: seq<string>, o: Options)
    requires AreCandidates(r.candidates, done, o) && r.paths == SelectedPaths(r.candidates)
    ensures AreCandidates(ParseSegments(r, segments, o).candidates, done + segments, o)
    decreases |segments|
  {
    hide Normal;
    if segments == [] {
      assert done + segments == done;
    } else {
      var c := Judged(segments[0], o, Elements(r.paths));
      var next := WithCandidate(r, c);
      SelectedAre(r.candidates, Normal(segments[0]));
      assert next.candidates[..|r.candidates|] == r.candidates;
      assert IsCandidate(c, segments[0], o, r.candidates);
      OneMoreCandidate(r.candidates, done, o, c, segments[0]);
      assert done + [segments[0]] + segments[1..] == done + segments;
      SegmentsAreCandidates(next, done + [segments[0]], segments[1..], o);
    }
  }

  lemma OneMoreCandidate(cs: seq<Candidate>, pieces: seq<string>, o: Options, c: Candidate, piece: string)
    requires AreCandidates(cs, pieces, o) && IsCandidate(c, piece, o, cs)
    ensures AreCandidates(cs + [c], pieces + [piece], o)
  {
    hide IsCandidate;
    forall i | 0 <= i <= |cs| ensures IsCandidate((cs + [c])[i], (pieces + [piece])[i], o, (cs + [c])[..i]) {
      assert (cs + [c])[..i] == cs[..i];
    }
  }

  /** The whole report, by the options: the separator is the given one or a colon, and
      every piece between separators has its candidate. */
  lemma CandidatesAre(value: string, o: Options) returns (pieces: seq<string>)
    ensures var c := if o.separator == None then ':' else o.separator.value;
            pieces != [] && Free(pieces, c) && Joined(pieces, c) == value
    ensures AreCandidates(ParseList(value, o).candidates, pieces, o)
    ensures ParseList(value, o).paths == SelectedPaths(ParseList(value, o).candidates)
  {
    hide Pieces, ParseSegments, IsCandidate;
    pieces := Pieces(value, SeparatorOf(o));
    JoinedOfPieces(value, SeparatorOf(o));
    SegmentsAreCandidates(NoReport, [], pieces, o);
    assert [] + pieces == pieces;
    PathsAreSelected(NoReport, pieces, o);
  }
}
