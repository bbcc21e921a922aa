/** The mimeapps.list file: parsing, rendering, and editing one key of it. */
module MimeApps {
  import opened Prelude
  import opened Text
  import opened Order

  type Keys = map<string, seq<string>>
  type Sections = map<string, Keys>

  // ----- lists of desktop ids

  function Part(s: string): seq<string> {
    if s == "" then [] else [s]
  }

  function SplitIds(value: string): seq<string> {
    var i := IndexOf(value, ';');
    if i < 0 then Part(value) else Part(value[..i]) + SplitIds(value[i + 1..])
  }

  function EscapeChar(c: char): string {
    if c == '\\' then "\\\\" else if c == '\n' then "\\n" else [c]
  }

  function Escape(s: string): string {
    if s == "" then "" else EscapeChar(s[0]) + Escape(s[1..])
  }

  function JoinList(ids: seq<string>): string {
    if ids == [] then ""
    else (if ids[0] == "" then "" else Escape(ids[0]) + ";") + JoinList(ids[1..])
  }

  function EscapeAll(ids: seq<string>): seq<string> {
    seq(|ids|, i requires 0 <= i < |ids| => Escape(ids[i]))
  }

  lemma PartIs(s: string)
    ensures Part(s) == if s == "" then [] else [s]
  {
  }

  lemma JoinParts(a: seq<string>, b: seq<string>, c: seq<string>)
    ensures a + b + c == a + (b + c) && a + [] == a
  {
  }

  // ----- what the parts of a list are, without SplitIds

  /** A non-empty stretch without a semicolon, bounded on each side by one or by an end. */
  predicate IsStretch(value: string, i: int, j: int) {
    && 0 <= i < j <= |value| && ';' !in value[i..j]
    && (i == 0 || value[i - 1] == ';') && (j == |value| || value[j] == ';')
  }

  /** The parts are the stretches from position first on, in that order, each once. */
  predicate AreStretches(value: string, first: nat, ids: seq<string>, cuts: seq<(nat, nat)>) {
    && |cuts| == |ids|
    && (forall k | 0 <= k < |ids| ::
          first <= cuts[k].0 && IsStretch(value, cuts[k].0, cuts[k].1) && ids[k] == value[cuts[k].0..cuts[k].1])
    && forall k, l | 0 <= k < l < |cuts| :: cuts[k].1 < cuts[l].0
  }

  ghost predicate HasAll(value: string, first: nat, cuts: seq<(nat, nat)>) {
    forall i: nat, j: nat | first <= i && IsStretch(value, i, j) :: (i, j) in cuts
  }

  /** One step of the split, from position first to the next semicolon. */
  lemma NextPart(value: string, first: nat) returns (last: nat)
    requires first <= |value|
    ensures first <= last <= |value| && ';' !in value[first..last] && (last == |value| || value[last] == ';')
    ensures SplitIds(value[first..]) == Part(value[first..last]) + if last < |value| then SplitIds(value[last + 1..]) else []
  {
    hide Part, IndexOf;
    var rest := value[first..];
    var n := IndexOf(rest, ';');
    if n < 0 {
      last := |value|;
      assert rest == value[first..last];
    } else {
      last := first + n;
      assert rest[n + 1..] == value[last + 1..] && rest[..n] == value[first..last];
    }
  }

  lemma {:induction false} StretchesFrom(value: string, first: nat) returns (cuts: seq<(nat, nat)>)
    requires first <= |value| && (first == 0 || value[first - 1] == ';')
    ensures AreStretches(value, first, SplitIds(value[first..]), cuts) && HasAll(value, first, cuts)
    decreases |value| - first
  {
    hide AreStretches, HasAll, Part, IsStretch, SplitIds;
    var last := NextPart(value, first);
    cuts := if last == first then [] else [(first, last)];
    FirstStretch(value, first, last);
    if last == |value| {
      JoinParts(Part(value[first..last]), [], []);
    } else {
      var more := StretchesFrom(value, last + 1);
      JoinStretches(value, first, last, SplitIds(value[last + 1..]), more);
      cuts := cuts + more;
    }
  }

  lemma FirstStretch(value: string, first: nat, last: nat)
    requires first <= last <= |value| && (first == 0 || value[first - 1] == ';') && ';' !in value[first..last]
    requires last == |value| || value[last] == ';'
    ensures var cuts: seq<(nat, nat)> := if last == first then [] else [(first, last)];
            AreStretches(value, first, Part(value[first..last]), cuts) && (last == |value| ==> HasAll(value, first, cuts))
  {
    forall i: nat, j: nat | first <= i && IsStretch(value, i, j) && last == |value| ensures i == first && j == last && first != last {
      StretchHere(value, first, last, i, j);
    }
  }

  lemma JoinStretches(value: string, first: nat, last: nat, ids: seq<string>, more: seq<(nat, nat)>)
    requires first <= last < |value| && (first == 0 || value[first - 1] == ';') && ';' !in value[first..last] && value[last] == ';'
    requires AreStretches(value, last + 1, ids, more) && HasAll(value, last + 1, more)
    ensures var cuts: seq<(nat, nat)> := if last == first then [] else [(first, last)];
            AreStretches(value, first, Part(value[first..last]) + ids, cuts + more) && HasAll(value, first, cuts + more)
  {
    var cuts: seq<(nat, nat)> := if last == first then [] else [(first, last)];
    forall i: nat, j: nat | first <= i && IsStretch(value, i, j) ensures (i, j) in cuts + more {
      if i <= last { StretchHere(value, first, last, i, j); }
    }
  }

  lemma StretchHere(value: string, first: nat, last: nat, i: nat, j: nat)
    requires first <= i <= last <= |value| && IsStretch(value, i, j) && ';' !in value[first..last]
    requires last == |value| || value[last] == ';'
    ensures i == first && j == last && first != last
  {
    assert forall k | first <= k < last :: value[k] == value[first..last][k - first];
    assert forall k | i <= k < j :: value[k] == value[i..j][k - i];
  }

  /** All stretches of the value, in order, each once. */
  ghost predicate AreAllStretches(value: string, ids: seq<string>) {
    exists cuts :: AreStretches(value, 0, ids, cuts) && HasAll(value, 0, cuts)
  }

  lemma PartsAreStretches(value: string)
    ensures AreAllStretches(value, SplitIds(value))
  {
    hide AreStretches, HasAll;
    assert value[0..] == value;
    var cuts := StretchesFrom(value, 0);
  }

  ghost predicate Lists(value: string, id: string) {
    exists i, j :: IsStretch(value, i, j) && value[i..j] == id
  }

  lemma ListedExactly(value: string, id: string)
    ensures id in SplitIds(value) <==> Lists(value, id)
  {
    hide SplitIds;
    PartsAreStretches(value);
    var cuts :| AreStretches(value, 0, SplitIds(value), cuts) && HasAll(value, 0, cuts);
    if Lists(value, id) {
      var i, j :| IsStretch(value, i, j) && value[i..j] == id;
      assert (i, j) in cuts;
    }
  }

  method SplitDesktopIds(value: string) returns (ids: seq<string>)
    ensures ids == SplitIds(value)
    ensures AreAllStretches(value, ids)
  {
    hide IndexOf, Part, AreAllStretches;
    ids := [];
    var first := 0;
    assert value[0..] == value;
    while first <= |value|
      invariant 0 <= first <= |value| + 1
      invariant first <= |value| ==> SplitIds(value) == ids + SplitIds(value[first..])
      invariant first == |value| + 1 ==> SplitIds(value) == ids
      decreases |value| + 1 - first
    {
      var rest := value[first..];
      var last := IndexOf(rest, ';');
      var part := if last < 0 then rest else rest[..last];
      PartIs(part);
      if last >= 0 {
        assert rest[last + 1..] == value[first + last + 1..];
        JoinParts(ids, Part(part), SplitIds(rest[last + 1..]));
      }
      if part != "" {
        ids := ids + [part];
      }
      if last < 0 {
        break;
      }
      first := first + last + 1;
    }
    PartsAreStretches(value);
  }

  method DesktopEscape(value: string) returns (escaped: string)
    ensures escaped == Escape(value)
  {
    escaped := "";
    for i := 0 to |value|
      invariant escaped + Escape(value[i..]) == Escape(value)
    {
      assert value[i..][1..] == value[i + 1..];
      Associative(escaped, EscapeChar(value[i]), Escape(value[i + 1..]));
      escaped := escaped + EscapeChar(value[i]);
    }
    assert value[|value|..] == "";
  }

  method JoinDesktopList(ids: seq<string>) returns (result: string)
    ensures result == JoinList(ids)
  {
    hide Escape;
    result := "";
    assert ids[0..] == ids;
    for i := 0 to |ids|
      invariant result + JoinList(ids[i..]) == JoinList(ids)
    {
      assert ids[i..][1..] == ids[i + 1..] && ids[i..][0] == ids[i];
      if ids[i] == "" {
        assert "" + JoinList(ids[i + 1..]) == JoinList(ids[i + 1..]);
      } else {
        Associative(result, Escape(ids[i]) + ";", JoinList(ids[i + 1..]));
        var escaped := DesktopEscape(ids[i]);
        result := result + (escaped + ";");
      }
    }
    assert ids[|ids|..] == [];
  }

  // ----- parsing

  datatype Parsing = Parsing(sections: Sections, current: string)

  const Unparsed := Parsing(map[], "Added Associations")

  function KeysOf(sections: Sections, name: string): Keys {
    if name in sections then sections[name] else map[]
  }

  function ValuesOf(sections: Sections, name: string, key: string): seq<string> {
    if key in KeysOf(sections, name) then KeysOf(sections, name)[key] else []
  }

  function Put(sections: Sections, name: string, key: string, ids: seq<string>): Sections {
    sections[name := KeysOf(sections, name)[key := ids]]
  }

  function WithoutReturn(line: string): string {
    if line != "" && line[|line| - 1] == '\r' then line[..|line| - 1] else line
  }

  function ParseLine(p: Parsing, raw: string): Parsing {
    var line := WithoutReturn(raw);
    if line == "" || line[0] == '#' then p
    else if line[0] == '[' && line[|line| - 1] == ']' then p.(current := line[1..|line| - 1])
    else
      var i := IndexOf(line, '=');
      if i < 0 then p else p.(sections := Put(p.sections, p.current, line[..i], SplitIds(line[i + 1..])))
  }

  function ParseLines(p: Parsing, lines: seq<string>): Parsing
    decreases |lines|
  {
    if lines == [] then p else ParseLines(ParseLine(p, lines[0]), lines[1..])
  }

  function Parse(content: string): Sections {
    ParseLines(Unparsed, Lines(content)).sections
  }

  method ParseMimeapps(content: string) returns (sections: Sections)
    ensures sections == Parse(content)
  {
    hide IndexOf;
    sections := map[];
    var current := "Added Associations";
    var lines := ReadLines(content);
    for n := 0 to |lines|
      invariant ParseLines(Parsing(sections, current), lines[n..]) == ParseLines(Unparsed, lines)
    {
      assert lines[n..][1..] == lines[n + 1..];
      var line := WithoutReturn(lines[n]);
      if line == "" || line[0] == '#' {
        continue;
      }
      if line[0] == '[' && line[|line| - 1] == ']' {
        current := line[1..|line| - 1];
        continue;
      }
      var separator := IndexOf(line, '=');
      if separator >= 0 {
        var ids := SplitDesktopIds(line[separator + 1..]);
        sections := Put(sections, current, line[..separator], ids);
      }
    }
    assert lines[|lines|..] == [];
  }

  // ----- what a text says about a key, without Parse

  /** The line a raw line stands for: a carriage return at its end is dropped. */
  predicate IsRaw(raw: string, line: string) {
    if raw != "" && raw[|raw| - 1] == '\r' then raw == line + "\r" else raw == line
  }

  ghost predicate Heads(raw: string, name: string) {
    IsRaw(raw, "[" + name + "]")
  }

  /** A key line: neither a comment nor a section line, cut at its first equals sign. */
  ghost predicate Assigns(raw: string, key: string, value: string) {
    && IsRaw(raw, key + "=" + value) && '=' !in key && (key == "" || key[0] != '#')
    && forall name :: key + "=" + value != "[" + name + "]"
  }

  /** The section that line n stands under; before all section lines the associations. */
  ghost predicate InSection(lines: seq<string>, n: nat, name: string)
    requires n <= |lines|
  {
    || (exists m | 0 <= m < n :: Heads(lines[m], name) && forall k | m < k < n :: NoHead(lines[k]))
    || (name == "Added Associations" && forall k | 0 <= k < n :: NoHead(lines[k]))
  }

  ghost predicate NoHead(raw: string) {
    forall name :: !Heads(raw, name)
  }

  ghost predicate SetsAt(lines: seq<string>, n: nat, name: string, key: string, value: string) {
    n < |lines| && InSection(lines, n, name) && Assigns(lines[n], key, value)
  }

  /** The last line that sets the key, of the first n lines. */
  ghost predicate LastSet(lines: seq<string>, n: nat, name: string, key: string, m: nat, value: string) {
    m < n <= |lines| && SetsAt(lines, m, name, key, value) && forall k, v | m < k < n :: !SetsAt(lines, k, name, key, v)
  }

  lemma RawIs(raw: string, line: string)
    ensures IsRaw(raw, line) <==> WithoutReturn(raw) == line
  {
    if raw != "" && raw[|raw| - 1] == '\r' {
      assert raw == raw[..|raw| - 1] + "\r";
      if raw == line + "\r" { assert raw[..|raw| - 1] == line; }
    }
  }

  lemma BracketsAre(line: string, name: string)
    ensures line == "[" + name + "]" <==> line != "" && line[0] == '[' && line[|line| - 1] == ']' && line[1..|line| - 1] == name
  {
    if line != "" && line[0] == '[' && line[|line| - 1] == ']' { assert line == "[" + line[1..|line| - 1] + "]"; }
  }

  lemma HeadIs(raw: string, name: string)
    ensures Heads(raw, name) <==>
              var line := WithoutReturn(raw);
              line != "" && line[0] == '[' && line[|line| - 1] == ']' && line[1..|line| - 1] == name
  {
    hide WithoutReturn, IsRaw;
    RawIs(raw, "[" + name + "]");
    BracketsAre(WithoutReturn(raw), name);
  }

  lemma CutIs(line: string, key: string, value: string)
    ensures var i := IndexOf(line, '=');
            line == key + "=" + value && '=' !in key <==> i >= 0 && key == line[..i] && value == line[i + 1..]
  {
    var i := IndexOf(line, '=');
    if i >= 0 { assert line == line[..i] + "=" + line[i + 1..]; }
    if line == key + "=" + value && '=' !in key {
      assert forall k | 0 <= k < |key| :: line[k] == key[k];
      IndexOfIs(line, '=', |key|);
      assert line[..|key|] == key && line[|key| + 1..] == value;
    }
  }

  predicate IsBracketed(line: string) {
    line != "" && line[0] == '[' && line[|line| - 1] == ']'
  }

  lemma BracketedIs(line: string)
    ensures IsBracketed(line) <==> exists name: string :: line == "[" + name + "]"
  {
    if IsBracketed(line) { BracketsAre(line, line[1..|line| - 1]); }
    forall name: string | line == "[" + name + "]" ensures IsBracketed(line) { BracketsAre(line, name); }
  }

  lemma AssignIs(raw: string, key: string, value: string)
    ensures Assigns(raw, key, value) <==>
              var line := WithoutReturn(raw);
              var i := IndexOf(line, '=');
              i >= 0 && line[0] != '#' && !IsBracketed(line) && key == line[..i] && value == line[i + 1..]
  {
    hide WithoutReturn, IsRaw, IndexOf, IsBracketed;
    var line := WithoutReturn(raw);
    RawIs(raw, key + "=" + value);
    CutIs(line, key, value);
    BracketedIs(line);
    if line == key + "=" + value && key != "" { assert line[0] == key[0]; }
  }

  lemma HeadDoes(p: Parsing, raw: string, name: string)
    requires Heads(raw, name)
    ensures ParseLine(p, raw) == p.(current := name)
  {
    hide WithoutReturn, Heads, IndexOf;
    HeadIs(raw, name);
  }

  lemma AssignDoes(p: Parsing, raw: string, key: string, value: string)
    requires Assigns(raw, key, value)
    ensures ParseLine(p, raw) == p.(sections := Put(p.sections, p.current, key, SplitIds(value))) && NoHead(raw)
  {
    hide WithoutReturn, Put, SplitIds, Heads, Assigns, IndexOf;
    AssignIs(raw, key, value);
    forall name ensures !Heads(raw, name) { HeadIs(raw, name); }
  }

  lemma BracketHeads(raw: string)
    requires IsBracketed(WithoutReturn(raw))
    ensures !NoHead(raw)
  {
    hide WithoutReturn, Heads;
    HeadIs(raw, WithoutReturn(raw)[1..|WithoutReturn(raw)| - 1]);
  }

  lemma EqualsAssigns(raw: string)
    requires var line := WithoutReturn(raw); '=' in line && line[0] != '#' && !IsBracketed(line)
    ensures exists key, value :: Assigns(raw, key, value)
  {
    hide WithoutReturn, Assigns, IndexOf, IsBracketed;
    var line := WithoutReturn(raw);
    var i := IndexOf(line, '=');
    AssignIs(raw, line[..i], line[i + 1..]);
  }

  lemma OtherDoes(p: Parsing, raw: string)
    requires NoHead(raw) && forall key, value :: !Assigns(raw, key, value)
    ensures ParseLine(p, raw) == p
  {
    hide WithoutReturn, Put, SplitIds, Heads, NoHead, Assigns, IndexOf, ParseLine, IsBracketed;
    var line := WithoutReturn(raw);
    if line == "" || line[0] == '#' || ('=' !in line && !IsBracketed(line)) {
      Ignored(p, raw);
    } else if IsBracketed(line) {
      BracketHeads(raw);
    } else {
      EqualsAssigns(raw);
    }
  }

  lemma Ignored(p: Parsing, raw: string)
    requires var line := WithoutReturn(raw); line == "" || line[0] == '#' || ('=' !in line && !IsBracketed(line))
    ensures ParseLine(p, raw) == p
  {
    hide WithoutReturn, Put, SplitIds, IndexOf;
  }

  /** What one line does to the section in force and to the keys. */
  lemma LineDoes(p: Parsing, raw: string)
    ensures var q := ParseLine(p, raw);
            && (forall name | Heads(raw, name) :: q == p.(current := name))
            && (NoHead(raw) ==> q.current == p.current)
            && (forall key, value | Assigns(raw, key, value) :: q.sections == Put(p.sections, p.current, key, SplitIds(value)) && NoHead(raw))
            && ((forall key, value :: !Assigns(raw, key, value)) ==> q.sections == p.sections)
  {
    hide ParseLine, Put, SplitIds, Heads, Assigns;
    forall name | Heads(raw, name) ensures ParseLine(p, raw) == p.(current := name) { HeadDoes(p, raw, name); }
    forall key, value | Assigns(raw, key, value)
      ensures ParseLine(p, raw) == p.(sections := Put(p.sections, p.current, key, SplitIds(value))) && NoHead(raw)
    {
      AssignDoes(p, raw, key, value);
    }
    if NoHead(raw) && forall key, value :: !Assigns(raw, key, value) { OtherDoes(p, raw); }
  }

  lemma SectionIsOne(lines: seq<string>, n: nat, a: string, b: string)
    requires n <= |lines| && InSection(lines, n, a) && InSection(lines, n, b)
    ensures a == b
  {
    hide Heads;
    forall raw: string, x: string, y: string | Heads(raw, x) && Heads(raw, y) ensures x == y { HeadIs(raw, x); HeadIs(raw, y); }
  }

  lemma NextSection(lines: seq<string>, n: nat, current: string, next: string)
    requires n < |lines| && InSection(lines, n, current)
    requires Heads(lines[n], next) || (NoHead(lines[n]) && next == current)
    ensures InSection(lines, n + 1, next)
  {
    hide Heads, NoHead;
    if Heads(lines[n], next) {
    } else if m :| 0 <= m < n && Heads(lines[m], current) && forall k | m < k < n :: NoHead(lines[k]) {
      assert forall k | m < k < n + 1 :: NoHead(lines[k]);
    }
  }

  /** What is known of a key after n lines. */
  ghost predicate Knows(lines: seq<string>, n: nat, name: string, key: string, p: Parsing, at: Option<nat>, value: string) {
    && n <= |lines| && InSection(lines, n, p.current)
    && match at
       case Some(m) => LastSet(lines, n, name, key, m, value) && key in KeysOf(p.sections, name) && KeysOf(p.sections, name)[key] == SplitIds(value)
       case None => key !in KeysOf(p.sections, name) && forall k, v | 0 <= k < n :: !SetsAt(lines, k, name, key, v)
  }

  lemma KnowsMore(lines: seq<string>, n: nat, name: string, key: string, p: Parsing, at: Option<nat>, value: string)
      returns (at': Option<nat>, value': string)
    requires n < |lines| && Knows(lines, n, name, key, p, at, value)
    ensures Knows(lines, n + 1, name, key, ParseLine(p, lines[n]), at', value')
  {
    hide ParseLine, Heads, NoHead, Assigns, SplitIds, InSection;
    var raw, q := lines[n], ParseLine(p, lines[n]);
    LineDoes(p, raw);
    NextSection(lines, n, p.current, q.current) by { assert Heads(raw, q.current) || (NoHead(raw) && q.current == p.current) by { SomeHead(raw, p, q); } }
    if InSection(lines, n, name) { SectionIsOne(lines, n, name, p.current); }
    if v :| name == p.current && Assigns(raw, key, v) {
      at', value' := Some(n), v;
    } else {
      at', value' := at, value;
      OtherKeyStays(p, q, raw, name, key);
      assert forall v :: !SetsAt(lines, n, name, key, v);
    }
  }

  lemma SomeHead(raw: string, p: Parsing, q: Parsing)
    requires q == ParseLine(p, raw)
    ensures Heads(raw, q.current) || (NoHead(raw) && q.current == p.current)
  {
    hide ParseLine, Heads;
    LineDoes(p, raw);
  }

  lemma OtherKeyStays(p: Parsing, q: Parsing, raw: string, name: string, key: string)
    requires q == ParseLine(p, raw)
    requires name != p.current || forall v :: !Assigns(raw, key, v)
    ensures key in KeysOf(q.sections, name) <==> key in KeysOf(p.sections, name)
    ensures key in KeysOf(q.sections, name) ==> KeysOf(q.sections, name)[key] == KeysOf(p.sections, name)[key]
  {
    hide ParseLine, Heads, NoHead, Assigns, SplitIds;
    LineDoes(p, raw);
  }

  lemma {:induction false} KnowsUpTo(lines: seq<string>, n: nat, name: string, key: string) returns (at: Option<nat>, value: string)
    requires n <= |lines|
    ensures Knows(lines, n, name, key, ParseLines(Unparsed, lines[..n]), at, value)
  {
    hide ParseLine, Heads, Assigns, SplitIds;
    if n == 0 {
      at, value := None, "";
    } else {
      at, value := KnowsUpTo(lines, n - 1, name, key);
      OneMoreLine(lines, n - 1);
      at, value := KnowsMore(lines, n - 1, name, key, ParseLines(Unparsed, lines[..n - 1]), at, value);
    }
  }

  lemma {:induction false} LastLine(p: Parsing, lines: seq<string>)
    requires lines != []
    ensures ParseLines(p, lines) == ParseLine(ParseLines(p, lines[..|lines| - 1]), lines[|lines| - 1])
    decreases |lines|
  {
    hide ParseLine;
    if |lines| == 1 {
      assert lines[1..] == [] && lines[..0] == [];
    } else {
      LastLine(ParseLine(p, lines[0]), lines[1..]);
      assert lines[1..][..|lines| - 2] == lines[..|lines| - 1][1..];
    }
  }

  lemma OneMoreLine(lines: seq<string>, n: nat)
    requires n < |lines|
    ensures ParseLines(Unparsed, lines[..n + 1]) == ParseLine(ParseLines(Unparsed, lines[..n]), lines[n])
  {
    hide ParseLine;
    LastLine(Unparsed, lines[..n + 1]);
    assert lines[..n + 1][..n] == lines[..n];
  }

  /** The last line of the text that sets the key under the section sets it to value. */
  ghost predicate Decides(content: string, name: string, key: string, value: string) {
    var lines := Lines(content);
    exists m :: LastSet(lines, |lines|, name, key, m, value)
  }

  lemma KnownKey(lines: seq<string>, name: string, key: string, p: Parsing, at: Option<nat>, value: string)
    requires Knows(lines, |lines|, name, key, p, at, value)
    ensures key in KeysOf(p.sections, name) <==> exists m, v :: LastSet(lines, |lines|, name, key, m, v)
    ensures forall m, v | LastSet(lines, |lines|, name, key, m, v) :: ValuesOf(p.sections, name, key) == SplitIds(v)
  {
    hide SplitIds, InSection, SetsAt;
    forall m, v | LastSet(lines, |lines|, name, key, m, v) ensures at.Some? && v == value {
      if at.Some? { LastIsOne(lines, name, key, m, v, at.value, value); }
    }
  }

  lemma LastIsOne(lines: seq<string>, name: string, key: string, m: nat, v: string, k: nat, w: string)
    requires LastSet(lines, |lines|, name, key, m, v) && LastSet(lines, |lines|, name, key, k, w)
    ensures m == k && v == w
  {
    AssignIs(lines[m], key, v);
    AssignIs(lines[k], key, w);
  }

  /** What is read from any text: a key is there exactly if some line sets it, and the
      last such line decides its ids. */
  lemma WhatIsParsed(content: string, name: string, key: string)
    ensures key in KeysOf(Parse(content), name) <==> exists v :: Decides(content, name, key, v)
    ensures forall v | Decides(content, name, key, v) :: ValuesOf(Parse(content), name, key) == SplitIds(v)
  {
    hide LastSet, ParseLines, SplitIds;
    var lines := Lines(content);
    assert lines[..|lines|] == lines;
    var at, value := KnowsUpTo(lines, |lines|, name, key);
    KnownKey(lines, name, key, ParseLines(Unparsed, lines), at, value);
    forall m, v | LastSet(lines, |lines|, name, key, m, v) ensures Decides(content, name, key, v) {}
    forall v | Decides(content, name, key, v) ensures exists m :: LastSet(lines, |lines|, name, key, m, v) {}
  }

  /** The id stands in the value of the last line that sets the key under the section. */
  ghost predicate SaysSo(content: string, name: string, key: string, id: string) {
    exists v :: Decides(content, name, key, v) && Lists(v, id)
  }

  lemma FoundExactly(content: string, name: string, key: string, id: string)
    ensures id in ValuesOf(Parse(content), name, key) <==> SaysSo(content, name, key, id)
  {
    hide Decides, Parse, Lists, SplitIds;
    WhatIsParsed(content, name, key);
    forall v ensures id in SplitIds(v) <==> Lists(v, id) { ListedExactly(v, id); }
  }

  // ----- rendering, in the order of std::map

  function KeyLine(key: string, ids: seq<string>): string {
    key + "=" + JoinList(ids)
  }

  function KeyLines(keys: Keys, names: seq<string>): seq<string>
    requires forall i | 0 <= i < |names| :: names[i] in keys
  {
    if names == [] then [] else [KeyLine(names[0], keys[names[0]])] + KeyLines(keys, names[1..])
  }

  ghost function SectionLines(name: string, keys: Keys): seq<string> {
    if keys == map[] then [] else ["[" + name + "]"] + (KeyLines(keys, Sorted(keys.Keys)) + [""])
  }

  ghost function RenderLines(sections: Sections, names: seq<string>): seq<string>
    requires forall i | 0 <= i < |names| :: names[i] in sections
  {
    if names == [] then [] else SectionLines(names[0], sections[names[0]]) + RenderLines(sections, names[1..])
  }

  ghost function Render(sections: Sections): string {
    Unlines(RenderLines(sections, Sorted(sections.Keys)))
  }

  lemma SortedFirst(s: set<string>, m: string)
    requires IsFirst(s, m)
    ensures Sorted(s) == [m] + Sorted(s - {m})
  {
    FirstIsUnique(s, m, FirstExistsWitness(s));
  }

  lemma UnlinesOne(line: string)
    ensures Unlines([line]) == line + "\n"
  {
    assert [line][1..] == [];
  }

  method RenderKeys(keys: Keys) returns (output: string)
    ensures output == Unlines(KeyLines(keys, Sorted(keys.Keys)))
  {
    hide KeyLine, Sorted;
    output := "";
    var rest := keys.Keys;
    while rest != {}
      invariant rest <= keys.Keys
      invariant output + Unlines(KeyLines(keys, Sorted(rest))) == Unlines(KeyLines(keys, Sorted(keys.Keys)))
      decreases rest
    {
      ghost var least := FirstExists(rest);
      var key :| key in rest && forall x | x in rest :: LexLe(key, x);
      SortedFirst(rest, key);
      var joined := JoinDesktopList(keys[key]);
      var line := key + "=" + joined;
      assert line == KeyLine(key, keys[key]) by { KeyLineIs(key, keys[key]); }
      ghost var after := KeyLines(keys, Sorted(rest - {key}));
      UnlinesCons(line, after);
      assert ([key] + Sorted(rest - {key}))[1..] == Sorted(rest - {key});
      Associative(output, line + "\n", Unlines(after));
      output := output + (line + "\n");
      rest := rest - {key};
    }
    EmptyIsSorted();
    assert output + "" == output;
  }

  lemma EmptyIsSorted()
    ensures Sorted({}) == [] && Unlines([]) == ""
  {
  }

  lemma KeyLineIs(key: string, ids: seq<string>)
    ensures KeyLine(key, ids) == key + "=" + JoinList(ids)
  {
  }

  lemma UnlinesCons(line: string, rest: seq<string>)
    ensures Unlines([line] + rest) == line + "\n" + Unlines(rest)
  {
    assert ([line] + rest)[1..] == rest;
  }

  /** The first of the remaining sections and the others. */
  lemma RenderFirst(sections: Sections, rest: set<string>, name: string)
    requires rest <= sections.Keys && IsFirst(rest, name)
    ensures Unlines(RenderLines(sections, Sorted(rest))) ==
            Unlines(SectionLines(name, sections[name])) + Unlines(RenderLines(sections, Sorted(rest - {name})))
  {
    hide Sorted, SectionLines, Unlines, IsFirst;
    SortedFirst(rest, name);
    assert ([name] + Sorted(rest - {name}))[1..] == Sorted(rest - {name});
    UnlinesAppend(SectionLines(name, sections[name]), RenderLines(sections, Sorted(rest - {name})));
  }

  method RenderMimeapps(sections: Sections) returns (output: string)
    ensures output == Render(sections)
  {
    hide Sorted, KeyLines, SectionLines, RenderLines, Unlines, LexLe;
    output := "";
    var rest := sections.Keys;
    while rest != {}
      invariant rest <= sections.Keys
      invariant output + Unlines(RenderLines(sections, Sorted(rest))) == Render(sections)
      decreases rest
    {
      ghost var least := FirstExists(rest);
      var name :| name in rest && forall x | x in rest :: LexLe(name, x);
      RenderFirst(sections, rest, name);
      ghost var after := Unlines(RenderLines(sections, Sorted(rest - {name})));
      var text := "";
      if sections[name] == map[] {
        NoSectionText(name);
      } else {
        var body := RenderKeys(sections[name]);
        SectionText(name, sections[name], body);
        text := "[" + name + "]\n" + body + "\n";
      }
      Associative(output, text, after);
      output := output + text;
      rest := rest - {name};
    }
    NothingRendered(sections);
    assert output + "" == output;
  }

  lemma NoSectionText(name: string)
    ensures Unlines(SectionLines(name, map[])) == ""
  {
  }

  lemma NothingRendered(sections: Sections)
    ensures Unlines(RenderLines(sections, Sorted({}))) == ""
  {
  }

  lemma SectionText(name: string, keys: Keys, body: string)
    requires keys != map[] && body == Unlines(KeyLines(keys, Sorted(keys.Keys)))
    ensures Unlines(SectionLines(name, keys)) == "[" + name + "]\n" + body + "\n"
  {
    hide Sorted, KeyLines, Unlines;
    var lines := KeyLines(keys, Sorted(keys.Keys));
    UnlinesCons("[" + name + "]", lines + [""]);
    UnlinesAppend(lines, [""]);
    UnlinesOne("");
    Associative("[" + name + "]\n", body, "\n");
  }

  // ----- editing

  function Without(values: seq<string>, ids: seq<string>): seq<string> {
    if values == [] then []
    else (if values[0] in ids then [] else [values[0]]) + Without(values[1..], ids)
  }

  function WithNew(values: seq<string>, ids: seq<string>): seq<string>
    decreases |ids|
  {
    if ids == [] then values
    else WithNew(if ids[0] in values then values else values + [ids[0]], ids[1..])
  }

  function Updated(sections: Sections, name: string, key: string, ids: seq<string>, remove: bool): Sections {
    var values := ValuesOf(sections, name, key);
    if remove then
      var kept := Without(values, ids);
      if kept == [] then sections[name := KeysOf(sections, name) - {key}] else Put(sections, name, key, kept)
    else Put(sections, name, key, WithNew(values, ids))
  }

  /** The new content of the file; None stands for a file that does not exist. */
  ghost function Edited(content: Option<string>, name: string, key: string, ids: seq<string>, remove: bool): string {
    Render(Updated(Parse(match content case Some(text) => text case None => ""), name, key, ids, remove))
  }

  predicate Finds(content: Option<string>, name: string, key: string, id: string) {
    content.Some? && id in ValuesOf(Parse(content.value), name, key)
  }

  method RemoveIds(values: seq<string>, ids: seq<string>) returns (kept: seq<string>)
    ensures kept == Without(values, ids)
  {
    kept := [];
    for i := 0 to |values|
      invariant kept + Without(values[i..], ids) == Without(values, ids)
    {
      assert values[i..][1..] == values[i + 1..];
      if values[i] !in ids {
        kept := kept + [values[i]];
      }
    }
    assert values[|values|..] == [];
  }

  method AppendIds(found: seq<string>, ids: seq<string>) returns (values: seq<string>)
    ensures values == WithNew(found, ids)
  {
    values := found;
    var seen := set id | id in found;
    for i := 0 to |ids|
      invariant forall id :: id in seen <==> id in values
      invariant WithNew(values, ids[i..]) == WithNew(found, ids)
    {
      assert ids[i..][1..] == ids[i + 1..];
      if ids[i] !in seen {
        seen := seen + {ids[i]};
        values := values + [ids[i]];
      }
    }
    assert ids[|ids|..] == [];
  }

  datatype EditError = ReadFailed | WriteFailed

  /** One file; reading and writing it may fail. */
  class MimeappsFile {
    var content: Option<string>

    constructor (found: Option<string>)
      ensures content == found
    {
      content := found;
    }

    /** Whether the file could be read and written, and what a failed write leaves, is
        the environment's. */
    method UpdateKey(name: string, key: string, ids: seq<string>, remove: bool, readable: bool, written: bool, left: Option<string>)
        returns (error: Option<EditError>)
      modifies this
      ensures error == if !readable then Some(ReadFailed) else if !written then Some(WriteFailed) else None
      ensures content == if !readable then old(content) else if !written then left else Some(Edited(old(content), name, key, ids, remove))
    {
      hide Parse, KeysOf, Render;
      if !readable {
        return Some(ReadFailed);
      }
      var sections := ParseMimeapps(match content case Some(text) => text case None => "");
      var values := ValuesOf(sections, name, key);
      if remove {
        values := RemoveIds(values, ids);
        if values == [] {
          sections := sections[name := KeysOf(sections, name) - {key}];
        } else {
          sections := Put(sections, name, key, values);
        }
      } else {
        values := AppendIds(values, ids);
        sections := Put(sections, name, key, values);
      }
      var output := RenderMimeapps(sections);
      if !written {
        content := left;
        return Some(WriteFailed);
      }
      content := Some(output);
      return None;
    }

    /** A failed test for existence reads as no file, a failed read is reported. */
    method QueryKey(name: string, key: string, id: string, probed: bool, readable: bool) returns (found: bool, failed: bool)
      ensures found <==> probed && readable && Finds(content, name, key, id)
      ensures found <==> probed && readable && content.Some? && SaysSo(content.value, name, key, id)
      ensures failed <==> probed && !readable && content.Some?
    {
      hide Parse, SaysSo;
      if !probed || content.None? {
        return false, false;
      }
      FoundExactly(content.value, name, key, id);
      if !readable {
        return false, true;
      }
      var sections := ParseMimeapps(content.value);
      found := name in sections && key in sections[name] && id in sections[name][key];
      failed := false;
    }
  }
}
