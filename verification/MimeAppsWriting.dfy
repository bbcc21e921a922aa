/** What an edit writes: the text of a file, the places of the ids, and which ids and
    names are accepted, without the functions that compute them. */
module MimeAppsWriting {
  import opened Prelude
  import opened Text
  import opened Order
  import opened MimeApps
  import opened MimeAppsEdits

  // ----- the text

  /** What a character is written as. */
  function Written(c: char): string {
    if c == '\\' then ['\\', '\\'] else if c == '\n' then ['\\', 'n'] else [c]
  }

  lemma {:induction false} EscapeIs(s: string) returns (pieces: seq<string>)
    ensures Escape(s) == Concat(pieces) && |pieces| == |s| && forall i | 0 <= i < |s| :: pieces[i] == Written(s[i])
  {
    pieces := [];
    if s != "" {
      var rest := EscapeIs(s[1..]);
      pieces := [Written(s[0])] + rest;
      assert pieces[1..] == rest;
    }
  }

  /** A list: each id that is not empty, escaped, and a semicolon behind it. */
  ghost predicate IsList(text: string, ids: seq<string>) {
    exists parts :: text == Concat(parts) && AreItems(parts, ids)
  }

  predicate AreItems(parts: seq<string>, ids: seq<string>) {
    |parts| == |ids| && forall i | 0 <= i < |ids| :: parts[i] == if ids[i] == "" then "" else Escape(ids[i]) + ";"
  }

  lemma {:induction false} ListIs(ids: seq<string>) returns (parts: seq<string>)
    ensures JoinList(ids) == Concat(parts) && AreItems(parts, ids)
  {
    hide Escape;
    parts := [];
    if ids != [] {
      var rest := ListIs(ids[1..]);
      parts := [if ids[0] == "" then "" else Escape(ids[0]) + ";"] + rest;
      assert parts[1..] == rest;
    }
  }

  predicate Ascending(names: seq<string>) {
    forall i, j | 0 <= i < j < |names| :: Before(names[i], names[j])
  }

  /** The order of std::string: a proper beginning comes first, else the first character
      that differs decides. */
  predicate Before(a: string, b: string) {
    a < b || exists k | 0 <= k < |a| && k < |b| :: a[..k] == b[..k] && a[k] < b[k]
  }

  lemma BeforeCons(a: string, b: string)
    requires a != "" && b != "" && a[0] == b[0]
    ensures Before(a, b) <==> Before(a[1..], b[1..])
  {
    var x, y := a[1..], b[1..];
    assert a == [a[0]] + x && b == [b[0]] + y;
    if k :| 0 <= k < |x| && k < |y| && x[..k] == y[..k] && x[k] < y[k] {
      assert a[..k + 1] == [a[0]] + x[..k] && b[..k + 1] == [b[0]] + y[..k] && a[k + 1] < b[k + 1];
    }
    if k :| 0 <= k < |a| && k < |b| && a[..k] == b[..k] && a[k] < b[k] {
      assert k > 0 && x[..k - 1] == a[..k][1..] && y[..k - 1] == b[..k][1..];
      assert x[k - 1] < y[k - 1];
    }
  }

  lemma BeforeHead(a: string, b: string)
    requires a != "" && b != "" && a[0] != b[0]
    ensures Before(a, b) <==> a[0] < b[0]
  {
    assert a[..0] == b[..0];
    forall k | 0 < k < |a| && k < |b| ensures a[..k] != b[..k] { assert a[..k][0] != b[..k][0]; }
  }

  lemma {:induction false} BeforeIs(a: string, b: string)
    ensures LexLe(a, b) <==> a == b || Before(a, b)
  {
    if a == "" || b == "" {
    } else if a[0] == b[0] {
      hide Before;
      BeforeIs(a[1..], b[1..]);
      BeforeCons(a, b);
      assert a == [a[0]] + a[1..] && b == [b[0]] + b[1..];
    } else {
      hide Before;
      BeforeHead(a, b);
    }
  }

  /** One section: its line, a line for each key in ascending order, and an empty line. */
  ghost predicate IsBlock(text: string, name: string, keys: Keys) {
    exists names, lines :: text == "[" + name + "]\n" + Concat(lines) + "\n" && AreKeyLines(lines, keys, names)
  }

  ghost predicate IsKeyLine(line: string, key: string, ids: seq<string>) {
    exists text :: line == key + "=" + text + "\n" && IsList(text, ids)
  }

  ghost predicate AreKeyLines(lines: seq<string>, keys: Keys, names: seq<string>) {
    && Ascending(names) && (forall k :: k in names <==> k in keys) && |lines| == |names|
    && forall i | 0 <= i < |names| :: IsKeyLine(lines[i], names[i], keys[names[i]])
  }

  lemma SortedIsAscending(s: set<string>)
    ensures Ascending(Sorted(s))
  {
    var r := Sorted(s);
    forall i, j | 0 <= i < j < |r| ensures Before(r[i], r[j]) { BeforeIs(r[i], r[j]); }
  }

  lemma {:induction false} KeyTexts(keys: Keys, names: seq<string>) returns (lines: seq<string>)
    requires forall i | 0 <= i < |names| :: names[i] in keys
    ensures Unlines(KeyLines(keys, names)) == Concat(lines) && |lines| == |names|
    ensures forall i | 0 <= i < |names| :: IsKeyLine(lines[i], names[i], keys[names[i]])
  {
    hide IsList, JoinList;
    lines := [];
    if names != [] {
      var rest := KeyTexts(keys, names[1..]);
      var text := JoinList(keys[names[0]]);
      ItIsList(keys[names[0]]);
      lines := [names[0] + "=" + text + "\n"] + rest;
      UnlinesCons(KeyLine(names[0], keys[names[0]]), KeyLines(keys, names[1..]));
      assert lines[1..] == rest && lines[0] == names[0] + "=" + text + "\n";
      forall i | 0 <= i < |names| ensures IsKeyLine(lines[i], names[i], keys[names[i]]) {
        if i > 0 { assert lines[i] == rest[i - 1] && names[i] == names[1..][i - 1]; }
      }
    }
  }

  lemma ItIsList(ids: seq<string>)
    ensures IsList(JoinList(ids), ids)
  {
    var parts := ListIs(ids);
  }

  lemma BlockIs(name: string, keys: Keys)
    requires keys != map[]
    ensures IsBlock(Unlines(SectionLines(name, keys)), name, keys)
  {
    hide KeyLines, Sorted, IsKeyLine, Ascending;
    var names := Sorted(keys.Keys);
    var lines := KeyTexts(keys, names);
    SortedIsAscending(keys.Keys);
    SectionText(name, keys, Concat(lines));
    assert AreKeyLines(lines, keys, names);
  }

  /** A file: the blocks of the sections that have keys, in ascending order. */
  ghost predicate IsFile(text: string, sections: Sections) {
    exists names, blocks :: text == Concat(blocks) && AreBlocks(blocks, sections, names)
  }

  ghost predicate AreBlocks(blocks: seq<string>, sections: Sections, names: seq<string>) {
    && Ascending(names) && (forall n :: n in names <==> n in sections && sections[n] != map[]) && |blocks| == |names|
    && forall i | 0 <= i < |names| :: IsBlock(blocks[i], names[i], sections[names[i]])
  }

  /** The blocks of some of the sections. */
  ghost predicate AreBlocksOf(blocks: seq<string>, sections: Sections, used: seq<string>, names: seq<string>) {
    && Ascending(used) && (forall n :: n in used <==> n in names && n in sections && sections[n] != map[]) && |blocks| == |used|
    && forall i | 0 <= i < |used| :: IsBlock(blocks[i], used[i], sections[used[i]])
  }

  lemma StillAscending(names: seq<string>, used: seq<string>)
    requires names != [] && Ascending(names) && Ascending(used) && forall n | n in used :: n in names[1..]
    ensures Ascending([names[0]] + used)
  {
    hide Before;
    forall j | 0 <= j < |used| ensures Before(names[0], used[j]) {
      assert used[j] in names[1..];
      var k :| 0 <= k < |names[1..]| && names[1..][k] == used[j];
      assert Before(names[0], names[k + 1]);
    }
  }

  lemma OneBlock(sections: Sections, names: seq<string>, used: seq<string>, blocks: seq<string>, block: string)
    requires names != [] && Ascending(names) && AreBlocksOf(blocks, sections, used, names[1..])
    requires names[0] in sections && sections[names[0]] != map[] && IsBlock(block, names[0], sections[names[0]])
    ensures AreBlocksOf([block] + blocks, sections, [names[0]] + used, names)
  {
    hide IsBlock, Ascending;
    StillAscending(names, used);
    assert names == [names[0]] + names[1..];
  }

  lemma NoBlock(sections: Sections, names: seq<string>, used: seq<string>, blocks: seq<string>)
    requires names != [] && AreBlocksOf(blocks, sections, used, names[1..])
    requires names[0] in sections ==> sections[names[0]] == map[]
    ensures AreBlocksOf(blocks, sections, used, names)
  {
    hide IsBlock, Ascending;
    assert names == [names[0]] + names[1..];
  }

  lemma {:induction false} BlocksOf(sections: Sections, names: seq<string>) returns (used: seq<string>, blocks: seq<string>)
    requires Ascending(names) && forall i | 0 <= i < |names| :: names[i] in sections
    ensures Unlines(RenderLines(sections, names)) == Concat(blocks) && AreBlocksOf(blocks, sections, used, names)
  {
    hide SectionLines, IsBlock, Before;
    used, blocks := [], [];
    if names != [] {
      used, blocks := BlocksOf(sections, names[1..]);
      hide AreBlocksOf, Ascending;
      var keys := sections[names[0]];
      UnlinesAppend(SectionLines(names[0], keys), RenderLines(sections, names[1..]));
      if keys == map[] {
        NoSectionText(names[0]);
        NoBlock(sections, names, used, blocks);
        assert "" + Concat(blocks) == Concat(blocks);
      } else {
        var block := Unlines(SectionLines(names[0], keys));
        BlockIs(names[0], keys);
        OneBlock(sections, names, used, blocks, block);
        assert ([block] + blocks)[1..] == blocks;
        used, blocks := [names[0]] + used, [block] + blocks;
      }
    }
  }

  /** The rendered text, for every content. */
  lemma RenderedFile(sections: Sections)
    ensures IsFile(Render(sections), sections)
  {
    hide RenderLines, Sorted, IsBlock, Ascending;
    SortedIsAscending(sections.Keys);
    var used, blocks := BlocksOf(sections, Sorted(sections.Keys));
    assert AreBlocks(blocks, sections, used);
  }

  // ----- the places of the ids

  /** The kept elements, in order: one from each position whose flag is set. */
  ghost predicate Keeps(flags: seq<bool>, from: seq<string>, kept: seq<string>) {
    exists at :: AreAt(at, flags, from, kept)
  }

  predicate AreAt(at: seq<nat>, flags: seq<bool>, from: seq<string>, kept: seq<string>) {
    && |at| == |kept| && |flags| == |from|
    && (forall i, j | 0 <= i < j < |at| :: at[i] < at[j])
    && (forall k | 0 <= k < |at| :: at[k] < |from| && flags[at[k]] && kept[k] == from[at[k]])
    && forall k | 0 <= k < |flags| && flags[k] :: k in at
  }

  function Later(at: seq<nat>): seq<nat> {
    seq(|at|, k requires 0 <= k < |at| => at[k] + 1)
  }

  lemma LaterAt(at: seq<nat>, flags: seq<bool>, from: seq<string>, kept: seq<string>, x: string)
    requires AreAt(at, flags, from, kept)
    ensures AreAt(Later(at), [false] + flags, [x] + from, kept)
  {
    var all := [false] + flags;
    forall k | 0 <= k < |all| && all[k] ensures k in Later(at) {
      var m :| 0 <= m < |at| && at[m] == k - 1;
      assert Later(at)[m] == k;
    }
  }

  lemma TakenAt(at: seq<nat>, flags: seq<bool>, from: seq<string>, kept: seq<string>, x: string)
    requires AreAt(at, [false] + flags, [x] + from, kept) && forall k | 0 <= k < |at| :: at[k] > 0
    ensures AreAt([0] + at, [true] + flags, [x] + from, [x] + kept)
  {
    var more, all := [0] + at, [true] + flags;
    forall k | 0 <= k < |all| && all[k] ensures k in more {
      if k == 0 { assert more[0] == 0; } else { assert ([false] + flags)[k] && k in at; }
    }
  }

  lemma LaterIsPositive(at: seq<nat>)
    ensures forall k | 0 <= k < |Later(at)| :: Later(at)[k] > 0
  {
  }

  lemma KeepsCons(flags: seq<bool>, from: seq<string>, kept: seq<string>, flag: bool, x: string)
    requires Keeps(flags, from, kept)
    ensures Keeps([flag] + flags, [x] + from, (if flag then [x] else []) + kept)
  {
    hide AreAt, Later;
    var at :| AreAt(at, flags, from, kept);
    LaterAt(at, flags, from, kept, x);
    if flag {
      LaterIsPositive(at);
      TakenAt(Later(at), flags, from, kept, x);
    } else {
      assert [] + kept == kept;
    }
  }

  lemma KeepsNothing(flags: seq<bool>, from: seq<string>, kept: seq<string>)
    requires |flags| == |from| == |kept| == 0
    ensures Keeps(flags, from, kept)
  {
    assert AreAt([], flags, from, kept);
  }

  function NotIn(values: seq<string>, ids: seq<string>): seq<bool> {
    seq(|values|, k requires 0 <= k < |values| => values[k] !in ids)
  }

  /** Removing leaves the other ids, each in its place among them. */
  lemma {:induction false} KeptInOrder(values: seq<string>, ids: seq<string>)
    ensures Keeps(NotIn(values, ids), values, Without(values, ids))
  {
    hide Keeps;
    if values == [] {
      KeepsNothing(NotIn(values, ids), values, Without(values, ids));
    } else {
      KeptInOrder(values[1..], ids);
      KeepsCons(NotIn(values[1..], ids), values[1..], Without(values[1..], ids), values[0] !in ids, values[0]);
      assert [values[0] !in ids] + NotIn(values[1..], ids) == NotIn(values, ids) && [values[0]] + values[1..] == values;
    }
  }

  /** An id is new where it is asked for first and is not there yet. */
  function AreNew(values: seq<string>, ids: seq<string>): seq<bool> {
    seq(|ids|, k requires 0 <= k < |ids| => ids[k] !in values && ids[k] !in ids[..k])
  }

  /** The new ids follow the old ones, in the order in which they are first asked for. */
  lemma {:induction false} NewInOrder(values: seq<string>, ids: seq<string>)
    ensures values <= WithNew(values, ids) && Keeps(AreNew(values, ids), ids, WithNew(values, ids)[|values|..])
    decreases |ids|
  {
    hide Keeps;
    if ids == [] {
      KeepsNothing(AreNew(values, ids), ids, WithNew(values, ids)[|values|..]);
    } else {
      var isNew := ids[0] !in values;
      var next := if isNew then values + [ids[0]] else values;
      NewInOrder(next, ids[1..]);
      var all := WithNew(next, ids[1..]);
      KeepsCons(AreNew(next, ids[1..]), ids[1..], all[|next|..], isNew, ids[0]);
      assert [ids[0]] + ids[1..] == ids;
      NewFlags(values, ids);
      assert all[|values|..] == (if isNew then [ids[0]] else []) + all[|next|..];
    }
  }

  lemma NewFlags(values: seq<string>, ids: seq<string>)
    requires ids != []
    ensures AreNew(values, ids) == [ids[0] !in values] + AreNew(if ids[0] !in values then values + [ids[0]] else values, ids[1..])
  {
    forall k | 1 <= k < |ids| ensures ids[k] in ids[..k] <==> ids[k] == ids[0] || ids[k] in ids[1..][..k - 1] {
      assert ids[..k] == [ids[0]] + ids[1..][..k - 1];
    }
  }

  // ----- what is accepted

  const Lower := "abcdefghijklmnopqrstuvwxyz"
  const Upper := "ABCDEFGHIJKLMNOPQRSTUVWXYZ"
  const Digits := "0123456789"
  const Letters := Lower + Upper + Digits

  lemma AlphabetsAre()
    ensures forall i | 0 <= i < 26 :: Lower[i] as int == 'a' as int + i && Upper[i] as int == 'A' as int + i
    ensures forall i | 0 <= i < 10 :: Digits[i] as int == '0' as int + i
  {
  }

  lemma AlnumIs(c: char)
    ensures IsAlnum(c) <==> c in Letters
  {
    AlphabetsAre();
    if 'a' <= c <= 'z' { assert Lower[c as int - 'a' as int] == c; }
    if 'A' <= c <= 'Z' { assert Upper[c as int - 'A' as int] == c; }
    if '0' <= c <= '9' { assert Digits[c as int - '0' as int] == c; }
    assert c in Letters <==> c in Lower || c in Upper || c in Digits;
  }

  predicate Of(s: string, alphabet: string) {
    forall i | 0 <= i < |s| :: s[i] in alphabet
  }

  lemma SafeIdIs(id: string)
    ensures IsSafeDesktopId(id) <==> id != "" && id[0] != '.' && Of(id, Letters + ".-_")
  {
    forall i | 0 <= i < |id| ensures IsAlnum(id[i]) <==> id[i] in Letters { AlnumIs(id[i]); }
    assert forall c :: c in Letters + ".-_" <==> c in Letters || c == '.' || c == '-' || c == '_' by { Punctuation(); }
  }

  lemma Punctuation()
    ensures forall c :: c in ".-_" <==> c == '.' || c == '-' || c == '_'
    ensures forall c :: c in ".-_+" <==> c == '.' || c == '-' || c == '_' || c == '+'
  {
    assert ".-_"[0] == '.' && ".-_"[1] == '-' && ".-_"[2] == '_';
    assert ".-_+"[0] == '.' && ".-_+"[1] == '-' && ".-_+"[2] == '_' && ".-_+"[3] == '+';
  }

  /** A name of two parts, each without a dot in front and without two dots in a row. */
  lemma SafeMimeIs(s: string)
    ensures IsSafeMimeName(s) <==> exists a, b :: s == a + "/" + b && IsPart(a) && IsPart(b)
  {
    hide IsMimeComponent, IsPart, IndexOf;
    var slash := IndexOf(s, '/');
    if slash >= 0 {
      assert s == s[..slash] + "/" + s[slash + 1..];
      PartIsComponent(s[..slash]);
      PartIsComponent(s[slash + 1..]);
    }
    forall a, b | s == a + "/" + b && IsPart(a) && IsPart(b) ensures slash == |a| && a == s[..slash] && b == s[slash + 1..] && a != "" && b != "" {
      PartIsComponent(a);
      PartIsComponent(b);
      assert forall k | 0 <= k < |a| :: s[k] == a[k];
      IndexOfIs(s, '/', |a|);
    }
  }

  ghost predicate IsPart(s: string) {
    s != "" && s[0] != '.' && Of(s, Letters + ".-_+") && forall a, b :: s != a + ".." + b
  }

  lemma PartIsComponent(s: string)
    ensures IsMimeComponent(s) <==> IsPart(s)
    ensures IsPart(s) ==> s != "" && '/' !in s
  {
    forall i | 0 <= i < |s| ensures IsAlnum(s[i]) <==> s[i] in Letters { AlnumIs(s[i]); }
    assert forall c :: c in Letters + ".-_+" <==> c in Letters || c == '.' || c == '-' || c == '_' || c == '+' by { Punctuation(); }
    AlnumIs('/');
    DotsAre(s);
  }

  lemma DotsAre(s: string)
    ensures (forall i | 0 < i < |s| :: !(s[i - 1] == '.' && s[i] == '.')) <==> forall a, b :: s != a + ".." + b
  {
    if i :| 0 < i < |s| && s[i - 1] == '.' && s[i] == '.' {
      assert s == s[..i - 1] + ".." + s[i + 1..];
    }
    forall a: string, b: string | s == a + ".." + b ensures s[|a|] == '.' && s[|a| + 1] == '.' {}
  }

  function AreSafe(ids: seq<string>): seq<bool> {
    seq(|ids|, k requires 0 <= k < |ids| => IsSafeDesktopId(ids[k]))
  }

  function Suffixed(ids: seq<string>): seq<string> {
    seq(|ids|, k requires 0 <= k < |ids| => EnsureSuffix(ids[k]))
  }

  /** The ids that are passed on: the accepted ones with their suffix, in order. */
  lemma {:induction false} NormalizedInOrder(ids: seq<string>)
    ensures Keeps(AreSafe(ids), Suffixed(ids), NormalizedIds(ids))
  {
    hide IsSafeDesktopId, EnsureSuffix, Keeps;
    if ids == [] {
      KeepsNothing(AreSafe(ids), Suffixed(ids), NormalizedIds(ids));
    } else {
      NormalizedInOrder(ids[1..]);
      KeepsCons(AreSafe(ids[1..]), Suffixed(ids[1..]), NormalizedIds(ids[1..]), IsSafeDesktopId(ids[0]), EnsureSuffix(ids[0]));
      assert AreSafe(ids) == [IsSafeDesktopId(ids[0])] + AreSafe(ids[1..]);
      assert Suffixed(ids) == [EnsureSuffix(ids[0])] + Suffixed(ids[1..]);
    }
  }

  /** The accepted keys of default applications: MIME names and scheme handlers. */
  lemma AcceptedKeyIs(s: string)
    ensures IsAcceptedDefaultKey(s) <==> IsSafeMimeName(s) || exists t :: s == "x-scheme-handler/" + t
  {
    hide IsSafeMimeName;
    if StartsWith(s, "x-scheme-handler/") { assert s == "x-scheme-handler/" + s[17..]; }
  }
}
