/** Rendering and parsing mimeapps.list: what survives the text. */
module MimeAppsRoundTrip {
  import opened Prelude
  import opened Text
  import opened Order
  import opened MimeApps

  predicate NameOk(name: string) {
    '\n' !in name
  }

  predicate KeyOk(key: string) {
    '\n' !in key && '=' !in key && (key == "" || key[0] != '#')
  }

  predicate IdOk(id: string) {
    id != "" && ';' !in id && '\n' !in id
  }

  predicate IdsOk(ids: seq<string>) {
    forall i | 0 <= i < |ids| :: IdOk(ids[i])
  }

  predicate KeysOk(keys: Keys) {
    forall k | k in keys :: KeyOk(k) && IdsOk(keys[k])
  }

  /** What every parsed file looks like; empty sections do not matter. */
  predicate Shape(sections: Sections) {
    forall n | n in sections && sections[n] != map[] :: NameOk(n) && KeysOk(sections[n])
  }

  function Pruned(sections: Sections): Sections {
    map n | n in sections && sections[n] != map[] :: sections[n]
  }

  function EscapedKeys(keys: Keys): Keys {
    map k | k in keys :: EscapeAll(keys[k])
  }

  function Escaped(sections: Sections): Sections {
    map n | n in sections :: EscapedKeys(sections[n])
  }

  // ----- lists

  lemma {:induction false} EscapeKeepsOk(id: string)
    ensures ';' in Escape(id) <==> ';' in id
    ensures '\n' !in Escape(id)
    ensures |Escape(id)| >= |id|
    ensures |Escape(id)| == |id| <==> '\\' !in id && '\n' !in id
    ensures |Escape(id)| == |id| ==> Escape(id) == id
  {
    if id != "" {
      EscapeKeepsOk(id[1..]);
      assert id == [id[0]] + id[1..];
    }
  }

  lemma SplitCons(a: string, rest: string)
    requires a != "" && ';' !in a
    ensures SplitIds(a + ";" + rest) == [a] + SplitIds(rest)
  {
    var s := a + ";" + rest;
    assert forall k | 0 <= k < |a| :: s[k] == a[k];
    IndexOfIs(s, ';', |a|);
    assert s[..|a|] == a && s[|a| + 1..] == rest;
  }

  lemma SplitNothing()
    ensures SplitIds("") == []
  {
  }

  lemma {:induction false} SplitOfJoin(ids: seq<string>)
    requires IdsOk(ids)
    ensures SplitIds(JoinList(ids)) == EscapeAll(ids)
  {
    hide Escape, SplitIds, IndexOf;
    if ids == [] {
      SplitNothing();
    } else {
      SplitOfJoin(ids[1..]);
      EscapeKeepsOk(ids[0]);
      SplitCons(Escape(ids[0]), JoinList(ids[1..]));
      assert EscapeAll(ids) == [Escape(ids[0])] + EscapeAll(ids[1..]);
    }
  }

  lemma {:induction false} JoinShape(ids: seq<string>)
    ensures '\n' !in JoinList(ids)
    ensures JoinList(ids) == "" || JoinList(ids)[|JoinList(ids)| - 1] == ';'
  {
    hide Escape;
    if ids != [] {
      JoinShape(ids[1..]);
      EscapeKeepsOk(ids[0]);
    }
  }

  lemma {:induction false} SplitIsOk(value: string)
    requires '\n' !in value
    ensures IdsOk(SplitIds(value))
    decreases |value|
  {
    hide IndexOf;
    var i := IndexOf(value, ';');
    if i >= 0 { SplitIsOk(value[i + 1..]); }
  }

  // ----- lines

  lemma ParseHeader(p: Parsing, name: string)
    ensures ParseLine(p, "[" + name + "]") == p.(current := name)
  {
    var line := "[" + name + "]";
    assert line[1..|line| - 1] == name;
  }

  lemma KeyLineParts(key: string, joined: string)
    requires '=' !in key
    ensures var line := key + "=" + joined;
            IndexOf(line, '=') == |key| && line[..|key|] == key && line[|key| + 1..] == joined
  {
    var line := key + "=" + joined;
    assert forall k | 0 <= k < |key| :: line[k] == key[k];
    IndexOfIs(line, '=', |key|);
  }

  lemma KeyLineEnds(key: string, joined: string)
    requires KeyOk(key) && (joined == "" || joined[|joined| - 1] == ';')
    ensures var line := key + "=" + joined;
            line != "" && line[0] != '#' && (line[|line| - 1] == ';' || line[|line| - 1] == '=')
  {
    var line := key + "=" + joined;
    assert joined != "" ==> line[|line| - 1] == joined[|joined| - 1];
  }

  lemma ParseKeyLine(p: Parsing, key: string, ids: seq<string>)
    requires KeyOk(key) && IdsOk(ids)
    ensures ParseLine(p, KeyLine(key, ids)) == p.(sections := Put(p.sections, p.current, key, EscapeAll(ids)))
  {
    hide JoinList, SplitIds, IndexOf, KeyOk, EscapeAll, IdsOk;
    JoinShape(ids);
    KeyLineEnds(key, JoinList(ids));
    assert '=' !in key by { KeyHasNoEquals(key); }
    KeyLineParts(key, JoinList(ids));
    SplitOfJoin(ids);
  }

  lemma KeyHasNoEquals(key: string)
    requires KeyOk(key)
    ensures '=' !in key
  {
  }

  lemma {:induction false} ParseLinesAppend(p: Parsing, a: seq<string>, b: seq<string>)
    ensures ParseLines(p, a + b) == ParseLines(ParseLines(p, a), b)
    decreases |a|
  {
    hide ParseLine;
    if a == [] {
      assert a + b == b;
    } else {
      assert (a + b)[1..] == a[1..] + b && (a + b)[0] == a[0];
      ParseLinesAppend(ParseLine(p, a[0]), a[1..], b);
    }
  }

  lemma ParseLinesCons(p: Parsing, line: string, rest: seq<string>)
    ensures ParseLines(p, [line] + rest) == ParseLines(ParseLine(p, line), rest)
  {
    assert ([line] + rest)[1..] == rest;
  }

  lemma ParseBlank(p: Parsing)
    ensures ParseLines(p, [""]) == p
  {
    ParseLinesCons(p, "", []);
    assert [""] + [] == [""];
  }

  // ----- sections

  /** Some of the keys, with their ids escaped. */
  function Chosen(keys: Keys, names: seq<string>): Keys {
    map k | k in keys && k in names :: EscapeAll(keys[k])
  }

  lemma ChosenStep(before: Keys, keys: Keys, names: seq<string>)
    requires names != [] && names[0] in keys
    ensures before[names[0] := EscapeAll(keys[names[0]])] + Chosen(keys, names[1..]) == before + Chosen(keys, names)
    ensures names[1..] == [] ==> before[names[0] := EscapeAll(keys[names[0]])] == before + Chosen(keys, names)
  {
    hide EscapeAll;
    assert names == [names[0]] + names[1..];
  }

  lemma {:induction false} ParseKeyLines(p: Parsing, keys: Keys, names: seq<string>)
    requires KeysOk(keys) && names != [] && forall i | 0 <= i < |names| :: names[i] in keys
    ensures ParseLines(p, KeyLines(keys, names)) ==
            p.(sections := p.sections[p.current := KeysOf(p.sections, p.current) + Chosen(keys, names)])
    decreases |names|
  {
    hide ParseLine, KeyOk, IdsOk, EscapeAll, KeyLine, Chosen, ParseLines;
    var key := names[0];
    ParseLinesCons(p, KeyLine(key, keys[key]), KeyLines(keys, names[1..]));
    ParseKeyLine(p, key, keys[key]);
    ChosenStep(KeysOf(p.sections, p.current), keys, names);
    var q := p.(sections := Put(p.sections, p.current, key, EscapeAll(keys[key])));
    if names[1..] == [] {
      assert KeyLines(keys, names) == [KeyLine(key, keys[key])] + [];
      NoLines(q);
    } else {
      ParseKeyLines(q, keys, names[1..]);
    }
  }

  lemma NoLines(p: Parsing)
    ensures ParseLines(p, []) == p
  {
  }

  lemma ChosenIsAll(keys: Keys, names: seq<string>)
    requires forall k :: k in names <==> k in keys.Keys
    ensures map[] + Chosen(keys, names) == EscapedKeys(keys)
    ensures keys != map[] ==> names != []
  {
    hide EscapeAll;
    if keys != map[] {
      var k :| k in keys;
      assert k in names;
    }
  }

  lemma ParseSection(p: Parsing, name: string, keys: Keys)
    requires KeysOk(keys) && keys != map[] && name !in p.sections
    ensures ParseLines(p, SectionLines(name, keys)) == Parsing(p.sections[name := EscapedKeys(keys)], name)
  {
    hide ParseLine, ParseLines, KeysOk, EscapedKeys, Chosen, KeyLines, LexLe;
    var names := Sorted(keys.Keys);
    ChosenIsAll(keys, names);
    var lines := KeyLines(keys, names);
    ParseLinesCons(p, "[" + name + "]", lines + [""]);
    ParseHeader(p, name);
    ParseLinesAppend(p.(current := name), lines, [""]);
    ParseKeyLines(p.(current := name), keys, names);
    ParseBlank(ParseLines(p.(current := name), lines));
  }

  function Rendered(sections: Sections, names: seq<string>): Sections {
    map n | n in sections && n in names && sections[n] != map[] :: EscapedKeys(sections[n])
  }

  predicate Distinct(names: seq<string>) {
    forall i, j | 0 <= i < j < |names| :: names[i] != names[j]
  }

  lemma RenderedSkip(sections: Sections, names: seq<string>)
    requires names != [] && names[0] in sections && sections[names[0]] == map[]
    ensures Rendered(sections, names) == Rendered(sections, names[1..])
  {
    hide EscapedKeys;
    assert forall n :: n in names <==> n == names[0] || n in names[1..];
  }

  lemma MoveEntry(before: Sections, rest: Sections, name: string, keys: Keys)
    requires name !in rest
    ensures before[name := keys] + rest == before + rest[name := keys]
  {
  }

  lemma RenderedStep(before: Sections, sections: Sections, names: seq<string>)
    requires names != [] && Distinct(names) && names[0] in sections && sections[names[0]] != map[]
    ensures before[names[0] := EscapedKeys(sections[names[0]])] + Rendered(sections, names[1..]) == before + Rendered(sections, names)
  {
    hide EscapedKeys;
    assert forall n :: n in names <==> n == names[0] || n in names[1..];
    assert Rendered(sections, names) == Rendered(sections, names[1..])[names[0] := EscapedKeys(sections[names[0]])];
    MoveEntry(before, Rendered(sections, names[1..]), names[0], EscapedKeys(sections[names[0]]));
  }

  lemma {:induction false} ParseSections(p: Parsing, sections: Sections, names: seq<string>)
    requires Shape(sections) && Distinct(names)
    requires forall i | 0 <= i < |names| :: names[i] in sections && names[i] !in p.sections
    ensures ParseLines(p, RenderLines(sections, names)).sections == p.sections + Rendered(sections, names)
    decreases |names|
  {
    hide ParseLines, KeysOk, SectionLines, EscapedKeys, Rendered;
    if names == [] {
      NothingRendered(sections, p.sections);
      NoLines(p);
    } else {
      var name, rest := names[0], names[1..];
      ParseLinesAppend(p, SectionLines(name, sections[name]), RenderLines(sections, rest));
      if sections[name] == map[] {
        RenderedSkip(sections, names);
        NoSectionLines(name);
        NoLines(p);
        ParseSections(p, sections, rest);
      } else {
        RenderedStep(p.sections, sections, names);
        ParseSection(p, name, sections[name]);
        ParseSections(Parsing(p.sections[name := EscapedKeys(sections[name])], name), sections, rest);
      }
    }
  }

  lemma NothingRendered(sections: Sections, before: Sections)
    ensures before + Rendered(sections, []) == before
  {
  }

  lemma NoSectionLines(name: string)
    ensures SectionLines(name, map[]) == []
  {
  }

  predicate LinesOk(lines: seq<string>) {
    forall i | 0 <= i < |lines| :: '\n' !in lines[i]
  }

  lemma {:induction false} KeyLinesOk(keys: Keys, names: seq<string>)
    requires KeysOk(keys) && forall i | 0 <= i < |names| :: names[i] in keys
    ensures LinesOk(KeyLines(keys, names))
  {
    hide JoinList, IdsOk;
    if names != [] {
      KeyLinesOk(keys, names[1..]);
      JoinShape(keys[names[0]]);
    }
  }

  lemma {:induction false} RenderLinesOk(sections: Sections, names: seq<string>)
    requires Shape(sections) && forall i | 0 <= i < |names| :: names[i] in sections
    ensures LinesOk(RenderLines(sections, names))
  {
    hide KeyLines, KeysOk, Sorted;
    if names != [] {
      RenderLinesOk(sections, names[1..]);
      if sections[names[0]] != map[] { KeyLinesOk(sections[names[0]], Sorted(sections[names[0]].Keys)); }
    }
  }

  /** Parsing what was rendered gives the sections back, without the empty ones,
      and with backslashes and newlines of the ids escaped once. */
  lemma ParseOfRender(sections: Sections)
    requires Shape(sections)
    ensures Parse(Render(sections)) == Escaped(Pruned(sections))
  {
    hide ParseLines, RenderLines, Shape, Rendered, Escaped, Pruned, LexLe, Lines, Unlines;
    var names := Sorted(sections.Keys);
    var lines := RenderLines(sections, names);
    RenderLinesOk(sections, names);
    assert forall l | l in lines :: '\n' !in l by { AllLinesOk(lines); }
    LinesOfUnlines(lines);
    ParseSections(Unparsed, sections, names);
    RenderedIsAll(sections, names);
  }

  lemma AllLinesOk(lines: seq<string>)
    requires LinesOk(lines)
    ensures forall l | l in lines :: '\n' !in l
  {
  }

  lemma RenderedIsAll(sections: Sections, names: seq<string>)
    requires forall n :: n in names <==> n in sections.Keys
    ensures map[] + Rendered(sections, names) == Escaped(Pruned(sections))
  {
    hide EscapedKeys;
  }

  // ----- the shape of every parsed file

  predicate NoneEmpty(sections: Sections) {
    forall n | n in sections :: sections[n] != map[]
  }

  lemma PutShape(sections: Sections, name: string, key: string, ids: seq<string>)
    requires Shape(sections) && NameOk(name) && KeyOk(key) && IdsOk(ids)
    ensures Shape(Put(sections, name, key, ids))
    ensures NoneEmpty(sections) ==> NoneEmpty(Put(sections, name, key, ids))
  {
    hide NameOk, KeyOk, IdsOk;
    assert key in KeysOf(sections, name)[key := ids];
  }

  lemma ParseLineShape(p: Parsing, raw: string)
    requires Shape(p.sections) && NoneEmpty(p.sections) && NameOk(p.current) && '\n' !in raw
    ensures var q := ParseLine(p, raw); Shape(q.sections) && NoneEmpty(q.sections) && NameOk(q.current)
  {
    hide Shape, NoneEmpty, IndexOf, SplitIds, IdsOk, Put;
    var line := WithoutReturn(raw);
    assert forall c | c in line :: c in raw;
    if line != "" && line[0] != '#' && !(line[0] == '[' && line[|line| - 1] == ']') {
      var i := IndexOf(line, '=');
      if i >= 0 {
        assert forall c | c in line[i + 1..] :: c in line;
        SplitIsOk(line[i + 1..]);
        assert KeyOk(line[..i]) by { FirstPart(line, i); }
        PutShape(p.sections, p.current, line[..i], SplitIds(line[i + 1..]));
      }
    }
  }

  lemma FirstPart(line: string, i: nat)
    requires i < |line| && i == IndexOf(line, '=') && line[0] != '#' && '\n' !in line
    ensures KeyOk(line[..i])
  {
  }

  lemma {:induction false} ParseLinesShape(p: Parsing, lines: seq<string>)
    requires Shape(p.sections) && NoneEmpty(p.sections) && NameOk(p.current) && LinesOk(lines)
    ensures Shape(ParseLines(p, lines).sections) && NoneEmpty(ParseLines(p, lines).sections)
    decreases |lines|
  {
    hide Shape, NoneEmpty, NameOk, ParseLine;
    if lines != [] {
      ParseLineShape(p, lines[0]);
      ParseLinesShape(ParseLine(p, lines[0]), lines[1..]);
    }
  }

  /** Whatever the file holds, what is parsed has this shape. */
  lemma ParsedShape(content: string)
    ensures Shape(Parse(content)) && NoneEmpty(Parse(content)) && Pruned(Parse(content)) == Parse(content)
  {
    hide ParseLine;
    LinesAreNewlineFree(content);
    ParseLinesShape(Unparsed, Lines(content));
  }

  // ----- the round trip

  predicate Plain(ids: seq<string>) {
    forall i | 0 <= i < |ids| :: '\\' !in ids[i]
  }

  predicate PlainIds(sections: Sections) {
    forall n, k | n in sections && k in sections[n] :: Plain(sections[n][k])
  }

  lemma EscapedIsSame(ids: seq<string>)
    requires IdsOk(ids)
    ensures EscapeAll(ids) == ids <==> Plain(ids)
  {
    hide Escape;
    forall i | 0 <= i < |ids| ensures Escape(ids[i]) == ids[i] <==> '\\' !in ids[i] { EscapeKeepsOk(ids[i]); }
  }

  lemma EscapedSectionsAreSame(sections: Sections)
    requires Shape(sections) && NoneEmpty(sections)
    ensures Escaped(sections) == sections <==> PlainIds(sections)
  {
    hide Plain, IdsOk, EscapeAll;
    forall n, k | n in sections && k in sections[n] ensures EscapeAll(sections[n][k]) == sections[n][k] <==> Plain(sections[n][k]) {
      EscapedIsSame(sections[n][k]);
    }
    if Escaped(sections) == sections {
      forall n, k | n in sections && k in sections[n] ensures Plain(sections[n][k]) {
        assert Escaped(sections)[n] == EscapedKeys(sections[n]);
        assert EscapedKeys(sections[n])[k] == EscapeAll(sections[n][k]);
      }
    }
    if PlainIds(sections) {
      forall n | n in sections ensures EscapedKeys(sections[n]) == sections[n] {
        assert forall k | k in sections[n] :: EscapedKeys(sections[n])[k] == EscapeAll(sections[n][k]) && Plain(sections[n][k]);
      }
    }
  }

  /** The round trip, and exactly when it holds. */
  lemma RoundTrip(sections: Sections)
    ensures Parse(Render(sections)) == Pruned(sections) <==> Shape(sections) && PlainIds(Pruned(sections))
  {
    hide Parse, Render, Escaped, PlainIds;
    ParsedShape(Render(sections));
    PrunedShape(sections);
    if Shape(sections) {
      ParseOfRender(sections);
      EscapedSectionsAreSame(Pruned(sections));
    }
  }

  lemma PrunedShape(sections: Sections)
    ensures Shape(Pruned(sections)) <==> Shape(sections)
    ensures NoneEmpty(Pruned(sections))
  {
    hide NameOk, KeysOk;
    forall n | n in sections && sections[n] != map[] ensures n in Pruned(sections) && Pruned(sections)[n] == sections[n] {}
  }
}
