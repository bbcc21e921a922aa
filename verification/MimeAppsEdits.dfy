/** Applying, removing and querying agree through the text of the file. */
module MimeAppsEdits {
  import opened Prelude
  import opened Text
  import opened MimeApps
  import opened MimeAppsRoundTrip

  function TextOf(content: Option<string>): string {
    match content case Some(text) => text case None => ""
  }

  // ----- the lists

  lemma {:induction false} WithoutIsOk(values: seq<string>, ids: seq<string>)
    requires IdsOk(values)
    ensures IdsOk(Without(values, ids))
    ensures forall x :: x in Without(values, ids) <==> x in values && x !in ids
  {
    if values != [] {
      WithoutIsOk(values[1..], ids);
      assert values == [values[0]] + values[1..];
    }
  }

  lemma {:induction false} WithNewIsOk(values: seq<string>, ids: seq<string>)
    requires IdsOk(values) && IdsOk(ids)
    ensures IdsOk(WithNew(values, ids))
    decreases |ids|
  {
    if ids != [] { WithNewIsOk(if ids[0] in values then values else values + [ids[0]], ids[1..]); }
  }

  /** Existing ids keep their places, the new ones follow, none of them twice. */
  lemma {:induction false} WithNewIs(values: seq<string>, ids: seq<string>)
    ensures values <= WithNew(values, ids)
    ensures forall x :: x in WithNew(values, ids) <==> x in values || x in ids
    ensures forall i | |values| <= i < |WithNew(values, ids)| :: WithNew(values, ids)[i] !in WithNew(values, ids)[..i]
    decreases |ids|
  {
    var next := if ids == [] || ids[0] in values then values else values + [ids[0]];
    if ids != [] {
      WithNewIs(next, ids[1..]);
      assert ids == [ids[0]] + ids[1..];
      var r := WithNew(values, ids);
      if next != values {
        assert r[..|values|] == values && r[|values|] == ids[0];
      }
    }
  }

  lemma {:induction false} NothingNew(values: seq<string>, ids: seq<string>)
    requires forall id | id in ids :: id in values
    ensures WithNew(values, ids) == values
    decreases |ids|
  {
    if ids != [] { NothingNew(values, ids[1..]); }
  }

  /** An escaped id is a backslash-free one only if it was that id before. */
  lemma EscapedMember(values: seq<string>, id: string)
    requires IdsOk(values) && '\\' !in id && '\n' !in id
    ensures id in EscapeAll(values) <==> id in values
  {
    hide Escape;
    if id in EscapeAll(values) {
      var i :| 0 <= i < |values| && Escape(values[i]) == id;
      BackslashStays(values[i]);
      EscapeKeepsOk(values[i]);
    }
    if id in values {
      var i :| 0 <= i < |values| && values[i] == id;
      EscapeKeepsOk(id);
      assert EscapeAll(values)[i] == id;
    }
  }

  lemma {:induction false} BackslashStays(s: string)
    ensures '\\' !in Escape(s) ==> '\\' !in s && '\n' !in s
  {
    if s != "" {
      BackslashStays(s[1..]);
      assert s == [s[0]] + s[1..];
      assert '\\' !in Escape(s) ==> '\\' !in EscapeChar(s[0]) && '\\' !in Escape(s[1..]);
      assert "\\\\"[0] == '\\' && "\\n"[0] == '\\';
    }
  }

  // ----- one edit

  lemma UpdatedShape(sections: Sections, name: string, key: string, ids: seq<string>, remove: bool)
    requires Shape(sections) && NoneEmpty(sections)
    requires remove || (NameOk(name) && KeyOk(key) && IdsOk(ids))
    ensures Shape(Updated(sections, name, key, ids, remove))
  {
    hide NameOk, KeyOk, IdsOk, Without, WithNew;
    var values := ValuesOf(sections, name, key);
    assert IdsOk(values) by { NoIdsOk(); }
    if remove {
      WithoutIsOk(values, ids);
      if Without(values, ids) != [] {
        if key !in KeysOf(sections, name) { NothingLeft(ids); }
        PutShape(sections, name, key, Without(values, ids));
      } else {
        RemovedShape(sections, name, key);
      }
    } else {
      WithNewIsOk(values, ids);
      PutShape(sections, name, key, WithNew(values, ids));
    }
  }

  lemma NoIdsOk()
    ensures IdsOk([])
  {
  }

  lemma NothingLeft(ids: seq<string>)
    ensures Without([], ids) == []
  {
  }

  lemma RemovedShape(sections: Sections, name: string, key: string)
    requires Shape(sections)
    ensures Shape(sections[name := KeysOf(sections, name) - {key}])
  {
    hide NameOk, KeyOk, IdsOk;
  }

  /** What is parsed after an edit: the updated sections, without the empty ones,
      with every id escaped once more. */
  lemma EditParses(content: Option<string>, name: string, key: string, ids: seq<string>, remove: bool)
    requires remove || (NameOk(name) && KeyOk(key) && IdsOk(ids))
    ensures Parse(Edited(content, name, key, ids, remove)) ==
            Escaped(Pruned(Updated(Parse(TextOf(content)), name, key, ids, remove)))
  {
    hide Parse, Render, Shape, Updated, Escaped, Pruned;
    ParsedShape(TextOf(content));
    UpdatedShape(Parse(TextOf(content)), name, key, ids, remove);
    ParseOfRender(Updated(Parse(TextOf(content)), name, key, ids, remove));
  }

  lemma ValuesOfEscaped(sections: Sections, name: string, key: string)
    ensures ValuesOf(Escaped(Pruned(sections)), name, key) == EscapeAll(ValuesOf(sections, name, key))
    ensures key in KeysOf(Escaped(Pruned(sections)), name) <==> key in KeysOf(sections, name)
  {
    hide EscapeAll;
    assert EscapeAll([]) == [] by { NothingEscaped(); }
  }

  lemma NothingEscaped()
    ensures EscapeAll([]) == []
  {
  }

  lemma UpdatedValues(sections: Sections, name: string, key: string, ids: seq<string>, remove: bool)
    ensures ValuesOf(Updated(sections, name, key, ids, remove), name, key) ==
            if remove then Without(ValuesOf(sections, name, key), ids) else WithNew(ValuesOf(sections, name, key), ids)
    ensures forall n, k | n != name || k != key ::
              && ValuesOf(Updated(sections, name, key, ids, remove), n, k) == ValuesOf(sections, n, k)
              && (k in KeysOf(Updated(sections, name, key, ids, remove), n) <==> k in KeysOf(sections, n))
  {
    hide Without, WithNew;
  }

  lemma ParsedValuesOk(content: string, name: string, key: string)
    ensures IdsOk(ValuesOf(Parse(content), name, key))
    ensures key in KeysOf(Parse(content), name) ==> NameOk(name) && KeyOk(key)
  {
    hide Parse, IdsOk, NameOk, KeyOk;
    ParsedShape(content);
    NoIdsOk();
  }

  // ----- the guarantees

  /** The edited key, and every other key, as read back from the new text. */
  lemma EditedKey(content: Option<string>, name: string, key: string, ids: seq<string>, remove: bool)
    requires remove || (NameOk(name) && KeyOk(key) && IdsOk(ids))
    ensures var was := Parse(TextOf(content));
            var now := Parse(Edited(content, name, key, ids, remove));
            && ValuesOf(now, name, key) ==
               EscapeAll(if remove then Without(ValuesOf(was, name, key), ids) else WithNew(ValuesOf(was, name, key), ids))
            && forall n, k | n != name || k != key ::
                 ValuesOf(now, n, k) == EscapeAll(ValuesOf(was, n, k)) && (k in KeysOf(now, n) <==> k in KeysOf(was, n))
  {
    hide Parse, Edited, Updated, Escaped, Pruned, EscapeAll, Without, WithNew, KeysOf, ValuesOf;
    var was := Parse(TextOf(content));
    var updated := Updated(was, name, key, ids, remove);
    EditParses(content, name, key, ids, remove);
    UpdatedValues(was, name, key, ids, remove);
    ValuesOfEscaped(updated, name, key);
    forall n, k | n != name || k != key
      ensures var now := Parse(Edited(content, name, key, ids, remove));
              ValuesOf(now, n, k) == EscapeAll(ValuesOf(was, n, k)) && (k in KeysOf(now, n) <==> k in KeysOf(was, n))
    {
      ValuesOfEscaped(updated, n, k);
    }
  }

  /** Frame: every other key keeps its ids, if they are free of backslashes. */
  lemma OtherKeysKeepTheirIds(content: Option<string>, name: string, key: string, ids: seq<string>, remove: bool, n: string, k: string)
    requires remove || (NameOk(name) && KeyOk(key) && IdsOk(ids))
    requires n != name || k != key
    ensures var was, now := Parse(TextOf(content)), Parse(Edited(content, name, key, ids, remove));
            && (k in KeysOf(now, n) <==> k in KeysOf(was, n))
            && (ValuesOf(now, n, k) == ValuesOf(was, n, k) <==> Plain(ValuesOf(was, n, k)))
  {
    hide Parse, Edited, EscapeAll, Plain, IdsOk, KeysOf, ValuesOf;
    EditedKey(content, name, key, ids, remove);
    ParsedValuesOk(TextOf(content), n, k);
    EscapedIsSame(ValuesOf(Parse(TextOf(content)), n, k));
  }

  lemma EscapedMembers(values: seq<string>, ids: seq<string>)
    requires IdsOk(values) && IdsOk(ids) && Plain(ids)
    ensures forall id | id in ids :: id in EscapeAll(values) <==> id in values
  {
    hide EscapeAll;
    forall id | id in ids ensures id in EscapeAll(values) <==> id in values {
      var i :| 0 <= i < |ids| && ids[i] == id;
      assert IdOk(ids[i]);
      EscapedMember(values, id);
    }
  }

  /** After applying, the query finds every id, for any content before, exactly
      if the section and the key survive the text. */
  lemma ApplyIsFound(content: Option<string>, name: string, key: string, ids: seq<string>, id: string)
    requires IdsOk(ids) && Plain(ids) && id in ids
    ensures Finds(Some(Edited(content, name, key, ids, false)), name, key, id) <==> NameOk(name) && KeyOk(key)
  {
    hide Parse, Edited, EscapeAll, Plain, IdsOk, WithNew, NameOk, KeyOk;
    if NameOk(name) && KeyOk(key) {
      var values := ValuesOf(Parse(TextOf(content)), name, key);
      EditedKey(content, name, key, ids, false);
      ParsedValuesOk(TextOf(content), name, key);
      WithNewIsOk(values, ids);
      WithNewIs(values, ids);
      EscapedMembers(WithNew(values, ids), ids);
    } else {
      ParsedValuesOk(Edited(content, name, key, ids, false), name, key);
    }
  }

  /** After removing, the query finds none of the ids, whatever the key. */
  lemma RemoveIsForgotten(content: Option<string>, name: string, key: string, ids: seq<string>, id: string)
    requires IdsOk(ids) && Plain(ids) && id in ids
    ensures !Finds(Some(Edited(content, name, key, ids, true)), name, key, id)
  {
    hide Parse, Edited, EscapeAll, Plain, IdsOk, Without;
    var values := ValuesOf(Parse(TextOf(content)), name, key);
    EditedKey(content, name, key, ids, true);
    ParsedValuesOk(TextOf(content), name, key);
    WithoutIsOk(values, ids);
    EscapedMembers(Without(values, ids), ids);
  }

  /** Existing ids of the key keep their places, escaped once more, the new ones
      follow, and none is added twice. */
  lemma ApplyKeepsOrder(content: Option<string>, name: string, key: string, ids: seq<string>)
    requires NameOk(name) && KeyOk(key) && IdsOk(ids) && Plain(ids)
    ensures var was := ValuesOf(Parse(TextOf(content)), name, key);
            var now := ValuesOf(Parse(Edited(content, name, key, ids, false)), name, key);
            && EscapeAll(was) <= now
            && (Plain(was) <==> EscapeAll(was) == was)
            && (forall i | |was| <= i < |now| :: now[i] in ids && now[i] !in was && now[i] !in now[..i])
            && (forall id | id in ids :: id in now)
  {
    hide Parse, Edited, EscapeAll, IdsOk, WithNew, ValuesOf, Plain;
    var was := ValuesOf(Parse(TextOf(content)), name, key);
    EditedKey(content, name, key, ids, false);
    ParsedValuesOk(TextOf(content), name, key);
    WithNewIsOk(was, ids);
    WithNewIs(was, ids);
    EscapedIsSame(was);
    EscapedPlaces(was, WithNew(was, ids), ids);
    EscapedMembers(WithNew(was, ids), ids);
  }

  /** Escaping leaves the new ids as they are, and apart from the old ones. */
  lemma EscapedPlaces(was: seq<string>, all: seq<string>, ids: seq<string>)
    requires IdsOk(all) && IdsOk(ids) && Plain(ids) && was <= all
    requires forall i | |was| <= i < |all| :: all[i] in ids && all[i] !in all[..i]
    ensures |EscapeAll(all)| == |all| && EscapeAll(was) <= EscapeAll(all)
    ensures forall i | |was| <= i < |all| ::
              EscapeAll(all)[i] in ids && EscapeAll(all)[i] !in was && EscapeAll(all)[i] !in EscapeAll(all)[..i]
  {
    hide Escape;
    forall i | |was| <= i < |all|
      ensures EscapeAll(all)[i] in ids && EscapeAll(all)[i] !in was && EscapeAll(all)[i] !in EscapeAll(all)[..i]
    {
      var k :| 0 <= k < |ids| && ids[k] == all[i];
      assert IdOk(ids[k]);
      EscapeKeepsOk(all[i]);
      EscapedMember(all[..i], all[i]);
      assert EscapeAll(all)[..i] == EscapeAll(all[..i]);
      assert forall x | x in was :: x in all[..i] by {
        assert was == all[..i][..|was|];
      }
    }
  }

  lemma PlainMembers(all: seq<string>, a: seq<string>, b: seq<string>)
    requires Plain(a) && Plain(b) && forall x :: x in all <==> x in a || x in b
    ensures Plain(all)
  {
    forall i | 0 <= i < |all| ensures '\\' !in all[i] {
      assert all[i] in all;
    }
  }

  /** Applying the same ids again leaves the text as it is exactly if no id of the file
      had a backslash: otherwise it is escaped again. */
  lemma ApplyTwiceIsApplyOnce(content: Option<string>, name: string, key: string, ids: seq<string>)
    requires NameOk(name) && KeyOk(key) && IdsOk(ids) && Plain(ids)
    ensures var once := Edited(content, name, key, ids, false);
            Edited(Some(once), name, key, ids, false) == once <==> PlainIds(Parse(TextOf(content)))
  {
    hide Parse, Render, Updated, IdsOk, Plain, PlainIds, KeyOk, NameOk, Shape, Escaped, Pruned, ValuesOf, KeysOf;
    var was := Parse(TextOf(content));
    var updated := Updated(was, name, key, ids, false);
    var once := Edited(content, name, key, ids, false);
    ParsedShape(TextOf(content));
    UpdatedShape(was, name, key, ids, false);
    AppliedIsPruned(was, name, key, ids);
    PrunedShape(updated);
    EscapedSectionsAreSame(updated);
    EditParses(content, name, key, ids, false);
    NothingAdded(was, name, key, ids);
    EditParses(Some(once), name, key, ids, false);
    EscapedShape(updated);
    PlainAgain(updated);
    AppliedIsPlain(was, name, key, ids);
  }

  /** The new ids are found again, so applying them again adds nothing. */
  lemma NothingAdded(sections: Sections, name: string, key: string, ids: seq<string>)
    requires Shape(sections) && NoneEmpty(sections) && NameOk(name) && KeyOk(key) && IdsOk(ids) && Plain(ids)
    ensures var now := Escaped(Updated(sections, name, key, ids, false)); Updated(now, name, key, ids, false) == now
  {
    hide WithNew, Plain, IdsOk, EscapeAll, NameOk, KeyOk;
    var values := ValuesOf(sections, name, key);
    var all := WithNew(values, ids);
    var now := Escaped(Updated(sections, name, key, ids, false));
    assert IdsOk(values) by { NoIdsOk(); }
    WithNewIsOk(values, ids);
    WithNewIs(values, ids);
    EscapedMembers(all, ids);
    assert ValuesOf(now, name, key) == EscapeAll(all);
    NothingNew(EscapeAll(all), ids);
    assert KeysOf(now, name)[key := EscapeAll(all)] == KeysOf(now, name);
  }

  lemma EscapedShape(sections: Sections)
    requires Shape(sections) && NoneEmpty(sections)
    ensures Shape(Escaped(sections)) && NoneEmpty(Escaped(sections)) && Pruned(Escaped(sections)) == Escaped(sections)
  {
    hide NameOk, KeyOk, IdOk, IdsOk, EscapeAll;
    forall n, k | n in sections && k in sections[n] ensures IdsOk(EscapeAll(sections[n][k])) { EscapedIdsOk(sections[n][k]); }
    assert forall n | n in sections :: sections[n] != map[] && EscapedKeys(sections[n]).Keys == sections[n].Keys;
  }

  lemma EscapedIdsOk(ids: seq<string>)
    requires IdsOk(ids)
    ensures IdsOk(EscapeAll(ids))
  {
    hide Escape;
    forall i | 0 <= i < |ids| ensures IdOk(EscapeAll(ids)[i]) { EscapeKeepsOk(ids[i]); }
  }

  /** Escaping changes nothing a second time only if it changed nothing the first time. */
  lemma PlainAgain(sections: Sections)
    requires Shape(sections) && NoneEmpty(sections)
    ensures Escaped(Escaped(sections)) == Escaped(sections) <==> PlainIds(sections)
    ensures Escaped(Escaped(sections)) == sections <==> PlainIds(sections)
  {
    hide Plain, IdsOk, EscapeAll, Shape;
    EscapedShape(sections);
    EscapedSectionsAreSame(sections);
    EscapedSectionsAreSame(Escaped(sections));
    if PlainIds(Escaped(sections)) || Escaped(Escaped(sections)) == sections {
      forall n, k | n in sections && k in sections[n] ensures Plain(sections[n][k]) {
        var now := Escaped(sections);
        assert now[n] == EscapedKeys(sections[n]) && now[n][k] == EscapeAll(sections[n][k]);
        assert Escaped(now)[n] == EscapedKeys(now[n]) && Escaped(now)[n][k] == EscapeAll(now[n][k]);
        PlainUnderEscapes(sections[n][k]);
      }
    }
  }

  lemma PlainUnderEscapes(ids: seq<string>)
    ensures Plain(EscapeAll(ids)) ==> Plain(ids)
    ensures EscapeAll(EscapeAll(ids)) == ids ==> Plain(ids)
  {
    hide Escape;
    forall i | 0 <= i < |ids|
      ensures '\\' !in EscapeAll(ids)[i] ==> '\\' !in ids[i]
      ensures EscapeAll(EscapeAll(ids))[i] == ids[i] ==> '\\' !in ids[i]
    {
      BackslashStays(ids[i]);
      EscapeKeepsOk(ids[i]);
      EscapeKeepsOk(Escape(ids[i]));
    }
  }

  lemma AppliedIsPruned(sections: Sections, name: string, key: string, ids: seq<string>)
    requires NoneEmpty(sections)
    ensures Pruned(Updated(sections, name, key, ids, false)) == Updated(sections, name, key, ids, false)
  {
    hide WithNew;
    assert key in Updated(sections, name, key, ids, false)[name];
  }

  lemma AppliedIsPlain(sections: Sections, name: string, key: string, ids: seq<string>)
    requires Plain(ids)
    ensures PlainIds(Updated(sections, name, key, ids, false)) <==> PlainIds(sections)
  {
    hide Plain, WithNew;
    var values := ValuesOf(sections, name, key);
    var updated := Updated(sections, name, key, ids, false);
    WithNewIs(values, ids);
    assert Plain(values) || (name in sections && key in sections[name]) by { NothingIsPlain(); }
    if PlainIds(sections) { PlainMembers(WithNew(values, ids), values, ids); }
    if PlainIds(updated) {
      assert updated[name][key] == WithNew(values, ids);
      PlainPart(values, WithNew(values, ids));
      forall n, k | n in sections && k in sections[n] ensures Plain(sections[n][k]) {
        if n != name || k != key { assert updated[n][k] == sections[n][k]; }
      }
    }
  }

  lemma PlainPart(a: seq<string>, all: seq<string>)
    requires Plain(all) && forall x | x in a :: x in all
    ensures Plain(a)
  {
    forall i | 0 <= i < |a| ensures '\\' !in a[i] { assert a[i] in all; }
  }

  lemma NothingIsPlain()
    ensures Plain([])
  {
  }

  lemma {:induction false} WithoutNew(values: seq<string>, ids: seq<string>, all: seq<string>)
    requires forall id | id in ids :: id in all
    ensures Without(WithNew(values, ids), all) == Without(values, all)
    decreases |ids|
  {
    if ids != [] {
      WithoutNew(if ids[0] in values then values else values + [ids[0]], ids[1..], all);
      WithoutLast(values, ids[0], all);
    }
  }

  lemma {:induction false} WithoutLast(values: seq<string>, last: string, all: seq<string>)
    requires last in all
    ensures Without(values + [last], all) == Without(values, all)
  {
    if values == [] {
      assert ([] + [last])[1..] == [];
    } else {
      WithoutLast(values[1..], last, all);
      assert (values + [last])[1..] == values[1..] + [last];
    }
  }

  lemma {:induction false} NothingRemoved(values: seq<string>, ids: seq<string>)
    requires forall x | x in values :: x !in ids
    ensures Without(values, ids) == values
  {
    if values != [] { NothingRemoved(values[1..], ids); }
  }

  /** Ids that survive as they are can be taken out before or after escaping. */
  lemma {:induction false} WithoutEscaped(values: seq<string>, ids: seq<string>)
    requires IdsOk(values) && IdsOk(ids) && Plain(ids)
    ensures Without(EscapeAll(values), ids) == EscapeAll(Without(values, ids))
  {
    hide Escape, Plain;
    if values != [] {
      var e := EscapeAll(values);
      assert e[0] == Escape(values[0]) && e[1..] == EscapeAll(values[1..]);
      assert EscapeAll([values[0]]) == [e[0]];
      WithoutEscaped(values[1..], ids);
      InAfterEscape(values[0], ids);
      assert EscapeAll([values[0]] + Without(values[1..], ids)) == [e[0]] + EscapeAll(Without(values[1..], ids));
    }
  }

  lemma InAfterEscape(id: string, ids: seq<string>)
    requires IdOk(id) && IdsOk(ids) && Plain(ids)
    ensures Escape(id) in ids <==> id in ids
  {
    hide Escape;
    EscapeKeepsOk(id);
    BackslashStays(id);
  }

  lemma SectionEscaped(sections: Sections, name: string, keys: Keys)
    ensures Escaped(sections)[name := EscapedKeys(keys)] == Escaped(sections[name := keys])
    ensures KeysOf(Escaped(sections), name) == EscapedKeys(KeysOf(sections, name))
  {
    hide EscapeAll;
    assert EscapedKeys(map[]) == map[];
    hide EscapedKeys;
  }

  lemma KeyEscaped(keys: Keys, key: string, values: seq<string>)
    ensures EscapedKeys(keys)[key := EscapeAll(values)] == EscapedKeys(keys[key := values])
    ensures EscapedKeys(keys) - {key} == EscapedKeys(keys - {key})
  {
    hide EscapeAll;
  }

  lemma PutEscaped(sections: Sections, name: string, key: string, values: seq<string>)
    ensures Put(Escaped(sections), name, key, EscapeAll(values)) == Escaped(Put(sections, name, key, values))
  {
    hide EscapeAll, Escaped, EscapedKeys;
    SectionEscaped(sections, name, KeysOf(sections, name)[key := values]);
    KeyEscaped(KeysOf(sections, name), key, values);
  }

  lemma EscapedValues(sections: Sections, name: string, key: string)
    ensures ValuesOf(Escaped(sections), name, key) == EscapeAll(ValuesOf(sections, name, key))
  {
    hide EscapeAll;
    assert EscapeAll([]) == [] by { NothingEscaped(); }
  }

  lemma DropEscaped(sections: Sections, name: string, key: string)
    ensures Escaped(sections)[name := KeysOf(Escaped(sections), name) - {key}] == Escaped(sections[name := KeysOf(sections, name) - {key}])
  {
    hide EscapeAll, Escaped, EscapedKeys;
    SectionEscaped(sections, name, KeysOf(sections, name) - {key});
    KeyEscaped(KeysOf(sections, name), key, []);
  }

  lemma PrunedEscaped(sections: Sections)
    ensures Pruned(Escaped(sections)) == Escaped(Pruned(sections))
  {
    hide EscapeAll;
    assert forall n | n in sections :: EscapedKeys(sections[n]).Keys == sections[n].Keys;
    assert forall n | n in sections :: EscapedKeys(sections[n]) == map[] <==> sections[n] == map[];
  }

  /** Removing ids that survive as they are can be done before or after escaping. */
  lemma RemovedEscaped(sections: Sections, name: string, key: string, ids: seq<string>)
    requires IdsOk(ValuesOf(sections, name, key)) && IdsOk(ids) && Plain(ids)
    ensures Updated(Escaped(sections), name, key, ids, true) == Escaped(Updated(sections, name, key, ids, true))
  {
    hide EscapeAll, Escaped, IdsOk, Plain, Without, Put, KeysOf, ValuesOf;
    var values := ValuesOf(sections, name, key);
    EscapedValues(sections, name, key);
    WithoutEscaped(values, ids);
    EscapeLength(Without(values, ids));
    PutEscaped(sections, name, key, Without(values, ids));
    DropEscaped(sections, name, key);
  }

  lemma RemovedAgain(sections: Sections, name: string, key: string, ids: seq<string>)
    requires NoneEmpty(sections) && (forall x | x in ValuesOf(sections, name, key) :: x !in ids)
    requires key in KeysOf(sections, name) ==> sections[name][key] != []
    ensures Pruned(Updated(Updated(sections, name, key, ids, false), name, key, ids, true)) == sections
  {
    hide Without, WithNew;
    var values := ValuesOf(sections, name, key);
    var updated := Updated(sections, name, key, ids, false);
    assert ValuesOf(updated, name, key) == WithNew(values, ids);
    WithoutNew(values, ids, ids);
    NothingRemoved(values, ids);
    if key in KeysOf(sections, name) {
      assert KeysOf(updated, name)[key := values] == KeysOf(sections, name);
    } else {
      assert KeysOf(updated, name) - {key} == KeysOf(sections, name);
    }
  }

  lemma EscapeLength(values: seq<string>)
    ensures |EscapeAll(values)| == |values|
  {
  }

  lemma AppliedValuesOk(sections: Sections, name: string, key: string, ids: seq<string>)
    requires Shape(sections) && NoneEmpty(sections) && IdsOk(ids)
    ensures IdsOk(ValuesOf(Updated(sections, name, key, ids, false), name, key))
  {
    hide IdsOk, WithNew, NameOk, KeyOk;
    var values := ValuesOf(sections, name, key);
    assert IdsOk(values) by { NoIdsOk(); }
    WithNewIsOk(values, ids);
  }

  /** Removing new ids again gives back every section as it was before applying, its
      ids escaped by both edits, and so exactly as it was if none has a backslash. */
  lemma RemoveUndoesApply(content: Option<string>, name: string, key: string, ids: seq<string>)
    requires NameOk(name) && KeyOk(key) && IdsOk(ids) && Plain(ids)
    requires var was := Parse(TextOf(content));
             (forall x | x in ValuesOf(was, name, key) :: x !in ids) && (key in KeysOf(was, name) ==> was[name][key] != [])
    ensures var was, once := Parse(TextOf(content)), Edited(content, name, key, ids, false);
            var undone := Parse(Edited(Some(once), name, key, ids, true));
            undone == Escaped(Escaped(was)) && (undone == was <==> PlainIds(was))
  {
    hide Parse, Edited, Updated, IdsOk, Plain, PlainIds, KeyOk, NameOk, Shape, Escaped, Pruned, ValuesOf, KeysOf;
    var was := Parse(TextOf(content));
    var updated := Updated(was, name, key, ids, false);
    ParsedShape(TextOf(content));
    AppliedIsPruned(was, name, key, ids);
    EditParses(content, name, key, ids, false);
    EditParses(Some(Edited(content, name, key, ids, false)), name, key, ids, true);
    AppliedValuesOk(was, name, key, ids);
    RemovedEscaped(updated, name, key, ids);
    PrunedEscaped(Updated(updated, name, key, ids, true));
    RemovedAgain(was, name, key, ids);
    PlainAgain(was);
  }

  // ----- what callers pass

  predicate IsAlnum(c: char) {
    'a' <= c <= 'z' || 'A' <= c <= 'Z' || '0' <= c <= '9'
  }

  predicate IsSafeDesktopId(id: string) {
    id != "" && id[0] != '.' && forall c | c in id :: IsAlnum(c) || c == '.' || c == '-' || c == '_'
  }

  const DesktopSuffix := ".desktop"

  function EnsureSuffix(id: string): string {
    if |id| >= |DesktopSuffix| && id[|id| - |DesktopSuffix|..] == DesktopSuffix then id else id + DesktopSuffix
  }

  function NormalizedIds(ids: seq<string>): seq<string> {
    if ids == [] then []
    else (if IsSafeDesktopId(ids[0]) then [EnsureSuffix(ids[0])] else []) + NormalizedIds(ids[1..])
  }

  method NormalizeDesktopIds(ids: seq<string>) returns (result: seq<string>, errors: nat)
    ensures result == NormalizedIds(ids)
    ensures errors == 0 <==> ids != [] && forall i | 0 <= i < |ids| :: IsSafeDesktopId(ids[i])
  {
    hide IsSafeDesktopId;
    result, errors := [], if ids == [] then 1 else 0;
    for i := 0 to |ids|
      invariant result + NormalizedIds(ids[i..]) == NormalizedIds(ids)
      invariant errors == 0 <==> ids != [] && forall k | 0 <= k < i :: IsSafeDesktopId(ids[k])
    {
      assert ids[i..][1..] == ids[i + 1..];
      if !IsSafeDesktopId(ids[i]) {
        errors := errors + 1;
      } else {
        result := result + [EnsureSuffix(ids[i])];
      }
    }
    assert ids[|ids|..] == [];
  }

  /** The suffix is there, once, and nothing else changes. */
  lemma SuffixOnce(id: string)
    ensures var full := EnsureSuffix(id);
            && id <= full && |full| >= |DesktopSuffix| && full[|full| - |DesktopSuffix|..] == DesktopSuffix
            && EnsureSuffix(full) == full && (full == id || full[..|id|] + DesktopSuffix == full)
  {
    assert (id + DesktopSuffix)[|id|..] == DesktopSuffix;
  }

  lemma SafeIdIsOk(id: string)
    requires IsSafeDesktopId(id)
    ensures IdOk(EnsureSuffix(id)) && '\\' !in EnsureSuffix(id)
  {
    assert forall c | c in EnsureSuffix(id) :: c in id || c in DesktopSuffix;
    assert forall c | c in DesktopSuffix :: c != ';' && c != '\n' && c != '\\';
  }

  lemma {:induction false} NormalizedAreOk(ids: seq<string>)
    ensures IdsOk(NormalizedIds(ids)) && Plain(NormalizedIds(ids))
  {
    hide IsSafeDesktopId, EnsureSuffix;
    if ids != [] {
      NormalizedAreOk(ids[1..]);
      if IsSafeDesktopId(ids[0]) { SafeIdIsOk(ids[0]); }
    }
  }

  predicate IsMimeComponent(s: string) {
    && s != "" && s[0] != '.' && (forall i | 0 < i < |s| :: !(s[i - 1] == '.' && s[i] == '.'))
    && forall c | c in s :: IsAlnum(c) || c == '.' || c == '-' || c == '_' || c == '+'
  }

  predicate IsSafeMimeName(s: string) {
    var slash := IndexOf(s, '/');
    slash > 0 && slash + 1 < |s| && IsMimeComponent(s[..slash]) && IsMimeComponent(s[slash + 1..])
  }

  lemma SafeMimeIsOk(s: string)
    requires IsSafeMimeName(s)
    ensures KeyOk(s)
  {
    var slash := IndexOf(s, '/');
    assert s == s[..slash] + "/" + s[slash + 1..];
    assert forall c | c in s :: c in s[..slash] || c == '/' || c in s[slash + 1..];
    assert s[0] in s[..slash];
  }

  /** The keys for which a default application is accepted: the scheme handlers
      are not looked at any further. */
  predicate IsAcceptedDefaultKey(s: string) {
    IsSafeMimeName(s) || StartsWith(s, "x-scheme-handler/")
  }

  /** An added association is always found: safe names and ids survive the text. */
  lemma AssociationIsFound(content: Option<string>, mime: string, ids: seq<string>, id: string)
    requires IsSafeMimeName(mime) && id in NormalizedIds(ids)
    ensures Finds(Some(Edited(content, "Added Associations", mime, NormalizedIds(ids), false)), "Added Associations", mime, id)
  {
    hide Finds, Edited, KeyOk, IsSafeMimeName;
    SafeMimeIsOk(mime);
    NormalizedAreOk(ids);
    ApplyIsFound(content, "Added Associations", mime, NormalizedIds(ids), id);
  }

  lemma KeyParts(key: string)
    ensures KeyOk(key) <==> '\n' !in key && '=' !in key && (key == "" || key[0] != '#')
  {
  }

  /** A default application is found exactly if its key has neither '=' nor a
      newline, which the accepted scheme handlers may have. */
  lemma DefaultIsFound(content: Option<string>, key: string, ids: seq<string>, id: string)
    requires IsAcceptedDefaultKey(key) && id in NormalizedIds(ids)
    ensures Finds(Some(Edited(content, "Default Applications", key, NormalizedIds(ids), false)), "Default Applications", key, id) <==>
            '=' !in key && '\n' !in key
  {
    hide Finds, Edited, KeyOk, IsSafeMimeName;
    NormalizedAreOk(ids);
    KeyParts(key);
    if IsSafeMimeName(key) {
      SafeMimeIsOk(key);
    } else {
      assert "x-scheme-handler/"[0] == 'x';
    }
    ApplyIsFound(content, "Default Applications", key, NormalizedIds(ids), id);
  }
}
