/** What the lines of a .reg file mean, without the functions that parse them: which
    files are accepted, and what each line of an accepted file adds. */
module RegReading {
  import opened Prelude
  import opened Text
  import opened RegText
  import opened RegLines
  import opened RegSnapshot
  import opened RegRoundTrip
  import opened RegPrinting

  // ----- one line

  predicate Skips(line: string) {
    line == "" || line[0] == ';' || line == "Windows Registry Editor Version 5.00" || line == "REGEDIT4"
  }

  /** A delete directive for a key, or what the parser takes for one for a value. */
  ghost predicate Deletes(line: string) {
    (|line| >= 2 && line[..2] == "[-") || exists a, b :: line == a + "=-" + b
  }

  ghost predicate Names(line: string, hive: Hive, subkey: string) {
    exists name :: NamesHive(name, hive) && (line == "[" + name + "\\" + subkey + "]" || (subkey == "" && line == "[" + name + "]"))
  }

  /** The relative path of a subkey that is the root or lies under it. */
  predicate Under(root: string, subkey: string, relative: string) {
    if subkey == root then relative == "" else subkey == root + "\\" + relative
  }

  ghost predicate ReadsName(text: string, name: string) {
    if text == "@" then name == "" else exists e :: text == "\"" + e + "\"" && Unescape(e) == Some(name)
  }

  ghost predicate ReadsHex(text: string, prefix: string, bytes: string) {
    exists t :: text == prefix + t && HexToBytes(t) == Some(bytes)
  }

  ghost predicate ReadsDword(text: string, prefix: string, bytes: string) {
    exists t :: text == prefix + t && DwordFromText(t) == Some(bytes)
  }

  ghost predicate ReadsData(text: string, kind: ValueType, bytes: string) {
    match kind
    case String => exists e :: text == "\"" + e + "\"" && Unescape(e) == Some(bytes)
    case Dword => ReadsDword(text, "dword:", bytes)
    case Qword => ReadsHex(text, "hex(b):", bytes)
    case ExpandableString => ReadsHex(text, "hex(2):", bytes)
    case MultiString => ReadsHex(text, "hex(7):", bytes)
    case Binary => ReadsHex(text, "hex:", bytes)
    case _ => false
  }

  /** The name is what stands before the first equals sign, the data all that follows. */
  ghost predicate ReadsValue(line: string, item: Value) {
    line != "" && line[0] != '[' && line[|line| - 1] != ']' &&
    exists name, data :: line == name + "=" + data && '=' !in name && ReadsName(Trim(name), item.name) && ReadsData(Trim(data), item.kind, item.bytes)
  }

  lemma HiveIsRead(name: string, hive: Hive)
    ensures HiveFromName(name) == Some(hive) <==> NamesHive(name, hive)
    ensures NamesHive(name, hive) ==> name != "" && name[0] == 'H' && '\\' !in name && '=' !in name
  {
  }

  lemma DeletesIs(line: string)
    ensures StartsWith(line, "[-") || HasDelete(line) <==> Deletes(line)
  {
    if HasDelete(line) {
      var i :| 0 <= i < |line| - 1 && line[i] == '=' && line[i + 1] == '-';
      assert line == line[..i] + "=-" + line[i + 2..];
    }
    if exists a, b :: line == a + "=-" + b {
      var a, b :| line == a + "=-" + b;
      assert line[|a|] == '=' && line[|a| + 1] == '-';
    }
  }

  lemma SubkeyIsRead(root: string, subkey: string, relative: string)
    ensures RelativeOf(root, subkey) == Some(relative) <==> Under(root, subkey, relative)
    ensures RelativeOf(root, subkey).None? <==> subkey != root && forall r: string :: subkey != root + "\\" + r
  {
    var prefix := root + "\\";
    if StartsWith(subkey, prefix) {
      assert subkey == prefix + subkey[|prefix|..];
    }
    forall r: string | subkey == prefix + r ensures StartsWith(subkey, prefix) && subkey[|prefix|..] == r {}
  }

  /** The parts of a section line, as the parser cuts them. */
  lemma SectionParts(line: string, hive: Hive, subkey: string)
    requires Names(line, hive, subkey)
    ensures |line| >= 3 && line[0] == '[' && line[|line| - 1] == ']' && line[1] == 'H'
    ensures var full := line[1..|line| - 1];
            var slash := IndexOf(full, '\\');
            HiveFromName(if slash < 0 then full else full[..slash]) == Some(hive) && subkey == if slash < 0 then "" else full[slash + 1..]
  {
    hide HiveFromName, NamesHive;
    var name :| NamesHive(name, hive) && (line == "[" + name + "\\" + subkey + "]" || (subkey == "" && line == "[" + name + "]"));
    HiveIsRead(name, hive);
    var full := line[1..|line| - 1];
    if line == "[" + name + "\\" + subkey + "]" {
      assert full == name + "\\" + subkey && full[|name|] == '\\';
      assert forall k | 0 <= k < |name| :: full[k] == name[k];
      IndexOfIs(full, '\\', |name|);
      assert full[..|name|] == name && full[|name| + 1..] == subkey;
    } else {
      assert full == name;
    }
  }

  /** What a section line does: the first one sets the root, later ones must lie under it. */
  lemma SectionIsRead(p: Parsed, line: string, hive: Hive, subkey: string)
    requires Names(line, hive, subkey) && !Deletes(line)
    ensures !p.haveRoot ==> ParseLine(p, line) == Ok(p.(haveRoot := true, root := Key(hive, subkey, Native), relative := ""))
    ensures p.haveRoot && hive != p.root.hive ==> ParseLine(p, line) == Err(MultipleHives)
    ensures p.haveRoot && hive == p.root.hive ==>
              match RelativeOf(p.root.subkey, subkey)
              case Some(relative) => ParseLine(p, line) == Ok(p.(relative := relative))
              case None => ParseLine(p, line) == Err(OutsideRoot)
  {
    hide HiveFromName, RelativeOf, Deletes, Names;
    SectionParts(line, hive, subkey);
    OtherFirstChar(line[1..|line| - 1], "\\\\");
    Routed(p, line, line[1..|line| - 1]);
  }

  lemma Routed(p: Parsed, line: string, full: string)
    requires |line| >= 2 && line[0] == '[' && line[|line| - 1] == ']' && line[1..|line| - 1] == full && !Deletes(line)
    ensures ParseLine(p, line) == ParseSection(p, full)
  {
    hide ParseSection, HasDelete, Deletes;
    DeletesIs(line);
  }

  /** Conversely an accepted line in brackets names a hive and a subkey. */
  lemma SectionNames(p: Parsed, line: string) returns (hive: Hive, subkey: string)
    requires line != "" && line[0] == '[' && ParseLine(p, line).Ok?
    ensures Names(line, hive, subkey) && !Deletes(line)
  {
    hide RelativeOf, HasDelete, Deletes, HiveFromName, NamesHive;
    DeletesIs(line);
    var full := line[1..|line| - 1];
    var slash := IndexOf(full, '\\');
    var name := if slash < 0 then full else full[..slash];
    hive := HiveFromName(name).value;
    subkey := if slash < 0 then "" else full[slash + 1..];
    HiveIsRead(name, hive);
    assert line == "[" + full + "]";
    NamesIs(line, full, name, hive, slash);
  }

  lemma NamesIs(line: string, full: string, name: string, hive: Hive, slash: int)
    requires line == "[" + full + "]" && NamesHive(name, hive) && -1 <= slash < |full| && (slash >= 0 ==> full[slash] == '\\')
    requires name == if slash < 0 then full else full[..slash]
    ensures Names(line, hive, if slash < 0 then "" else full[slash + 1..])
  {
    if slash >= 0 {
      var subkey := full[slash + 1..];
      assert full == name + "\\" + subkey;
      assert line == "[" + name + "\\" + subkey + "]";
    }
  }

  lemma NameIsRead(text: string, name: string)
    ensures ParseName(text) == Ok(name) <==> ReadsName(text, name)
    ensures ParseName(text) == Err(ValueNameInvalid) <==> text != "@" && forall e: string :: text != "\"" + e + "\""
  {
    QuotedIs(text);
    if Quoted(text) { Inside(text); }
  }

  lemma QuotedIs(text: string)
    ensures Quoted(text) <==> exists e: string :: text == "\"" + e + "\""
  {
    if Quoted(text) { assert text == "\"" + text[1..|text| - 1] + "\""; }
  }

  lemma Inside(text: string)
    requires Quoted(text)
    ensures forall e: string | text == "\"" + e + "\"" :: e == text[1..|text| - 1]
  {
  }

  lemma DataIsRead(text: string, kind: ValueType, bytes: string)
    ensures ParseData(text) == Ok((kind, bytes)) <==> ReadsData(text, kind, bytes)
  {
    hide HexToBytes, DwordFromText, Unescape, ReadsHex, ReadsDword;
    QuotedIs(text);
    HexIsRead(text, "hex(b):", bytes);
    HexIsRead(text, "hex(2):", bytes);
    HexIsRead(text, "hex(7):", bytes);
    HexIsRead(text, "hex:", bytes);
    DwordIsReadBehind(text, "dword:", bytes);
    assert StartsWith(text, "hex(b):") ==> text[0] == 'h' && text[3] == '(' && text[4] == 'b';
    assert StartsWith(text, "hex(2):") ==> text[0] == 'h' && text[3] == '(' && text[4] == '2';
    assert StartsWith(text, "hex(7):") ==> text[0] == 'h' && text[3] == '(' && text[4] == '7';
    assert StartsWith(text, "hex:") ==> text[0] == 'h' && text[3] == ':';
    assert StartsWith(text, "dword:") ==> text[0] == 'd';
    if Quoted(text) {
      Inside(text);
    }
  }

  lemma HexIsRead(text: string, prefix: string, bytes: string)
    ensures ReadsHex(text, prefix, bytes) <==> StartsWith(text, prefix) && HexToBytes(text[|prefix|..]) == Some(bytes)
    ensures StartsWith(text, prefix) ==> forall k | 0 <= k < |prefix| :: text[k] == prefix[k]
  {
    AfterPrefix(text, prefix);
  }

  lemma DwordIsReadBehind(text: string, prefix: string, bytes: string)
    ensures ReadsDword(text, prefix, bytes) <==> StartsWith(text, prefix) && DwordFromText(text[|prefix|..]) == Some(bytes)
    ensures StartsWith(text, prefix) ==> forall k | 0 <= k < |prefix| :: text[k] == prefix[k]
  {
    AfterPrefix(text, prefix);
  }

  lemma AfterPrefix(text: string, prefix: string)
    ensures StartsWith(text, prefix) ==> text == prefix + text[|prefix|..] && forall k | 0 <= k < |prefix| :: text[k] == prefix[k]
    ensures forall t | text == prefix + t :: StartsWith(text, prefix) && t == text[|prefix|..]
  {
    if StartsWith(text, prefix) {
      assert forall k | 0 <= k < |prefix| :: text[..|prefix|][k] == prefix[k];
    }
  }

  lemma SkippedLine(p: Parsed, line: string)
    requires Skips(line)
    ensures ParseLine(p, line) == Ok(p)
  {
  }

  lemma Unskipped(p: Parsed, line: string)
    requires !Skips(line) && line[0] != '[' && ParseLine(p, line).Ok?
    ensures line[|line| - 1] != ']' && !Deletes(line) && ParseLine(p, line) == ParseValueLine(p, line)
  {
    hide ParseValueLine, HasDelete, Deletes;
    DeletesIs(line);
  }

  lemma ValueLineIs(p: Parsed, line: string, name: string, data: string)
    requires p.haveRoot && line == name + "=" + data && '=' !in name
    ensures ParseValueLine(p, line) == match (ParseName(Trim(name)), ParseData(Trim(data)))
                                       case (Err(e), _) => Err(e)
                                       case (_, Err(e)) => Err(e)
                                       case (Ok(n), Ok(d)) => Ok(p.(values := p.values + [SnapshotValue(p.relative, Value(n, d.0, d.1))]))
  {
    hide ParseName, ParseData, Trim;
    assert forall k | 0 <= k < |name| :: line[k] == name[k];
    IndexOfIs(line, '=', |name|);
    assert line[..|name|] == name && line[|name| + 1..] == data;
  }

  /** A value line that is read adds the value to the key the parser is in. */
  lemma ValueIsRead(p: Parsed, line: string, item: Value)
    requires p.haveRoot && !Skips(line) && !Deletes(line) && ReadsValue(line, item)
    ensures ParseLine(p, line) == Ok(p.(values := p.values + [SnapshotValue(p.relative, item)]))
  {
    hide HasDelete, Deletes, ReadsName, ReadsData, Trim, ParseName, ParseData;
    DeletesIs(line);
    var name, data :| line == name + "=" + data && '=' !in name && ReadsName(Trim(name), item.name) && ReadsData(Trim(data), item.kind, item.bytes);
    NameIsRead(Trim(name), item.name);
    DataIsRead(Trim(data), item.kind, item.bytes);
    ValueLineIs(p, line, name, data);
  }

  /** Conversely an accepted line that is neither skipped nor a section reads as a value. */
  lemma ValueOf(p: Parsed, line: string) returns (item: Value)
    requires !Skips(line) && line[0] != '[' && ParseLine(p, line).Ok?
    ensures p.haveRoot && !Deletes(line) && ReadsValue(line, item)
    ensures ParseLine(p, line) == Ok(p.(values := p.values + [SnapshotValue(p.relative, item)]))
  {
    hide HasDelete, Deletes, ReadsName, ReadsData, Trim, ParseName, ParseData;
    Unskipped(p, line);
    var equals := IndexOf(line, '=');
    var name, data := line[..equals], line[equals + 1..];
    assert line == name + "=" + data;
    ValueLineIs(p, line, name, data);
    var read := ParseData(Trim(data)).value;
    item := Value(ParseName(Trim(name)).value, read.0, read.1);
    NameIsRead(Trim(name), item.name);
    DataIsRead(Trim(data), item.kind, item.bytes);
  }

  // ----- continued lines

  /** A hex value: one of the four prefixes behind the first equals sign and blanks. */
  lemma HexValueLineIs(line: string)
    ensures IsHexValueLine(line) <==>
              exists name, data :: line == name + "=" + data && '=' !in name && BeginsHex(Trim(data))
  {
    hide Trim, BeginsHex;
    var i := IndexOf(line, '=');
    if i >= 0 {
      assert line == line[..i] + "=" + line[i + 1..];
      BeginsHexIs(Trim(line[i + 1..]));
    }
    forall name, data | line == name + "=" + data && '=' !in name ensures i == |name| && data == line[i + 1..] {
      assert forall k | 0 <= k < |name| :: line[k] == name[k];
      IndexOfIs(line, '=', |name|);
    }
  }

  predicate BeginsHex(text: string) {
    || (|text| >= 4 && text[..4] == "hex:")
    || (|text| >= 7 && (text[..7] == "hex(2):" || text[..7] == "hex(7):" || text[..7] == "hex(b):"))
  }

  lemma BeginsHexIs(text: string)
    ensures BeginsHex(text) <==>
              StartsWith(text, "hex:") || StartsWith(text, "hex(2):") || StartsWith(text, "hex(7):") || StartsWith(text, "hex(b):")
  {
  }

  /** What one line adds, its carriage return dropped: it is refused if it continues a
      value without beginning with a blank or tab, or is to be continued without being a
      hex value; a backslash at its end says that it is continued. */
  lemma LineIsFed(st: LineState, line: string, cr: bool)
    requires line == "" || line[|line| - 1] != '\r'
    ensures var r, whole := FeedLine(st, if cr then line + "\r" else line), (if st.continuing then st.pending else "") + Trim(line);
            && (r.Err? <==> if st.continuing then line != "" && line[0] !in " \t"
                            else whole != "" && whole[|whole| - 1] == '\\' && !IsHexValueLine(whole[..|whole| - 1]))
            && (r.Err? ==> r == Err(ContinuationInvalid))
            && (r.Ok? ==> r.value == if whole != "" && whole[|whole| - 1] == '\\' then LineState(st.lines, whole[..|whole| - 1], true)
                                     else LineState(st.lines + [whole], "", false))
  {
    hide Trim, IsHexValueLine;
    var raw := if cr then line + "\r" else line;
    assert StripReturn(raw) == line by { if cr { assert raw[..|raw| - 1] == line; } }
    assert "" + Trim(line) == Trim(line);
    if line != "" { BlankOrTab(line[0]); }
  }

  lemma BlankOrTab(c: char)
    ensures c in " \t" <==> c == ' ' || c == '\t'
  {
    assert " \t"[0] == ' ' && " \t"[1] == '\t';
  }

  /** The logical lines, unless a line is refused or the text ends inside a value. */
  lemma TextIsFed(text: string, ls: seq<string>)
    ensures LogicalLines(text) == Ok(ls) <==>
              exists pending :: FeedLines(LineState([], "", false), Lines(text)) == Ok(LineState(ls, pending, false))
  {
  }

  // ----- a whole file

  predicate IsSection(line: string) {
    line != "" && line[0] == '['
  }

  predicate IsValue(line: string) {
    !Skips(line) && line[0] != '['
  }

  ghost predicate InRoot(line: string, hive: Hive, root: string) {
    exists subkey, relative :: Names(line, hive, subkey) && Under(root, subkey, relative)
  }

  /** The first n lines: nothing but skipped lines up to the section that names the
      root, then skipped lines, sections of the same hive under the root, and values. */
  ghost predicate Accepted(lines: seq<string>, n: nat, first: nat, hive: Hive, root: string) {
    && n <= |lines| && first < n && Names(lines[first], hive, root)
    && (forall k | 0 <= k < first :: Skips(lines[k]))
    && forall k | first <= k < n :: AcceptedLine(lines[k], hive, root)
  }

  ghost predicate AcceptedLine(line: string, hive: Hive, root: string) {
    Skips(line) || (!Deletes(line) && if IsSection(line) then InRoot(line, hive, root) else exists item :: ReadsValue(line, item))
  }

  /** The section line that line n stands under, and its path below the root. */
  ghost predicate KeyAt(lines: seq<string>, n: nat, hive: Hive, root: string, keyPath: string) {
    n <= |lines| && exists m | 0 <= m < n :: SectionAt(lines, m, n, hive, root, keyPath)
  }

  ghost predicate SectionAt(lines: seq<string>, m: nat, n: nat, hive: Hive, root: string, keyPath: string)
    requires m < n <= |lines|
  {
    && IsSection(lines[m]) && (forall k | m < k < n :: !IsSection(lines[k]))
    && exists subkey :: Names(lines[m], hive, subkey) && Under(root, subkey, keyPath)
  }

  /** The values read from the first n lines: one from each value line, in order. */
  ghost predicate Holds(lines: seq<string>, n: nat, root: Key, values: seq<SnapshotValue>, at: seq<nat>) {
    && n <= |lines| && |at| == |values|
    && (forall i, j | 0 <= i < j < |at| :: at[i] < at[j])
    && (forall i | 0 <= i < |at| :: at[i] < n)
    && (forall k | 0 <= k < n :: IsValue(lines[k]) ==> k in at)
    && forall i | 0 <= i < |at| ::
         IsValue(lines[at[i]]) && ReadsValue(lines[at[i]], values[i].item) && KeyAt(lines, at[i], root.hive, root.subkey, values[i].keyPath)
  }

  ghost predicate ReadSoFar(lines: seq<string>, n: nat, p: Parsed, first: nat, at: seq<nat>) {
    && n <= |lines|
    && if p.haveRoot then
         && Accepted(lines, n, first, p.root.hive, p.root.subkey) && p.root.view == Native
         && KeyAt(lines, n, p.root.hive, p.root.subkey, p.relative) && Holds(lines, n, p.root, p.values, at)
       else p == NothingParsed && at == [] && forall k | 0 <= k < n :: Skips(lines[k])
  }

  lemma KeyStays(lines: seq<string>, n: nat, hive: Hive, root: string, keyPath: string)
    requires n < |lines| && KeyAt(lines, n, hive, root, keyPath) && !IsSection(lines[n])
    ensures KeyAt(lines, n + 1, hive, root, keyPath)
  {
    hide Names, Under;
    var m :| 0 <= m < n && SectionAt(lines, m, n, hive, root, keyPath);
    assert SectionAt(lines, m, n + 1, hive, root, keyPath);
  }

  lemma SkippedIsRead(lines: seq<string>, n: nat, p: Parsed, first: nat, at: seq<nat>)
    requires n < |lines| && ReadSoFar(lines, n, p, first, at) && Skips(lines[n])
    ensures ReadSoFar(lines, n + 1, p, first, at)
  {
    hide Names, Under, KeyAt, ReadsValue, Deletes;
    if p.haveRoot { KeyStays(lines, n, p.root.hive, p.root.subkey, p.relative); }
  }

  lemma NextSectionIsRead(lines: seq<string>, n: nat, p: Parsed, first: nat, at: seq<nat>, q: Parsed) returns (first': nat)
    requires n < |lines| && ReadSoFar(lines, n, p, first, at) && IsSection(lines[n]) && ParseLine(p, lines[n]) == Ok(q)
    ensures ReadSoFar(lines, n + 1, q, first', at)
  {
    hide ParseLine, Names, Under, KeyAt, ReadsValue, Deletes, RelativeOf;
    var line := lines[n];
    var hive, subkey := SectionNames(p, line);
    SectionIsRead(p, line, hive, subkey);
    first' := if p.haveRoot then first else n;
    assert RelativeOf(q.root.subkey, subkey) == Some(q.relative) by { RootIsUnder(subkey); }
    SubkeyIsRead(q.root.subkey, subkey, q.relative);
    assert InRoot(line, hive, q.root.subkey);
    assert SectionAt(lines, n, n + 1, hive, q.root.subkey, q.relative);
    KeyHere(lines, n, hive, q.root.subkey, q.relative);
  }

  lemma RootIsUnder(root: string)
    ensures RelativeOf(root, root) == Some("")
  {
  }

  lemma KeyHere(lines: seq<string>, n: nat, hive: Hive, root: string, keyPath: string)
    requires n < |lines| && SectionAt(lines, n, n + 1, hive, root, keyPath)
    ensures KeyAt(lines, n + 1, hive, root, keyPath)
  {
  }

  lemma NextValueIsRead(lines: seq<string>, n: nat, p: Parsed, first: nat, at: seq<nat>, q: Parsed)
    requires n < |lines| && ReadSoFar(lines, n, p, first, at) && IsValue(lines[n]) && ParseLine(p, lines[n]) == Ok(q)
    ensures ReadSoFar(lines, n + 1, q, first, at + [n])
  {
    hide ParseLine, Names, Under, KeyAt, ReadsValue, Deletes, InRoot;
    var item := ValueOf(p, lines[n]);
    KeyStays(lines, n, p.root.hive, p.root.subkey, p.relative);
    assert forall k | 0 <= k < n && k in at :: k in at + [n];
  }

  lemma {:induction false} ReadUpTo(lines: seq<string>, n: nat) returns (first: nat, at: seq<nat>)
    requires n <= |lines| && ParseLines(NothingParsed, lines[..n]).Ok?
    ensures ReadSoFar(lines, n, ParseLines(NothingParsed, lines[..n]).value, first, at)
  {
    hide ParseLine, ReadSoFar;
    if n == 0 {
      first, at := 0, [];
      NothingRead(lines);
    } else {
      OneMoreLine(lines, n - 1);
      first, at := ReadUpTo(lines, n - 1);
      var p, q := ParseLines(NothingParsed, lines[..n - 1]).value, ParseLines(NothingParsed, lines[..n]).value;
      if Skips(lines[n - 1]) {
        SkippedLine(p, lines[n - 1]);
        SkippedIsRead(lines, n - 1, p, first, at);
      } else if IsSection(lines[n - 1]) {
        first := NextSectionIsRead(lines, n - 1, p, first, at, q);
      } else {
        NextValueIsRead(lines, n - 1, p, first, at, q);
        at := at + [n - 1];
      }
    }
  }

  lemma NothingRead(lines: seq<string>)
    ensures ReadSoFar(lines, 0, NothingParsed, 0, [])
  {
  }

  lemma OneMoreLine(lines: seq<string>, n: nat)
    requires n < |lines|
    ensures ParseLines(NothingParsed, lines[..n + 1]) == match ParseLines(NothingParsed, lines[..n])
                                                         case Ok(p) => ParseLine(p, lines[n])
                                                         case Err(e) => Err(e)
  {
    hide ParseLine;
    assert lines[..n + 1] == lines[..n] + [lines[n]];
    ParseLinesAppend(NothingParsed, lines[..n], [lines[n]]);
    if ParseLines(NothingParsed, lines[..n]).Ok? {
      var p := ParseLines(NothingParsed, lines[..n]).value;
      assert [lines[n]][1..] == [] && [lines[n]][0] == lines[n];
      if ParseLine(p, lines[n]).Ok? { assert ParseLines(ParseLine(p, lines[n]).value, []) == Ok(ParseLine(p, lines[n]).value); }
    }
  }

  lemma {:induction false} AcceptedIsRead(lines: seq<string>, n: nat, first: nat, hive: Hive, root: string)
    requires n <= |lines| && first < |lines| && Accepted(lines, |lines|, first, hive, root)
    ensures var r := ParseLines(NothingParsed, lines[..n]);
            r.Ok? && r.value.haveRoot == (first < n) && (first < n ==> r.value.root == Key(hive, root, Native))
  {
    hide ParseLine, ReadsValue, Names, Under, Deletes, Skips;
    if n != 0 {
      AcceptedIsRead(lines, n - 1, first, hive, root);
      OneMoreLine(lines, n - 1);
      var p, line := ParseLines(NothingParsed, lines[..n - 1]).value, lines[n - 1];
      assert n - 1 >= first ==> AcceptedLine(line, hive, root);
      if Skips(line) {
        SkippedLine(p, line);
        if n - 1 == first { SectionIsNotSkipped(line, hive, root); }
      } else if IsSection(line) {
        var subkey, relative :| Names(line, hive, subkey) && Under(root, subkey, relative);
        if n - 1 == first { SectionIsRead(p, line, hive, root); }
        SectionIsRead(p, line, hive, subkey);
        SubkeyIsRead(root, subkey, relative);
      } else {
        if n - 1 == first { SectionIsNotSkipped(line, hive, root); }
        var item :| ReadsValue(line, item);
        ValueIsRead(p, line, item);
      }
    }
  }

  lemma SectionIsNotSkipped(line: string, hive: Hive, subkey: string)
    requires Names(line, hive, subkey)
    ensures !Skips(line) && IsSection(line)
  {
  }

  /** Which files are accepted: exactly those whose lines are as Accepted says. */
  lemma AcceptedExactly(lines: seq<string>)
    ensures ParseLogical(lines).Ok? <==> exists first, hive, root :: Accepted(lines, |lines|, first, hive, root)
  {
    hide Accepted, ParseLines;
    assert lines[..|lines|] == lines;
    if ParseLogical(lines).Ok? {
      var first, at := ReadUpTo(lines, |lines|);
    }
    if first, hive, root :| Accepted(lines, |lines|, first, hive, root) {
      FirstIsALine(lines, first, hive, root);
      AcceptedIsRead(lines, |lines|, first, hive, root);
    }
  }

  lemma FirstIsALine(lines: seq<string>, first: nat, hive: Hive, root: string)
    requires Accepted(lines, |lines|, first, hive, root)
    ensures first < |lines|
  {
  }

  /** What an accepted file means: the root is what its first section names, and each
      value line gives one value, under the last section line above it. */
  lemma MeaningOfLines(lines: seq<string>) returns (first: nat, at: seq<nat>)
    requires ParseLogical(lines).Ok?
    ensures var s := ParseLogical(lines).value;
            && Accepted(lines, |lines|, first, s.root.hive, s.root.subkey) && s.root.view == Native
            && Holds(lines, |lines|, s.root, s.values, at)
  {
    hide Accepted, Holds, KeyAt, ParseLines;
    assert lines[..|lines|] == lines;
    first, at := ReadUpTo(lines, |lines|);
  }

  // ----- which error

  predicate IsBracketed(line: string) {
    line != "" && (line[0] == '[' || line[|line| - 1] == ']')
  }

  /** Both brackets, and between them a path that is neither empty nor a UNC path. */
  ghost predicate IsLocalPath(line: string) {
    exists inner :: line == "[" + inner + "]" && inner != "" && !(|inner| >= 2 && inner[..2] == "\\\\")
  }

  lemma LocalPathIs(line: string)
    requires line != ""
    ensures IsLocalPath(line) <==>
              |line| >= 3 && line[0] == '[' && line[|line| - 1] == ']' && !StartsWith(line[1..|line| - 1], "\\\\")
  {
    if |line| >= 2 && line[0] == '[' && line[|line| - 1] == ']' { assert line == "[" + line[1..|line| - 1] + "]"; }
    forall inner: string | line == "[" + inner + "]" ensures inner == line[1..|line| - 1] && |line| >= 2 {}
  }

  lemma NamedIsLocal(line: string, hive: Hive, subkey: string)
    requires Names(line, hive, subkey)
    ensures IsLocalPath(line)
  {
    hide Names;
    SectionParts(line, hive, subkey);
    OtherFirstChar(line[1..|line| - 1], "\\\\");
    LocalPathIs(line);
  }

  lemma Refused(p: Parsed, line: string)
    requires !Skips(line) && Deletes(line)
    ensures ParseLine(p, line) == Err(UnsupportedForm)
  {
    hide Deletes, HasDelete;
    DeletesIs(line);
  }

  /** The error of a line that is none of the accepted kinds, for directives and sections. */
  lemma SectionErrors(p: Parsed, line: string)
    requires !Skips(line)
    ensures ParseLine(p, line) == Err(UnsupportedForm) <==> Deletes(line)
    ensures ParseLine(p, line) == Err(KeyInvalid) <==> !Deletes(line) && IsBracketed(line) && !IsLocalPath(line)
    ensures ParseLine(p, line) == Err(HiveInvalid) <==> !Deletes(line) && IsLocalPath(line) && forall h, s :: !Names(line, h, s)
    ensures ParseLine(p, line) == Err(MultipleHives) <==>
              !Deletes(line) && p.haveRoot && exists h, s :: Names(line, h, s) && h != p.root.hive
    ensures ParseLine(p, line) == Err(OutsideRoot) <==>
              !Deletes(line) && p.haveRoot && exists s :: Names(line, p.root.hive, s) && RelativeOf(p.root.subkey, s).None?
  {
    hide HasDelete, Deletes, HiveFromName, Names, RelativeOf, ParseValueLine, ParseLine, IsLocalPath;
    if Deletes(line) {
      Refused(p, line);
    } else if exists h, s :: Names(line, h, s) {
      var h, s :| Names(line, h, s);
      forall h2, s2 | Names(line, h2, s2) ensures h2 == h && s2 == s {
        SectionParts(line, h, s);
        SectionParts(line, h2, s2);
      }
      NamedIsLocal(line, h, s);
      SectionIsRead(p, line, h, s);
    } else if IsLocalPath(line) {
      UnnamedHive(p, line);
    } else {
      NotLocal(p, line);
      NoSectionError(p, line);
    }
  }

  /** A local path that names no hive. */
  lemma UnnamedHive(p: Parsed, line: string)
    requires IsLocalPath(line) && !Deletes(line) && forall h, s :: !Names(line, h, s)
    ensures ParseLine(p, line) == Err(HiveInvalid)
  {
    hide Deletes, HiveFromName, NamesHive;
    LocalPathIs(line);
    var full := line[1..|line| - 1];
    Routed(p, line, full);
    var slash := IndexOf(full, '\\');
    var name := if slash < 0 then full else full[..slash];
    if HiveFromName(name).Some? {
      HiveIsRead(name, HiveFromName(name).value);
      NamesIs(line, full, name, HiveFromName(name).value, slash);
    }
  }

  lemma NotLocal(p: Parsed, line: string)
    requires !Skips(line) && !Deletes(line) && !IsLocalPath(line)
    ensures IsBracketed(line) ==> ParseLine(p, line) == Err(KeyInvalid)
    ensures !IsBracketed(line) ==> ParseLine(p, line) == ParseValueLine(p, line)
  {
    hide Deletes, HasDelete, ParseValueLine;
    DeletesIs(line);
    LocalPathIs(line);
    if |line| >= 2 && line[0] == '[' && line[|line| - 1] == ']' { Routed(p, line, line[1..|line| - 1]); }
  }

  lemma NoSectionError(p: Parsed, line: string)
    ensures ParseValueLine(p, line).Err? ==>
              ParseValueLine(p, line).error in {ValueInvalid, ValueNameInvalid, EscapeInvalid, ValueDataInvalid}
  {
    hide Trim, Unescape, DwordFromText, HexToBytes;
  }

  /** A value line without an equals sign, or above every section. */
  lemma ValueLacksKey(p: Parsed, line: string)
    requires !Skips(line) && !Deletes(line) && !IsBracketed(line)
    ensures ParseLine(p, line) == Err(ValueInvalid) <==> '=' !in line || !p.haveRoot
  {
    hide ParseName, ParseData, Trim, Deletes, ReadsName, ReadsData, IsQuoted;
    NotBracketed(p, line);
    var equals := IndexOf(line, '=');
    if equals >= 0 {
      NameErrors(Trim(line[..equals]));
      DataErrors(Trim(line[equals + 1..]));
    }
  }

  /** The error of any other value line, its first cause first. */
  lemma ValueErrors(p: Parsed, line: string, name: string, data: string)
    requires !Skips(line) && !Deletes(line) && !IsBracketed(line) && p.haveRoot && line == name + "=" + data && '=' !in name
    ensures ParseLine(p, line) == Err(ValueNameInvalid) <==> Trim(name) != "@" && !IsQuoted(Trim(name))
    ensures ParseLine(p, line) == Err(EscapeInvalid) <==>
              || (IsQuoted(Trim(name)) && forall n :: !ReadsName(Trim(name), n))
              || ((exists n :: ReadsName(Trim(name), n)) && IsQuoted(Trim(data)) && forall b :: !ReadsData(Trim(data), String, b))
    ensures ParseLine(p, line) == Err(ValueDataInvalid) <==>
              (exists n :: ReadsName(Trim(name), n)) && !IsQuoted(Trim(data)) && forall k, b :: !ReadsData(Trim(data), k, b)
  {
    hide ParseName, ParseData, Trim, Deletes, ReadsName, ReadsData, IsQuoted, ParseLine, ParseValueLine;
    NotBracketed(p, line);
    ValueLineIs(p, line, name, data);
    NameErrors(Trim(name));
    DataErrors(Trim(data));
  }

  ghost predicate IsQuoted(text: string) {
    exists e: string :: text == "\"" + e + "\""
  }

  lemma NotBracketed(p: Parsed, line: string)
    requires !Skips(line) && !Deletes(line) && !IsBracketed(line)
    ensures ParseLine(p, line) == ParseValueLine(p, line)
  {
    hide Deletes, ParseValueLine;
    LocalPathIs(line);
    NotLocal(p, line);
  }

  lemma NameErrors(text: string)
    ensures ParseName(text).Ok? <==> exists n :: ReadsName(text, n)
    ensures ParseName(text) == Err(ValueNameInvalid) <==> text != "@" && !IsQuoted(text)
    ensures ParseName(text) == Err(EscapeInvalid) <==> IsQuoted(text) && forall n :: !ReadsName(text, n)
    ensures ParseName(text).Err? ==> ParseName(text).error in {ValueNameInvalid, EscapeInvalid}
  {
    hide ReadsName, Unescape;
    forall n ensures ParseName(text) == Ok(n) <==> ReadsName(text, n) { NameIsRead(text, n); }
    QuotedIs(text);
  }

  lemma DataErrors(text: string)
    ensures ParseData(text).Ok? <==> exists k, b :: ReadsData(text, k, b)
    ensures ParseData(text) == Err(EscapeInvalid) <==> IsQuoted(text) && forall b :: !ReadsData(text, String, b)
    ensures ParseData(text) == Err(ValueDataInvalid) <==> !IsQuoted(text) && forall k, b :: !ReadsData(text, k, b)
    ensures ParseData(text).Err? ==> ParseData(text).error in {ValueDataInvalid, EscapeInvalid}
  {
    hide ReadsData, Unescape, HexToBytes, DwordFromText;
    forall k, b ensures ParseData(text) == Ok((k, b)) <==> ReadsData(text, k, b) { DataIsRead(text, k, b); }
    QuotedIs(text);
  }

  /** A file without any section, and only such a file, lacks a root. */
  lemma RootMissingExactly(lines: seq<string>)
    ensures ParseLogical(lines) == Err(RootMissing) <==> forall k | 0 <= k < |lines| :: Skips(lines[k])
  {
    hide ParseLine, Skips;
    assert lines[..|lines|] == lines;
    if forall k | 0 <= k < |lines| :: Skips(lines[k]) {
      AllSkipped(lines, |lines|);
    } else if ParseLines(NothingParsed, lines).Ok? {
      var first, at := ReadUpTo(lines, |lines|);
    } else {
      NeverRootMissing(lines, |lines|);
    }
  }

  lemma {:induction false} AllSkipped(lines: seq<string>, n: nat)
    requires n <= |lines| && forall k | 0 <= k < |lines| :: Skips(lines[k])
    ensures ParseLines(NothingParsed, lines[..n]) == Ok(NothingParsed)
  {
    hide ParseLine, Skips;
    if n != 0 {
      AllSkipped(lines, n - 1);
      OneMoreLine(lines, n - 1);
      SkippedLine(NothingParsed, lines[n - 1]);
    }
  }

  lemma {:induction false} NeverRootMissing(lines: seq<string>, n: nat)
    requires n <= |lines|
    ensures ParseLines(NothingParsed, lines[..n]) != Err(RootMissing)
  {
    hide ParseLine;
    if n != 0 {
      NeverRootMissing(lines, n - 1);
      OneMoreLine(lines, n - 1);
      if ParseLines(NothingParsed, lines[..n - 1]).Ok? { LineErrors(ParseLines(NothingParsed, lines[..n - 1]).value, lines[n - 1]); }
    }
  }

  lemma LineErrors(p: Parsed, line: string)
    ensures ParseLine(p, line) != Err(RootMissing)
  {
    hide HasDelete, HiveFromName, RelativeOf, Trim, Unescape, DwordFromText, HexToBytes;
  }
}
