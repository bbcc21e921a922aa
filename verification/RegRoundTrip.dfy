/** The exact domain on which the .reg parser undoes the .reg serializer. */
module RegRoundTrip {
  import opened Prelude
  import opened Text
  import opened RegText
  import opened RegLines
  import opened RegSnapshot

  predicate KeyOk(s: string) {
    '\n' !in s && !HasDelete(s)
  }

  predicate ValueOk(item: Value) {
    && '\n' !in item.name
    && '=' !in item.name
    && match item.kind
       case Untyped => false
       case Unknown => false
       case String => '\n' !in item.bytes && !HasDelete(item.bytes)
       case Dword => |item.bytes| == 4
       case _ => true
  }

  predicate RecordOk(v: SnapshotValue) {
    KeyOk(v.keyPath) && ValueOk(v.item)
  }

  /** The snapshots that survive a trip through the .reg form. */
  predicate InDomain(s: Snapshot) {
    && s.root.view == Native
    && KeyOk(s.root.subkey)
    && s.values != []
    && s.values[0].keyPath == ""
    && forall i | 0 <= i < |s.values| ::
         && RecordOk(s.values[i])
         && (s.root.subkey == "" ==> s.values[i].keyPath == "")
         && (s.values[i].item.kind == String ==> NulFree(s.values[i].item.bytes))
  }

  // ----- "=-" under concatenation, slicing and escaping

  lemma HasDeleteAppend(a: string, b: string)
    requires !(a != "" && b != "" && a[|a| - 1] == '=' && b[0] == '-')
    ensures HasDelete(a + b) ==> HasDelete(a) || HasDelete(b)
  {
    if HasDelete(a + b) {
      var s := a + b;
      var i :| 0 <= i < |s| - 1 && s[i] == '=' && s[i + 1] == '-';
      if i >= |a| {
        assert b[i - |a|] == '=' && b[i - |a| + 1] == '-';
      } else if i + 1 < |a| {
        assert a[i] == '=' && a[i + 1] == '-';
      }
    }
  }

  lemma HasDeleteSlice(s: string, lo: nat, hi: nat)
    requires lo <= hi <= |s|
    ensures HasDelete(s[lo..hi]) ==> HasDelete(s)
  {
    if HasDelete(s[lo..hi]) {
      var i :| 0 <= i < hi - lo - 1 && s[lo..hi][i] == '=' && s[lo..hi][i + 1] == '-';
      assert s[lo + i] == '=' && s[lo + i + 1] == '-';
    }
  }

  lemma HasDeleteNeedsEquals(s: string)
    requires '=' !in s
    ensures !HasDelete(s)
  {
  }

  lemma TrimIsSlice(s: string) returns (lo: nat, hi: nat)
    ensures lo <= hi <= |s| && Trim(s) == s[lo..hi]
  {
    var t := TrimStart(s);
    lo := |s| - |t|;
    hi := lo + |TrimEnd(t)|;
  }

  lemma {:induction false} EscapeKeepsOut(s: string, c: char)
    requires c !in s && !NeedsEscape(c)
    ensures c !in Escape(s)
  {
    if s != "" { EscapeKeepsOut(s[1..], c); }
  }

  lemma {:induction false} EscapeAddsNoDelete(s: string)
    ensures HasDelete(Escape(s)) ==> HasDelete(s)
  {
    if s != "" {
      var first := if NeedsEscape(s[0]) then ['\\', s[0]] else [s[0]];
      var rest := Escape(s[1..]);
      EscapeAddsNoDelete(s[1..]);
      HasDeleteSlice(s, 1, |s|);
      assert s[1..|s|] == s[1..];
      HasDeleteNeedsEqualsThenDash(first);
      if first[|first| - 1] == '=' && rest != "" && rest[0] == '-' {
        assert s[0] == '=' && s[1] == '-';
      } else {
        HasDeleteAppend(first, rest);
      }
    }
  }

  lemma HasDeleteNeedsEqualsThenDash(s: string)
    requires |s| == 1 || (|s| == 2 && s[1] != '-')
    ensures !HasDelete(s)
  {
  }

  lemma {:induction false} UnescapeKeepsOut(s: string, c: char)
    requires c !in s
    ensures Unescape(s).Some? ==> c !in Unescape(s).value
  {
    if s != "" {
      if s[0] != '\\' { UnescapeKeepsOut(s[1..], c); }
      else if |s| >= 2 { UnescapeKeepsOut(s[2..], c); }
    }
  }

  lemma {:induction false} UnescapeAddsNoDelete(s: string)
    ensures Unescape(s).Some? ==> HasDelete(Unescape(s).value) ==> HasDelete(s)
  {
    if s != "" && Unescape(s).Some? {
      var skip := if s[0] != '\\' then 1 else 2;
      var rest := Unescape(s[skip..]).value;
      var first := [s[skip - 1]];
      UnescapeAddsNoDelete(s[skip..]);
      HasDeleteSlice(s, skip, |s|);
      assert s[skip..|s|] == s[skip..];
      HasDeleteNeedsEqualsThenDash(first);
      if first[0] == '=' && rest != "" && rest[0] == '-' {
        assert s[0] == '=' && s[1] == '-';
      } else {
        HasDeleteAppend(first, rest);
      }
    }
  }

  // ----- what the parser can return

  ghost predicate Reachable(p: Parsed) {
    && p.root.view == Native
    && KeyOk(p.root.subkey)
    && KeyOk(p.relative)
    && forall i | 0 <= i < |p.values| :: RecordOk(p.values[i])
  }

  lemma SliceKeyOk(s: string, lo: nat, hi: nat)
    requires lo <= hi <= |s| && KeyOk(s)
    ensures KeyOk(s[lo..hi])
    ensures hi == |s| ==> KeyOk(s[lo..])
  {
    HasDeleteSlice(s, lo, hi);
    assert hi == |s| ==> s[lo..hi] == s[lo..];
  }

  lemma SectionIsReachable(p: Parsed, fullKey: string)
    requires Reachable(p) && KeyOk(fullKey)
    ensures ParseSection(p, fullKey).Ok? ==> Reachable(ParseSection(p, fullKey).value)
  {
    hide HasDelete, HiveFromName, StartsWith;
    assert KeyOk("") by { HasDeleteNeedsEquals(""); }
    var r := ParseSection(p, fullKey);
    if r.Ok? {
      var slash := IndexOf(fullKey, '\\');
      var subkey := if slash < 0 then "" else fullKey[slash + 1..];
      if slash >= 0 { SliceKeyOk(fullKey, slash + 1, |fullKey|); }
      assert KeyOk(subkey);
      if p.haveRoot && subkey != p.root.subkey {
        PrefixLength(subkey, p.root.subkey + "\\");
        SliceKeyOk(subkey, |p.root.subkey| + 1, |subkey|);
      }
    }
  }

  lemma NameIsReachable(text: string)
    requires '\n' !in text && '=' !in text
    ensures ParseName(text).Ok? ==> '\n' !in ParseName(text).value && '=' !in ParseName(text).value
  {
    if Quoted(text) {
      UnescapeKeepsOut(text[1..|text| - 1], '\n');
      UnescapeKeepsOut(text[1..|text| - 1], '=');
    }
  }

  lemma DataIsReachable(text: string, name: string)
    requires KeyOk(text) && '\n' !in name && '=' !in name
    ensures ParseData(text).Ok? ==> ValueOk(Value(name, ParseData(text).value.0, ParseData(text).value.1))
  {
    hide HexToBytes, HasDelete, Unescape, HexNumber, StartsWith;
    if Quoted(text) {
      var inner := text[1..|text| - 1];
      UnescapeKeepsOut(inner, '\n');
      UnescapeAddsNoDelete(inner);
      HasDeleteSlice(text, 1, |text| - 1);
    }
  }

  lemma ValueLineIsReachable(p: Parsed, line: string)
    requires Reachable(p) && KeyOk(line)
    ensures ParseValueLine(p, line).Ok? ==> Reachable(ParseValueLine(p, line).value)
  {
    hide HasDelete, ParseName, ParseData, Trim;
    var r := ParseValueLine(p, line);
    if r.Ok? {
      var equals := IndexOf(line, '=');
      var lo, hi := TrimIsSlice(line[..equals]);
      NameIsReachable(Trim(line[..equals]));
      lo, hi := TrimIsSlice(line[equals + 1..]);
      SliceKeyOk(line, equals + 1, |line|);
      SliceKeyOk(line[equals + 1..], lo, hi);
      DataIsReachable(Trim(line[equals + 1..]), ParseName(Trim(line[..equals])).value);
    }
  }

  lemma LineIsReachable(p: Parsed, line: string)
    requires Reachable(p) && '\n' !in line
    ensures ParseLine(p, line).Ok? ==> Reachable(ParseLine(p, line).value)
  {
    hide HasDelete, ParseValueLine, ParseSection, Reachable;
    if !IsSkipped(line) && !HasDelete(line) {
      if line[0] == '[' && line[|line| - 1] == ']' {
        if |line| >= 2 {
          SliceKeyOk(line, 1, |line| - 1);
        }
        SectionIsReachable(p, line[1..|line| - 1]);
      } else {
        ValueLineIsReachable(p, line);
      }
    }
  }

  lemma {:induction false} LinesAreReachable(p: Parsed, lines: seq<string>)
    requires Reachable(p) && forall l | l in lines :: '\n' !in l
    ensures ParseLines(p, lines).Ok? ==> Reachable(ParseLines(p, lines).value)
    decreases |lines|
  {
    hide ParseLine, Reachable;
    if lines != [] {
      assert lines[0] in lines;
      LineIsReachable(p, lines[0]);
      if ParseLine(p, lines[0]).Ok? {
        LinesAreReachable(ParseLine(p, lines[0]).value, lines[1..]);
      }
    }
  }

  /** Whatever the input, an accepted snapshot has the native view, keys and
      string data without newlines or "=-", names without '=' or newlines, no
      untyped or unknown value, and four-byte dwords. */
  lemma ParsedIsReachable(content: string)
    requires ParseReg(content).Ok?
    ensures var s := ParseReg(content).value;
            s.root.view == Native && KeyOk(s.root.subkey) && forall i | 0 <= i < |s.values| :: RecordOk(s.values[i])
  {
    hide ParseLines, LogicalLines, DecodeRegText;
    var text := DecodeRegText(content).value;
    LogicalLinesAreNewlineFree(text);
    assert Reachable(NothingParsed) by { HasDeleteNeedsEquals(""); }
    LinesAreReachable(NothingParsed, LogicalLines(text).value);
  }

  // ----- what the serializer prints

  lemma HiveNameFacts(hive: Hive)
    ensures var n := HiveName(hive); n != "" && n[0] == 'H' && '\\' !in n && '\n' !in n && '=' !in n
    ensures HiveFromName(HiveName(hive)) == Some(hive)
  {
  }

  lemma CombinedKeyOk(root: Key, keyPath: string)
    requires KeyOk(root.subkey) && KeyOk(keyPath)
    ensures KeyOk(CombineKeyPath(root, keyPath))
  {
    HasDeleteAppend(root.subkey, "\\");
    HasDeleteAppend(root.subkey + "\\", keyPath);
  }

  lemma FullKeyOk(root: Key, keyPath: string)
    requires KeyOk(root.subkey) && KeyOk(keyPath)
    ensures var full := FullKey(root, keyPath); full != "" && full[0] == 'H' && KeyOk(full)
  {
    hide HasDelete, HiveName;
    HiveNameFacts(root.hive);
    CombinedKeyOk(root, keyPath);
    HasDeleteNeedsEquals(HiveName(root.hive) + "\\");
    HasDeleteAppend(HiveName(root.hive) + "\\", CombineKeyPath(root, keyPath));
  }

  lemma SectionLineFacts(full: string)
    requires full != "" && full[0] == 'H' && KeyOk(full)
    ensures var l := SectionLine(full); Plain(l) && '\n' !in l && !IsSkipped(l) && !StartsWith(l, "[-") && !HasDelete(l)
    ensures var l := SectionLine(full); l[0] == '[' && l[|l| - 1] == ']' && l[1..|l| - 1] == full
  {
    HasDeleteAppend("[", full);
    HasDeleteAppend("[" + full, "]");
    var l := SectionLine(full);
    assert l[0] == '[' && l[1] == 'H';
    assert Header[0] == 'W' && OldHeader[0] == 'R' && "[-"[1] == '-';
    assert l[..2][1] == 'H';
  }

  /** The section line of a key path parses to the hive and the combined path. */
  lemma ParseFullKey(p: Parsed, root: Key, keyPath: string)
    requires KeyOk(root.subkey) && KeyOk(keyPath)
    ensures var subkey := CombineKeyPath(root, keyPath);
            ParseSection(p, FullKey(root, keyPath)) ==
            if !p.haveRoot then Ok(p.(haveRoot := true, root := Key(root.hive, subkey, Native), relative := ""))
            else if root.hive != p.root.hive then Err(MultipleHives)
            else match RelativeOf(p.root.subkey, subkey)
                 case Some(relative) => Ok(p.(relative := relative))
                 case None => Err(OutsideRoot)
  {
    hide HiveName, HiveFromName, RelativeOf;
    HiveNameFacts(root.hive);
    var name, full := HiveName(root.hive), FullKey(root, keyPath);
    assert full[0] == 'H';
    OtherFirstChar(full, "\\\\");
    assert forall k | 0 <= k < |name| :: full[k] == name[k];
    IndexOfIs(full, '\\', |name|);
    assert full[..|name|] == name;
    assert full[|name| + 1..] == CombineKeyPath(root, keyPath);
  }

  /** Hex digits and commas, not ending in a comma. */
  predicate IsHexText(s: string) {
    && (forall i | 0 <= i < |s| :: s[i] == ',' || ParseHexDigit(s[i]).Some?)
    && (s != "" ==> ParseHexDigit(s[|s| - 1]).Some?)
  }

  lemma {:induction false} RegHexIsHexText(bytes: string)
    ensures IsHexText(RegHex(bytes))
  {
    if bytes != "" { RegHexIsHexText(bytes[..|bytes| - 1]); }
  }

  lemma {:induction false} HexDigitsAreHexText(value: nat, n: nat)
    ensures IsHexText(HexDigits(value, n))
  {
    if n != 0 {
      var high, last := HexDigits(value / 16, n - 1), HexDigit(value % 16);
      HexDigitsAreHexText(value / 16, n - 1);
      assert HexDigits(value, n) == high + [last];
    }
  }

  /** A text that can stand after the '=' of a value line. */
  predicate DataShape(d: string) {
    && d != "" && !IsSpace(d[0]) && d[0] != '-'
    && var last := d[|d| - 1];
       !IsSpace(last) && last != '\\' && last != ']' && '\n' !in d && !HasDelete(d)
  }

  lemma HexShape(prefix: string, hex: string)
    requires prefix == "hex:" || prefix == "hex(2):" || prefix == "hex(7):" || prefix == "hex(b):" || prefix == "dword:"
    requires IsHexText(hex)
    ensures DataShape(prefix + hex)
  {
    var d := prefix + hex;
    assert '=' !in d && '\n' !in d by {
      assert forall i | 0 <= i < |d| :: d[i] == if i < |prefix| then prefix[i] else hex[i - |prefix|];
    }
    HasDeleteNeedsEquals(d);
    assert d[0] == prefix[0];
  }

  lemma QuotedShape(inner: string)
    requires '\n' !in inner && !HasDelete(inner)
    ensures DataShape("\"" + inner + "\"") && Quoted("\"" + inner + "\"")
    ensures ("\"" + inner + "\"")[1..|inner| + 1] == inner
  {
    var d := "\"" + inner + "\"";
    HasDeleteAppend("\"", inner);
    HasDeleteAppend("\"" + inner, "\"");
    assert d[0] == '"' && d[|d| - 1] == '"';
  }

  lemma {:induction false} UpToNulKeepsOk(bytes: string)
    requires '\n' !in bytes && !HasDelete(bytes)
    ensures '\n' !in UpToNul(bytes) && !HasDelete(UpToNul(bytes))
    ensures UpToNul(bytes) <= bytes
  {
    if bytes != "" && bytes[0] as int != 0 {
      HasDeleteSlice(bytes, 1, |bytes|);
      assert bytes[1..|bytes|] == bytes[1..];
      UpToNulKeepsOk(bytes[1..]);
      var shown := UpToNul(bytes);
      assert bytes[..|shown|] == shown;
      HasDeleteSlice(bytes, 0, |shown|);
      assert bytes[0..|shown|] == shown;
    }
  }

  lemma DataTextShape(item: Value)
    requires ValueOk(item)
    ensures DataShape(DataText(item))
  {
    hide DataShape, RegHex, UpToNul, Escape, HasDelete, HexDigits;
    match item.kind {
      case String =>
        UpToNulKeepsOk(item.bytes);
        EscapeKeepsOut(UpToNul(item.bytes), '\n');
        EscapeAddsNoDelete(UpToNul(item.bytes));
        QuotedShape(Escape(UpToNul(item.bytes)));
      case Dword =>
        HexDigitsAreHexText(LittleEndian(item.bytes), 8);
        HexShape("dword:", DwordText(item.bytes));
      case _ =>
        RegHexIsHexText(item.bytes);
        HexShape(match item.kind case ExpandableString => "hex(2):" case MultiString => "hex(7):"
                                 case Qword => "hex(b):" case _ => "hex:", RegHex(item.bytes));
    }
  }

  /** The bytes that reach the file: a string value stops at its first NUL. */
  function ShownBytes(item: Value): string {
    if item.kind == String then UpToNul(item.bytes) else item.bytes
  }

  lemma NotQuoted(prefix: string, hex: string)
    requires prefix != "" && prefix[0] != '"'
    ensures !Quoted(prefix + hex) && StartsWith(prefix + hex, prefix) && (prefix + hex)[|prefix|..] == hex
  {
  }

  lemma ParseDataOfDataText(item: Value)
    requires ValueOk(item) && Octets(item.bytes)
    ensures ParseData(DataText(item)) == Ok((item.kind, ShownBytes(item)))
  {
    hide RegHex, UpToNul, Escape, HasDelete, HexDigits, HexToBytes, Unescape, HexNumber, LittleEndian, DwordFromText, DwordText;
    match item.kind {
      case String =>
        UpToNulKeepsOk(item.bytes);
        var inner := Escape(UpToNul(item.bytes));
        EscapeKeepsOut(UpToNul(item.bytes), '\n');
        EscapeAddsNoDelete(UpToNul(item.bytes));
        QuotedShape(inner);
        UnescapeOfEscape(UpToNul(item.bytes));
      case Dword =>
        NotQuoted("dword:", DwordText(item.bytes));
        DwordRoundTrip(item.bytes);
      case ExpandableString => HexDataOfRegHex("hex(2):", item);
      case MultiString => HexDataOfRegHex("hex(7):", item);
      case Qword => HexDataOfRegHex("hex(b):", item);
      case Binary => HexDataOfRegHex("hex:", item);
    }
  }

  lemma HexDataOfRegHex(prefix: string, item: Value)
    requires Octets(item.bytes)
    requires || (item.kind == ExpandableString && prefix == "hex(2):")
             || (item.kind == MultiString && prefix == "hex(7):")
             || (item.kind == Qword && prefix == "hex(b):")
             || (item.kind == Binary && prefix == "hex:")
    ensures ParseData(prefix + RegHex(item.bytes)) == Ok((item.kind, item.bytes))
  {
    hide RegHex, HexToBytes;
    var d := prefix + RegHex(item.bytes);
    NotQuoted(prefix, RegHex(item.bytes));
    HexRoundTrip(item.bytes);
    assert d[0] == 'h';
    OtherFirstChar(d, "dword:");
    if |prefix| == 7 {
      assert d[4] == prefix[4];
      assert |"hex(b):"| == |"hex(2):"| == |"hex(7):"| == 7;
      assert d[..7] == prefix;
    } else {
      assert d[3] == ':';
      assert |d| >= 7 ==> d[..7][3] == ':';
    }
  }

  lemma NameTextFacts(name: string)
    requires '\n' !in name && '=' !in name
    ensures var t := NameText(name);
            t != "" && (t[0] == '"' || t[0] == '@') && t[0] == t[|t| - 1] && '\n' !in t && '=' !in t
    ensures ParseName(NameText(name)) == Ok(name)
  {
    hide Escape, Unescape;
    if name != "" {
      EscapeKeepsOut(name, '\n');
      EscapeKeepsOut(name, '=');
      UnescapeOfEscape(name);
      var t := NameText(name);
      assert t[0] == '"' && t[|t| - 1] == '"' && t[1..|t| - 1] == Escape(name);
      assert |t| >= 2;
    }
  }

  lemma ValueLineShape(item: Value)
    requires ValueOk(item)
    ensures var l := ValueLine(item);
            && l != "" && (l[0] == '"' || l[0] == '@') && l[|l| - 1] != ']' && Plain(l) && '\n' !in l && !HasDelete(l)
  {
    hide NameText, DataText, HasDelete, Escape, RegHex, UpToNul;
    NameTextFacts(item.name);
    DataTextShape(item);
    var name, data, l := NameText(item.name), DataText(item), ValueLine(item);
    assert DataShape(data);
    HasDeleteNeedsEquals(name);
    HasDeleteAppend(name, "=");
    assert !HasDelete("=") by { HasDeleteNeedsEqualsThenDash("="); }
    HasDeleteAppend(name + "=", data);
    assert l[0] == name[0] && l[|l| - 1] == data[|data| - 1];
  }

  lemma SplitPrintedValue(item: Value)
    requires ValueOk(item)
    ensures var name, data, l := NameText(item.name), DataText(item), ValueLine(item);
            && IndexOf(l, '=') == |name| && Trim(l[..|name|]) == name && Trim(l[|name| + 1..]) == data
  {
    hide NameText, DataText, HasDelete, ParseName, Trim, IndexOf;
    NameTextFacts(item.name);
    DataTextShape(item);
    var name, data, l := NameText(item.name), DataText(item), ValueLine(item);
    assert forall k | 0 <= k < |name| :: l[k] == name[k];
    IndexOfIs(l, '=', |name|);
    assert l[..|name|] == name && l[|name| + 1..] == data;
    TrimIdentity(name);
    TrimIdentity(data);
  }

  lemma ValueLineIsRouted(p: Parsed, l: string)
    requires l != "" && (l[0] == '"' || l[0] == '@') && l[|l| - 1] != ']' && !HasDelete(l)
    ensures ParseLine(p, l) == ParseValueLine(p, l)
  {
    hide ParseValueLine, HasDelete;
    assert Header[0] == 'W' && OldHeader[0] == 'R';
    OtherFirstChar(l, "[-");
  }

  /** A printed value line parses to the value, under the key the parser is in. */
  lemma ParsePrintedValue(p: Parsed, item: Value)
    requires p.haveRoot && ValueOk(item) && Octets(item.bytes)
    ensures ParseLine(p, ValueLine(item)) ==
            Ok(p.(values := p.values + [SnapshotValue(p.relative, item.(bytes := ShownBytes(item)))]))
  {
    hide NameText, DataText, HasDelete, ParseName, ParseData, ShownBytes, Octets, Trim, IndexOf, ValueLine, ParseLine;
    ValueLineShape(item);
    ValueLineIsRouted(p, ValueLine(item));
    SplitPrintedValue(item);
    NameTextFacts(item.name);
    ParseDataOfDataText(item);
    assert item.(bytes := ShownBytes(item)) == Value(item.name, item.kind, ShownBytes(item));
  }

  // ----- the whole file

  /** What parsing the printed values yields when the parser's root is `rootSubkey`. */
  function Reparse(root: Key, rootSubkey: string, values: seq<SnapshotValue>): Option<seq<SnapshotValue>>
    decreases |values|
  {
    if values == [] then Some([])
    else match (RelativeOf(rootSubkey, CombineKeyPath(root, values[0].keyPath)), Reparse(root, rootSubkey, values[1..]))
         case (Some(relative), Some(rest)) =>
           Some([SnapshotValue(relative, values[0].item.(bytes := ShownBytes(values[0].item)))] + rest)
         case _ => None
  }

  predicate Printable(root: Key, values: seq<SnapshotValue>) {
    && KeyOk(root.subkey)
    && forall i | 0 <= i < |values| :: RecordOk(values[i]) && Octets(values[i].item.bytes)
  }

  lemma PrintableTail(root: Key, values: seq<SnapshotValue>)
    requires Printable(root, values) && values != []
    ensures Printable(root, values[1..])
    ensures KeyOk(root.subkey) && RecordOk(values[0]) && Octets(values[0].item.bytes)
  {
  }

  predicate FileLine(l: string) {
    Plain(l) && '\n' !in l
  }

  lemma {:induction false} BodyLinesArePlain(root: Key, current: string, values: seq<SnapshotValue>)
    requires Printable(root, values)
    ensures forall l | l in BodyLines(root, current, values) :: FileLine(l)
    decreases |values|
  {
    hide Plain, KeyOk, ValueOk, FullKey, ValueLine, SectionLine, HasDelete, Octets;
    if values != [] {
      PrintableTail(root, values);
      var full := FullKey(root, values[0].keyPath);
      FullKeyOk(root, values[0].keyPath);
      SectionLineFacts(full);
      ValueLineShape(values[0].item);
      assert FileLine(ValueLine(values[0].item)) && FileLine(SectionLine(full));
      assert FileLine("") by { EmptyIsPlain(); }
      BodyLinesArePlain(root, full, values[1..]);
    }
  }

  lemma EmptyIsPlain()
    ensures Plain("")
  {
  }

  /** Parsing a section line and nothing else. */
  lemma ParsePrintedKey(p: Parsed, root: Key, keyPath: string)
    requires KeyOk(root.subkey) && KeyOk(keyPath)
    ensures ParseLine(p, SectionLine(FullKey(root, keyPath))) == ParseSection(p, FullKey(root, keyPath))
    ensures ParseLine(p, "") == Ok(p)
  {
    hide HasDelete, ParseSection;
    FullKeyOk(root, keyPath);
    SectionLineFacts(FullKey(root, keyPath));
  }

  lemma {:induction false} ParseLinesAppend(p: Parsed, a: seq<string>, b: seq<string>)
    ensures ParseLines(p, a + b) == match ParseLines(p, a)
                                    case Ok(mid) => ParseLines(mid, b)
                                    case Err(e) => Err(e)
    decreases |a|
  {
    hide ParseLine;
    if a == [] {
      assert a + b == b;
    } else {
      assert (a + b)[1..] == a[1..] + b;
      if ParseLine(p, a[0]).Ok? {
        ParseLinesAppend(ParseLine(p, a[0]).value, a[1..], b);
      }
    }
  }

  /** The parser is inside the key `current`. */
  ghost predicate InKey(p: Parsed, root: Key, current: string) {
    && p.haveRoot && p.root.hive == root.hive
    && exists keyPath :: current == FullKey(root, keyPath) && RelativeOf(p.root.subkey, CombineKeyPath(root, keyPath)) == Some(p.relative)
  }

  lemma FullKeyInjective(root: Key, a: string, b: string)
    requires FullKey(root, a) == FullKey(root, b)
    ensures CombineKeyPath(root, a) == CombineKeyPath(root, b)
  {
    var n := HiveName(root.hive) + "\\";
    assert FullKey(root, a)[|n|..] == CombineKeyPath(root, a);
    assert FullKey(root, b)[|n|..] == CombineKeyPath(root, b);
  }

  lemma ParseKeyLines(p: Parsed, root: Key, current: string, keyPath: string)
    requires InKey(p, root, current) && KeyOk(root.subkey) && KeyOk(keyPath)
    ensures ParseLines(p, KeyLines(current, FullKey(root, keyPath))) ==
            match RelativeOf(p.root.subkey, CombineKeyPath(root, keyPath))
            case Some(relative) => Ok(p.(relative := relative))
            case None => Err(OutsideRoot)
  {
    hide ParseLine, ParseSection, HasDelete, HiveName, RelativeOf;
    var full := FullKey(root, keyPath);
    var inside :| current == FullKey(root, inside) && RelativeOf(p.root.subkey, CombineKeyPath(root, inside)) == Some(p.relative);
    if full == current {
      FullKeyInjective(root, keyPath, inside);
    } else {
      ParsePrintedKey(p, root, keyPath);
      ParseFullKey(p, root, keyPath);
      var line := SectionLine(full);
      assert ParseLines(p, [line]) == match ParseLine(p, line) case Ok(q) => Ok(q) case Err(e) => Err(e) by {
        if ParseLine(p, line).Ok? { assert ParseLines(ParseLine(p, line).value, []) == ParseLine(p, line); }
      }
      if current != "" {
        assert ["", line][1..] == [line];
      }
    }
  }

  lemma ParseRecord(p: Parsed, root: Key, current: string, v: SnapshotValue)
    requires InKey(p, root, current) && KeyOk(root.subkey) && RecordOk(v) && Octets(v.item.bytes)
    ensures ParseLines(p, KeyLines(current, FullKey(root, v.keyPath)) + [ValueLine(v.item)]) ==
            match RelativeOf(p.root.subkey, CombineKeyPath(root, v.keyPath))
            case Some(relative) =>
              Ok(p.(relative := relative,
                    values := p.values + [SnapshotValue(relative, v.item.(bytes := ShownBytes(v.item)))]))
            case None => Err(OutsideRoot)
  {
    hide ParseLine, ValueLine, KeyLines, HasDelete, RelativeOf, InKey, FullKey;
    ParseKeyLines(p, root, current, v.keyPath);
    ParseLinesAppend(p, KeyLines(current, FullKey(root, v.keyPath)), [ValueLine(v.item)]);
    match RelativeOf(p.root.subkey, CombineKeyPath(root, v.keyPath)) {
      case Some(relative) =>
        var inside := p.(relative := relative);
        assert p.haveRoot by { InKeyHasRoot(p, root, current); }
        ParsePrintedValue(inside, v.item);
        ParseLinesStep(inside, [ValueLine(v.item)]);
      case None =>
    }
  }

  lemma InKeyHasRoot(p: Parsed, root: Key, current: string)
    requires InKey(p, root, current)
    ensures p.haveRoot && p.root.hive == root.hive
  {
  }

  lemma InNextKey(p: Parsed, q: Parsed, root: Key, current: string, keyPath: string)
    requires InKey(p, root, current) && q.haveRoot == p.haveRoot && q.root == p.root
    requires RelativeOf(p.root.subkey, CombineKeyPath(root, keyPath)) == Some(q.relative)
    ensures InKey(q, root, FullKey(root, keyPath))
  {
  }

  lemma {:induction false} ParseBody(p: Parsed, root: Key, current: string, values: seq<SnapshotValue>)
    requires InKey(p, root, current) && Printable(root, values)
    ensures var r := ParseLines(p, BodyLines(root, current, values));
            match Reparse(root, p.root.subkey, values)
            case None => r.Err?
            case Some(parsed) => r.Ok? && r.value.haveRoot && r.value.root == p.root && r.value.values == p.values + parsed
    decreases |values|
  {
    hide ParseLine, ValueLine, KeyLines, HasDelete, RelativeOf, InKey, FullKey, Octets, ShownBytes, CombineKeyPath;
    if values == [] {
      InKeyHasRoot(p, root, current);
      assert p.values + [] == p.values;
    } else {
      var v := values[0];
      var full := FullKey(root, v.keyPath);
      PrintableTail(root, values);
      ParseRecord(p, root, current, v);
      ParseLinesAppend(p, KeyLines(current, full) + [ValueLine(v.item)], BodyLines(root, full, values[1..]));
      match RelativeOf(p.root.subkey, CombineKeyPath(root, v.keyPath)) {
        case Some(relative) =>
          var read := SnapshotValue(relative, v.item.(bytes := ShownBytes(v.item)));
          var next := p.(relative := relative, values := p.values + [read]);
          InNextKey(p, next, root, current, v.keyPath);
          ParseBody(next, root, full, values[1..]);
          if Reparse(root, p.root.subkey, values[1..]).Some? {
            var rest := Reparse(root, p.root.subkey, values[1..]).value;
            assert p.values + [read] + rest == p.values + ([read] + rest);
          }
        case None =>
      }
    }
  }

  /** What parsing a printed snapshot yields, in closed form: the first key
      becomes the root, and every key path is read back relative to it. */
  lemma ParseOfPrinted(s: Snapshot)
    requires Printable(s.root, s.values)
    ensures var r := ParseReg(SerializeReg(s));
            if s.values == [] then r == Err(RootMissing)
            else
              var root := Key(s.root.hive, CombineKeyPath(s.root, s.values[0].keyPath), Native);
              match Reparse(s.root, root.subkey, s.values)
              case Some(values) => r == Ok(Snapshot(root, values))
              case None => r.Err?
  {
    hide BodyLines, ParseLine, FullKey, Reparse, CombineKeyPath, KeyOk, ValueOk;
    PrintedText(s);
    HeaderLines(BodyLines(s.root, "", s.values));
    if s.values != [] {
      var first := s.values[0].keyPath;
      FirstSection(s.root, s.values);
      var full := FullKey(s.root, first);
      PrintableTail(s.root, s.values);
      ParsePrintedKey(NothingParsed, s.root, first);
      ParseFullKey(NothingParsed, s.root, first);
      var p := NothingParsed.(haveRoot := true, root := Key(s.root.hive, CombineKeyPath(s.root, first), Native), relative := "");
      ParseLinesStep(NothingParsed, [SectionLine(full)] + BodyLines(s.root, full, s.values));
      assert ([SectionLine(full)] + BodyLines(s.root, full, s.values))[1..] == BodyLines(s.root, full, s.values);
      assert InKey(p, s.root, full);
      ParseBody(p, s.root, full, s.values);
      if Reparse(s.root, p.root.subkey, s.values).Some? {
        assert [] + Reparse(s.root, p.root.subkey, s.values).value == Reparse(s.root, p.root.subkey, s.values).value;
      }
    } else {
      NoBody(s.root);
    }
  }

  lemma NoBody(root: Key)
    ensures BodyLines(root, "", []) == [] && ParseLines(NothingParsed, []) == Ok(NothingParsed)
  {
  }

  lemma FirstSection(root: Key, values: seq<SnapshotValue>)
    requires values != []
    ensures var full := FullKey(root, values[0].keyPath);
            BodyLines(root, "", values) == [SectionLine(full)] + BodyLines(root, full, values)
  {
    var full, line := FullKey(root, values[0].keyPath), ValueLine(values[0].item);
    assert full != "";
    assert BodyLines(root, full, values) == [] + [line] + BodyLines(root, full, values[1..]);
  }

  lemma HeaderLines(body: seq<string>)
    ensures ParseLines(NothingParsed, [Header, ""] + body) == ParseLines(NothingParsed, body)
  {
    var lines := [Header, ""] + body;
    assert lines[1..] == [""] + body && lines[1..][1..] == body;
    assert ParseLine(NothingParsed, Header) == Ok(NothingParsed);
    ParseLinesStep(NothingParsed, lines);
    ParseLinesStep(NothingParsed, lines[1..]);
  }

  lemma PrintedText(s: Snapshot)
    requires Printable(s.root, s.values)
    ensures ParseReg(SerializeReg(s)) == ParseLogical(SnapshotLines(s))
  {
    hide BodyLines, ParseLines, Plain, KeyOk, ValueOk, Unlines, LogicalLines;
    BodyLinesArePlain(s.root, "", s.values);
    HeaderIsPlain();
    LogicalLinesOfPlain(SnapshotLines(s));
    HeaderText(s);
    assert SerializeReg(s)[0] == 'W';
    assert DecodeRegText(SerializeReg(s)) == Ok(SerializeReg(s));
  }

  lemma HeaderIsPlain()
    ensures FileLine(Header) && FileLine("")
  {
  }

  lemma {:induction false} ReparseIsIdentity(root: Key, values: seq<SnapshotValue>)
    ensures Reparse(root, root.subkey, values) == Some(values) <==>
            forall i | 0 <= i < |values| ::
              && (root.subkey == "" ==> values[i].keyPath == "")
              && (values[i].item.kind == String ==> NulFree(values[i].item.bytes))
    decreases |values|
  {
    if values != [] {
      ReparseIsIdentity(root, values[1..]);
      var v := values[0];
      UpToNulIdentity(v.item.bytes);
      RelativeOfCombined(root, v.keyPath);
      assert values == [v] + values[1..];
      match (RelativeOf(root.subkey, CombineKeyPath(root, v.keyPath)), Reparse(root, root.subkey, values[1..])) {
        case (Some(relative), Some(rest)) =>
          var read := SnapshotValue(relative, v.item.(bytes := ShownBytes(v.item)));
          assert Reparse(root, root.subkey, values) == Some([read] + rest);
          assert ([read] + rest)[0] == read && ([read] + rest)[1..] == rest;
        case _ =>
      }
    }
  }

  lemma RelativeOfCombined(root: Key, keyPath: string)
    ensures RelativeOf(root.subkey, CombineKeyPath(root, keyPath)) == Some(keyPath) <==>
            (root.subkey == "" ==> keyPath == "")
  {
    var combined := CombineKeyPath(root, keyPath);
    if keyPath != "" && root.subkey != "" {
      assert combined[..|root.subkey| + 1] == root.subkey + "\\";
      assert combined[|root.subkey| + 1..] == keyPath;
      assert |combined| > |root.subkey|;
    } else if keyPath != "" && RelativeOf(root.subkey, combined).Some? {
      assert |RelativeOf(root.subkey, combined).value| < |keyPath|;
    }
  }

  /** The .reg round trip, with its exact domain. */
  lemma RoundTrip(s: Snapshot)
    requires forall i | 0 <= i < |s.values| :: Octets(s.values[i].item.bytes)
    ensures ParseReg(SerializeReg(s)) == Ok(s) <==> InDomain(s)
  {
    hide ParseReg, SerializeReg, KeyOk, ValueOk, Octets, Reparse, NulFree;
    if ParseReg(SerializeReg(s)) == Ok(s) {
      ParsedIsReachable(SerializeReg(s));
    }
    if Printable(s.root, s.values) && s.root.view == Native && s.values != [] {
      ParseOfPrinted(s);
      ReparseIsIdentity(s.root, s.values);
      CombinedIsRoot(s.root, s.values[0].keyPath);
    } else if Printable(s.root, s.values) {
      ParseOfPrinted(s);
    }
  }

  lemma CombinedIsRoot(root: Key, keyPath: string)
    ensures CombineKeyPath(root, keyPath) == root.subkey <==> keyPath == ""
  {
  }
}
