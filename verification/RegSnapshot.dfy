/** Registry snapshots and their .reg form: the serializer and the parser. */
module RegSnapshot {
  import opened Prelude
  import opened Text
  import opened RegText
  import opened RegLines

  datatype Hive = CurrentUser | LocalMachine | ClassesRoot | Users | CurrentConfig
  datatype View = Native | Registry32 | Registry64
  datatype ValueType = Untyped | String | ExpandableString | MultiString | Dword | Qword | Binary | Unknown
  datatype Key = Key(hive: Hive, subkey: string, view: View)
  datatype Value = Value(name: string, kind: ValueType, bytes: string)
  datatype SnapshotValue = SnapshotValue(keyPath: string, item: Value)
  datatype Snapshot = Snapshot(root: Key, values: seq<SnapshotValue>)

  function HiveName(hive: Hive): string {
    match hive
    case CurrentUser => "HKEY_CURRENT_USER"
    case LocalMachine => "HKEY_LOCAL_MACHINE"
    case ClassesRoot => "HKEY_CLASSES_ROOT"
    case Users => "HKEY_USERS"
    case CurrentConfig => "HKEY_CURRENT_CONFIG"
  }

  function HiveFromName(name: string): Option<Hive> {
    if name == "HKEY_CURRENT_USER" || name == "HKCU" then Some(CurrentUser)
    else if name == "HKEY_LOCAL_MACHINE" || name == "HKLM" then Some(LocalMachine)
    else if name == "HKEY_CLASSES_ROOT" || name == "HKCR" then Some(ClassesRoot)
    else if name == "HKEY_USERS" || name == "HKU" then Some(Users)
    else if name == "HKEY_CURRENT_CONFIG" || name == "HKCC" then Some(CurrentConfig)
    else None
  }

  function CombineKeyPath(root: Key, relative: string): string {
    if relative == "" then root.subkey
    else if root.subkey == "" then relative
    else root.subkey + "\\" + relative
  }

  const Header := "Windows Registry Editor Version 5.00"
  const OldHeader := "REGEDIT4"

  // ----- serializer

  function FullKey(root: Key, keyPath: string): string {
    HiveName(root.hive) + "\\" + CombineKeyPath(root, keyPath)
  }

  function NameText(name: string): string {
    if name == "" then "@" else "\"" + Escape(name) + "\""
  }

  function DataText(item: Value): string {
    match item.kind
    case String => "\"" + Escape(UpToNul(item.bytes)) + "\""
    case ExpandableString => "hex(2):" + RegHex(item.bytes)
    case MultiString => "hex(7):" + RegHex(item.bytes)
    case Dword => "dword:" + DwordText(item.bytes)
    case Qword => "hex(b):" + RegHex(item.bytes)
    case _ => "hex:" + RegHex(item.bytes)
  }

  function ValueLine(item: Value): string {
    NameText(item.name) + "=" + DataText(item)
  }

  function SectionLine(fullKey: string): string {
    "[" + fullKey + "]"
  }

  /** The lines printed before a value: a section line where the key changes,
      with an empty line before every section but the first. */
  function KeyLines(current: string, full: string): seq<string> {
    if full == current then []
    else if current == "" then [SectionLine(full)]
    else ["", SectionLine(full)]
  }

  function BodyLines(root: Key, current: string, values: seq<SnapshotValue>): seq<string>
    decreases |values|
  {
    if values == [] then []
    else
      var full := FullKey(root, values[0].keyPath);
      KeyLines(current, full) + [ValueLine(values[0].item)] + BodyLines(root, full, values[1..])
  }

  function SnapshotLines(s: Snapshot): seq<string> {
    [Header, ""] + BodyLines(s.root, "", s.values)
  }

  function SerializeReg(s: Snapshot): string {
    Unlines(SnapshotLines(s))
  }

  method SerializeValue(item: Value) returns (output: string)
    requires Octets(item.bytes)
    ensures output == ValueLine(item)
  {
    hide Escape, RegHex, UpToNul, DwordText;
    if item.name == "" {
      output := "@=";
    } else {
      var name := RegEscape(item.name);
      output := "\"" + name + "\"=";
    }
    assert output == NameText(item.name) + "=";
    var data: string;
    match item.kind {
      case String =>
        var shown := BytesToLossyString(item.bytes);
        shown := RegEscape(shown);
        data := "\"" + shown + "\"";
      case ExpandableString =>
        var hex := BytesToRegHex(item.bytes);
        data := "hex(2):" + hex;
      case MultiString =>
        var hex := BytesToRegHex(item.bytes);
        data := "hex(7):" + hex;
      case Dword =>
        var text := DwordBytesToRegText(item.bytes);
        data := "dword:" + text;
      case Qword =>
        var hex := BytesToRegHex(item.bytes);
        data := "hex(b):" + hex;
      case _ =>
        var hex := BytesToRegHex(item.bytes);
        data := "hex:" + hex;
    }
    output := output + data;
  }

  method SerializeSnapshotReg(s: Snapshot) returns (output: string)
    requires forall v | v in s.values :: Octets(v.item.bytes)
    ensures output == SerializeReg(s)
  {
    hide FullKey, ValueLine, Octets, BodyLines, Unlines;
    output := Header + "\n\n";
    var currentKey := "";
    HeaderText(s);
    for i := 0 to |s.values|
      invariant output + Unlines(BodyLines(s.root, currentKey, s.values[i..])) == SerializeReg(s)
    {
      assert s.values[i..][1..] == s.values[i + 1..] && s.values[i] in s.values;
      BodyText(s.root, currentKey, s.values[i..]);
      ghost var rest := BodyLines(s.root, FullKey(s.root, s.values[i].keyPath), s.values[i + 1..]);
      var fullKey := FullKey(s.root, s.values[i].keyPath);
      var keyText := "";
      if fullKey != currentKey {
        if currentKey != "" {
          keyText := "\n";
        }
        keyText := keyText + "[" + fullKey + "]\n";
      }
      assert keyText == KeyText(currentKey, fullKey);
      currentKey := fullKey;
      var line := SerializeValue(s.values[i].item);
      Regroup(output, keyText, line, Unlines(rest));
      output := output + keyText + line + "\n";
    }
    BodyText(s.root, currentKey, s.values[|s.values|..]);
  }

  lemma Regroup(output: string, keyText: string, line: string, rest: string)
    ensures output + (keyText + line + "\n" + rest) == output + keyText + line + "\n" + rest
  {
  }

  lemma HeaderText(s: Snapshot)
    ensures SerializeReg(s) == Header + "\n\n" + Unlines(BodyLines(s.root, "", s.values))
  {
    hide BodyLines;
    UnlinesAppend([Header, ""], BodyLines(s.root, "", s.values));
    assert [Header, ""][1..] == [""] && [""][1..] == [];
    assert Unlines([""]) == "" + "\n" + "" == "\n";
    assert Unlines([Header, ""]) == Header + "\n" + "\n";
    assert Header + "\n" + "\n" == Header + "\n\n";
  }

  /** What is printed before the value line. */
  function KeyText(current: string, full: string): string {
    if full == current then "" else (if current != "" then "\n" else "") + "[" + full + "]\n"
  }

  lemma BodyText(root: Key, current: string, values: seq<SnapshotValue>)
    ensures Unlines(BodyLines(root, current, values)) ==
            if values == [] then "" else
              var full := FullKey(root, values[0].keyPath);
              KeyText(current, full) + ValueLine(values[0].item) + "\n" + Unlines(BodyLines(root, full, values[1..]))
  {
    hide FullKey, ValueLine, KeyLines, KeyText;
    if values != [] {
      var full, line := FullKey(root, values[0].keyPath), ValueLine(values[0].item);
      var rest := BodyLines(root, full, values[1..]);
      UnlinesAppend(KeyLines(current, full) + [line], rest);
      UnlinesAppend(KeyLines(current, full), [line]);
      KeyLinesText(current, full);
      assert Unlines([line]) == line + "\n" + "";
    }
  }

  lemma KeyLinesText(current: string, full: string)
    ensures Unlines(KeyLines(current, full)) == KeyText(current, full)
  {
    if full != current {
      assert Unlines([SectionLine(full)]) == SectionLine(full) + "\n" + "";
      if current != "" {
        assert ["", SectionLine(full)][1..] == [SectionLine(full)];
      }
    }
  }

  // ----- parser

  datatype Parsed = Parsed(haveRoot: bool, root: Key, relative: string, values: seq<SnapshotValue>)

  const NothingParsed := Parsed(false, Key(CurrentUser, "", Native), "", [])

  /** A key path relative to the snapshot root, when it lies under that root. */
  function RelativeOf(rootSubkey: string, subkey: string): Option<string> {
    if subkey == rootSubkey then Some("")
    else if StartsWith(subkey, rootSubkey + "\\") then Some(subkey[|rootSubkey| + 1..])
    else None
  }

  function ParseSection(p: Parsed, fullKey: string): Result<Parsed, RegError> {
    if fullKey == "" || StartsWith(fullKey, "\\\\") then Err(KeyInvalid)
    else
      var slash := IndexOf(fullKey, '\\');
      match HiveFromName(if slash < 0 then fullKey else fullKey[..slash])
      case None => Err(HiveInvalid)
      case Some(hive) =>
        var subkey := if slash < 0 then "" else fullKey[slash + 1..];
        if !p.haveRoot then Ok(p.(haveRoot := true, root := Key(hive, subkey, Native), relative := ""))
        else if hive != p.root.hive then Err(MultipleHives)
        else match RelativeOf(p.root.subkey, subkey)
             case Some(relative) => Ok(p.(relative := relative))
             case None => Err(OutsideRoot)
  }

  predicate Quoted(s: string) {
    |s| >= 2 && s[0] == '"' && s[|s| - 1] == '"'
  }

  function ParseName(text: string): Result<string, RegError> {
    if text == "@" then Ok("")
    else if Quoted(text) then
      match Unescape(text[1..|text| - 1])
      case Some(name) => Ok(name)
      case None => Err(EscapeInvalid)
    else Err(ValueNameInvalid)
  }

  function HexData(kind: ValueType, text: string): Result<(ValueType, string), RegError> {
    match HexToBytes(text)
    case Some(bytes) => Ok((kind, bytes))
    case None => Err(ValueDataInvalid)
  }

  function ParseData(text: string): Result<(ValueType, string), RegError> {
    if Quoted(text) then
      match Unescape(text[1..|text| - 1])
      case Some(bytes) => Ok((String, bytes))
      case None => Err(EscapeInvalid)
    else if StartsWith(text, "dword:") then
      match DwordFromText(text[6..])
      case Some(bytes) => Ok((Dword, bytes))
      case None => Err(ValueDataInvalid)
    else if StartsWith(text, "hex(b):") then HexData(Qword, text[7..])
    else if StartsWith(text, "hex(2):") then HexData(ExpandableString, text[7..])
    else if StartsWith(text, "hex(7):") then HexData(MultiString, text[7..])
    else if StartsWith(text, "hex:") then HexData(Binary, text[4..])
    else Err(ValueDataInvalid)
  }

  function ParseValueLine(p: Parsed, line: string): Result<Parsed, RegError> {
    var equals := IndexOf(line, '=');
    if equals < 0 || !p.haveRoot then Err(ValueInvalid)
    else match ParseName(Trim(line[..equals]))
         case Err(e) => Err(e)
         case Ok(name) =>
           match ParseData(Trim(line[equals + 1..]))
           case Err(e) => Err(e)
           case Ok((kind, bytes)) =>
             Ok(p.(values := p.values + [SnapshotValue(p.relative, Value(name, kind, bytes))]))
  }

  /** Whether the line holds "=-", which the parser takes for a delete directive. */
  predicate HasDelete(s: string) {
    exists i | 0 <= i < |s| - 1 :: s[i] == '=' && s[i + 1] == '-'
  }

  predicate IsSkipped(line: string) {
    line == "" || line[0] == ';' || line == Header || line == OldHeader
  }

  function ParseLine(p: Parsed, line: string): Result<Parsed, RegError> {
    if IsSkipped(line) then Ok(p)
    else if StartsWith(line, "[-") || HasDelete(line) then Err(UnsupportedForm)
    else if line[0] == '[' && line[|line| - 1] == ']' then ParseSection(p, line[1..|line| - 1])
    else if line[0] == '[' || line[|line| - 1] == ']' then Err(KeyInvalid)
    else ParseValueLine(p, line)
  }

  function ParseLines(p: Parsed, lines: seq<string>): Result<Parsed, RegError>
    decreases |lines|
  {
    if lines == [] then Ok(p)
    else match ParseLine(p, lines[0])
         case Ok(next) => ParseLines(next, lines[1..])
         case Err(e) => Err(e)
  }

  function ParseLogical(lines: seq<string>): Result<Snapshot, RegError> {
    match ParseLines(NothingParsed, lines)
    case Ok(p) => if p.haveRoot then Ok(Snapshot(p.root, p.values)) else Err(RootMissing)
    case Err(e) => Err(e)
  }

  function ParseReg(content: string): Result<Snapshot, RegError> {
    match DecodeRegText(content)
    case Err(e) => Err(e)
    case Ok(text) =>
      match LogicalLines(text)
      case Err(e) => Err(e)
      case Ok(lines) => ParseLogical(lines)
  }

  method ParseNameText(text: string) returns (r: Result<string, RegError>)
    ensures r == ParseName(text)
  {
    if text == "@" {
      return Ok("");
    }
    if |text| >= 2 && text[0] == '"' && text[|text| - 1] == '"' {
      var name := RegUnescape(text[1..|text| - 1]);
      if name.None? {
        return Err(EscapeInvalid);
      }
      return Ok(name.value);
    }
    return Err(ValueNameInvalid);
  }

  method ParseDataText(text: string) returns (r: Result<(ValueType, string), RegError>)
    ensures r == ParseData(text)
  {
    hide HexToBytes, DwordFromText, Unescape;
    var bytes: Option<string>;
    var kind: ValueType;
    if |text| >= 2 && text[0] == '"' && text[|text| - 1] == '"' {
      bytes := RegUnescape(text[1..|text| - 1]);
      if bytes.None? {
        return Err(EscapeInvalid);
      }
      return Ok((String, bytes.value));
    } else if StartsWith(text, "dword:") {
      kind := Dword;
      bytes := DwordRegTextToBytes(text[6..]);
    } else if StartsWith(text, "hex(b):") {
      kind := Qword;
      bytes := ParseHexBytes(text[7..]);
    } else if StartsWith(text, "hex(2):") {
      kind := ExpandableString;
      bytes := ParseHexBytes(text[7..]);
    } else if StartsWith(text, "hex(7):") {
      kind := MultiString;
      bytes := ParseHexBytes(text[7..]);
    } else if StartsWith(text, "hex:") {
      kind := Binary;
      bytes := ParseHexBytes(text[4..]);
    } else {
      return Err(ValueDataInvalid);
    }
    if bytes.None? {
      return Err(ValueDataInvalid);
    }
    return Ok((kind, bytes.value));
  }

  lemma ParseLinesStep(p: Parsed, lines: seq<string>)
    ensures ParseLines(p, lines) == if lines == [] then Ok(p) else
                                      match ParseLine(p, lines[0])
                                      case Ok(next) => ParseLines(next, lines[1..])
                                      case Err(e) => Err(e)
  {
  }

  /** One value line, up to the record it appends. */
  method ParseValue(line: string, haveRoot: bool, relative: string) returns (r: Result<SnapshotValue, RegError>)
    ensures forall p: Parsed | p.haveRoot == haveRoot && p.relative == relative ::
              ParseValueLine(p, line) == match r
                                         case Ok(v) => Ok(p.(values := p.values + [v]))
                                         case Err(e) => Err(e)
  {
    hide ParseName, ParseData, Trim;
    var equals := IndexOf(line, '=');
    if equals < 0 || !haveRoot {
      return Err(ValueInvalid);
    }
    var name := ParseNameText(Trim(line[..equals]));
    if name.Err? {
      return Err(name.error);
    }
    var data := ParseDataText(Trim(line[equals + 1..]));
    if data.Err? {
      return Err(data.error);
    }
    return Ok(SnapshotValue(relative, Value(name.value, data.value.0, data.value.1)));
  }

  /** One section line: the root it leaves, and the key path relative to it. */
  method EnterSection(fullKey: string, haveRoot: bool, root: Key) returns (r: Result<(Key, string), RegError>)
    ensures forall p: Parsed | p.haveRoot == haveRoot && p.root == root ::
              ParseSection(p, fullKey) == match r
                                          case Ok((newRoot, relative)) => Ok(Parsed(true, newRoot, relative, p.values))
                                          case Err(e) => Err(e)
  {
    hide HiveFromName, StartsWith;
    if fullKey == "" || StartsWith(fullKey, "\\\\") {
      return Err(KeyInvalid);
    }
    var slash := IndexOf(fullKey, '\\');
    var hive := HiveFromName(if slash < 0 then fullKey else fullKey[..slash]);
    if hive.None? {
      return Err(HiveInvalid);
    }
    var subkey := if slash < 0 then "" else fullKey[slash + 1..];
    if !haveRoot {
      return Ok((Key(hive.value, subkey, Native), ""));
    } else if hive.value != root.hive {
      return Err(MultipleHives);
    } else if subkey == root.subkey {
      return Ok((root, ""));
    } else if StartsWith(subkey, root.subkey + "\\") {
      PrefixLength(subkey, root.subkey + "\\");
      return Ok((root, subkey[|root.subkey| + 1..]));
    } else {
      return Err(OutsideRoot);
    }
  }

  method ParseSnapshotReg(content: string) returns (r: Result<Snapshot, RegError>)
    ensures r == ParseReg(content)
  {
    hide ParseLines, ParseValueLine, ParseSection, HasDelete, DecodeRegText, LogicalLines, StartsWith;
    var root, haveRoot, relative := Key(CurrentUser, "", Native), false, "";
    var values: seq<SnapshotValue> := [];
    var decoded := DecodeText(content);
    if decoded.Err? {
      return Err(decoded.error);
    }
    var logical := RegLogicalLines(decoded.value);
    if logical.Err? {
      return Err(logical.error);
    }
    var lines := logical.value;
    for i := 0 to |lines|
      invariant ParseLines(NothingParsed, lines) == ParseLines(Parsed(haveRoot, root, relative, values), lines[i..])
    {
      ghost var p := Parsed(haveRoot, root, relative, values);
      ParseLinesStep(p, lines[i..]);
      assert lines[i..][1..] == lines[i + 1..];
      var line := lines[i];
      if line == "" || line[0] == ';' {
        continue;
      }
      if line == Header || line == OldHeader {
        continue;
      }
      if StartsWith(line, "[-") || HasDelete(line) {
        return Err(UnsupportedForm);
      }
      if line[0] == '[' || line[|line| - 1] == ']' {
        if line[0] != '[' || line[|line| - 1] != ']' {
          return Err(KeyInvalid);
        }
      }
      if line[0] == '[' && line[|line| - 1] == ']' {
        var entered := EnterSection(line[1..|line| - 1], haveRoot, root);
        if entered.Err? {
          return Err(entered.error);
        }
        haveRoot, root, relative := true, entered.value.0, entered.value.1;
        continue;
      }
      var value := ParseValue(line, haveRoot, relative);
      if value.Err? {
        return Err(value.error);
      }
      values := values + [value.value];
    }
    ParseLinesStep(Parsed(haveRoot, root, relative, values), lines[|lines|..]);
    if !haveRoot {
      return Err(RootMissing);
    }
    return Ok(Snapshot(root, values));
  }

  lemma PrefixLength(s: string, prefix: string)
    requires StartsWith(s, prefix)
    ensures |prefix| <= |s|
  {
  }
}
