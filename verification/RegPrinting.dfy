/** What a printed .reg file looks like, line by line, without the functions that print it. */
module RegPrinting {
  import opened Prelude
  import opened Text
  import opened RegText
  import opened RegSnapshot
  import opened RegRoundTrip

  /** The names of a hive; the longer one is printed, both are read. */
  predicate NamesHive(name: string, hive: Hive) {
    match hive
    case CurrentUser => name == "HKEY_CURRENT_USER" || name == "HKCU"
    case LocalMachine => name == "HKEY_LOCAL_MACHINE" || name == "HKLM"
    case ClassesRoot => name == "HKEY_CLASSES_ROOT" || name == "HKCR"
    case Users => name == "HKEY_USERS" || name == "HKU"
    case CurrentConfig => name == "HKEY_CURRENT_CONFIG" || name == "HKCC"
  }

  predicate PrintsSection(line: string, root: Key, keyPath: string) {
    exists name | name in AllNames() ::
      && NamesHive(name, root.hive) && |name| > 4
      && line == "[" + name + "\\" + root.subkey + (if root.subkey != "" && keyPath != "" then "\\" else "") + keyPath + "]"
  }

  function AllNames(): seq<string> {
    ["HKEY_CURRENT_USER", "HKEY_LOCAL_MACHINE", "HKEY_CLASSES_ROOT", "HKEY_USERS", "HKEY_CURRENT_CONFIG"]
  }

  predicate PrintsData(text: string, item: Value) {
    match item.kind
    case String => text == "\"" + Escape(UpToNul(item.bytes)) + "\""
    case Dword => StartsWith(text, "dword:") && PrintsDword(text[6..], item.bytes, 4)
    case ExpandableString => StartsWith(text, "hex(2):") && PrintsBytes(text[7..], item.bytes)
    case MultiString => StartsWith(text, "hex(7):") && PrintsBytes(text[7..], item.bytes)
    case Qword => StartsWith(text, "hex(b):") && PrintsBytes(text[7..], item.bytes)
    case Untyped => StartsWith(text, "hex:") && PrintsBytes(text[4..], item.bytes)
    case Binary => StartsWith(text, "hex:") && PrintsBytes(text[4..], item.bytes)
    case Unknown => StartsWith(text, "hex:") && PrintsBytes(text[4..], item.bytes)
  }

  predicate PrintsValue(line: string, item: Value) {
    var name := if item.name == "" then "@=" else "\"" + Escape(item.name) + "\"=";
    StartsWith(line, name) && PrintsData(line[|name|..], item)
  }

  lemma ValueIsPrinted(item: Value)
    requires Octets(item.bytes)
    ensures PrintsValue(ValueLine(item), item)
  {
    hide PrintsBytes, PrintsDword, RegHex, DwordText, Escape, UpToNul, PrintsData;
    var name := if item.name == "" then "@=" else "\"" + Escape(item.name) + "\"=";
    assert ValueLine(item) == name + DataText(item);
    assert (name + DataText(item))[|name|..] == DataText(item);
    DataIsPrinted(item);
  }

  lemma DataIsPrinted(item: Value)
    requires Octets(item.bytes)
    ensures PrintsData(DataText(item), item)
  {
    hide PrintsBytes, PrintsDword, RegHex, DwordText, Escape, UpToNul;
    RegHexIs(item.bytes);
    DwordTextIs(item.bytes);
    var hex := RegHex(item.bytes);
    match item.kind
    case String =>
    case Dword => Behind("dword:", DwordText(item.bytes));
    case ExpandableString => Behind("hex(2):", hex);
    case MultiString => Behind("hex(7):", hex);
    case Qword => Behind("hex(b):", hex);
    case _ => Behind("hex:", hex);
  }

  lemma Behind(prefix: string, text: string)
    ensures StartsWith(prefix + text, prefix) && (prefix + text)[|prefix|..] == text
  {
  }

  lemma SectionIsPrinted(root: Key, keyPath: string)
    ensures PrintsSection(SectionLine(FullKey(root, keyPath)), root, keyPath)
  {
    var n := HiveName(root.hive);
    var i := match root.hive case CurrentUser => 0 case LocalMachine => 1 case ClassesRoot => 2 case Users => 3 case CurrentConfig => 4;
    assert AllNames()[i] == n;
    var path := root.subkey + (if root.subkey != "" && keyPath != "" then "\\" else "") + keyPath;
    assert CombineKeyPath(root, keyPath) == path;
    Grouped(n, root.subkey, if root.subkey != "" && keyPath != "" then "\\" else "", keyPath);
  }

  lemma Grouped(name: string, a: string, b: string, c: string)
    ensures "[" + (name + "\\" + (a + b + c)) + "]" == "[" + name + "\\" + a + b + c + "]"
  {
  }

  /** Where the values stand among the lines: value i on line at[i], right behind the
      previous one if the key is the same, else behind its section line, which an empty
      line separates from what stands before. `before` is the key of the lines before. */
  predicate Laid(lines: seq<string>, root: Key, before: Option<string>, values: seq<SnapshotValue>, at: seq<nat>) {
    && |at| == |values| && |lines| == (if at == [] then 0 else at[|at| - 1] + 1)
    && forall i | 0 <= i < |at| :: LaidOne(lines, root, if i == 0 then before else Some(values[i - 1].keyPath), values[i],
                                           if i == 0 then 0 else at[i - 1] + 1, at[i])
  }

  predicate LaidOne(lines: seq<string>, root: Key, before: Option<string>, v: SnapshotValue, start: nat, at: nat) {
    && at < |lines| && PrintsValue(lines[at], v.item)
    && match before
       case None => at == start + 1 && PrintsSection(lines[start], root, v.keyPath)
       case Some(key) =>
         if key == v.keyPath then at == start
         else at == start + 2 && lines[start] == "" && PrintsSection(lines[start + 1], root, v.keyPath)
  }

  function Current(root: Key, before: Option<string>): string {
    match before
    case None => ""
    case Some(key) => FullKey(root, key)
  }

  lemma SameKey(root: Key, a: string, b: string)
    ensures FullKey(root, a) == FullKey(root, b) <==> a == b
    ensures FullKey(root, a) != ""
  {
    if FullKey(root, a) == FullKey(root, b) {
      FullKeyInjective(root, a, b);
      var n := root.subkey + "\\";
      if root.subkey != "" && a != "" && b != "" { assert (n + a)[|n|..] == a && (n + b)[|n|..] == b; }
    }
  }

  lemma LaidShifts(lines: seq<string>, head: seq<string>, root: Key, before: Option<string>, v: SnapshotValue, start: nat, at: nat)
    requires LaidOne(lines, root, before, v, start, at)
    ensures LaidOne(head + lines, root, before, v, |head| + start, |head| + at)
  {
    hide PrintsValue, PrintsSection;
    var all := head + lines;
    assert forall k | 0 <= k < |lines| :: all[|head| + k] == lines[k];
  }

  lemma FirstIsLaid(root: Key, before: Option<string>, v: SnapshotValue, rest: seq<string>) returns (at: nat)
    requires Octets(v.item.bytes)
    ensures var head := KeyLines(Current(root, before), FullKey(root, v.keyPath)) + [ValueLine(v.item)];
            |head| == at + 1 && LaidOne(head + rest, root, before, v, 0, at)
  {
    hide PrintsValue, PrintsSection, FullKey, ValueLine, SectionLine;
    ValueIsPrinted(v.item);
    SectionIsPrinted(root, v.keyPath);
    SameKey(root, v.keyPath, v.keyPath);
    if before.Some? { SameKey(root, before.value, v.keyPath); }
    at := |KeyLines(Current(root, before), FullKey(root, v.keyPath))|;
  }

  lemma {:induction false} BodyIsLaid(root: Key, before: Option<string>, values: seq<SnapshotValue>) returns (at: seq<nat>)
    requires forall v | v in values :: Octets(v.item.bytes)
    ensures Laid(BodyLines(root, Current(root, before), values), root, before, values, at)
    decreases |values|
  {
    hide LaidOne, KeyLines, FullKey, ValueLine, Octets;
    if values == [] {
      at := [];
    } else {
      var v := values[0];
      var next := BodyIsLaid(root, Some(v.keyPath), values[1..]);
      var rest := BodyLines(root, FullKey(root, v.keyPath), values[1..]);
      var first := FirstIsLaid(root, before, v, rest);
      var head := KeyLines(Current(root, before), FullKey(root, v.keyPath)) + [ValueLine(v.item)];
      at := [first] + seq(|next|, i requires 0 <= i < |next| => |head| + next[i]);
      var lines := head + rest;
      assert lines == BodyLines(root, Current(root, before), values);
      forall i | 1 <= i < |at|
        ensures LaidOne(lines, root, Some(values[i - 1].keyPath), values[i], at[i - 1] + 1, at[i])
      {
        var start := if i == 1 then 0 else next[i - 2] + 1;
        assert values[1..][i - 1] == values[i] && (i > 1 ==> values[1..][i - 2] == values[i - 1]);
        LaidShifts(rest, head, root, Some(values[i - 1].keyPath), values[i], start, next[i - 1]);
      }
    }
  }

  /** A printed file: the header, an empty line, and the values laid out. */
  lemma PrintedLayout(s: Snapshot) returns (body: seq<string>, at: seq<nat>)
    requires forall v | v in s.values :: Octets(v.item.bytes)
    ensures SerializeReg(s) == "Windows Registry Editor Version 5.00\n\n" + Unlines(body)
    ensures Laid(body, s.root, None, s.values, at)
  {
    hide BodyLines, LaidOne, Octets;
    body := BodyLines(s.root, "", s.values);
    at := BodyIsLaid(s.root, None, s.values);
    HeaderText(s);
    assert Header + "\n\n" == "Windows Registry Editor Version 5.00\n\n";
  }
}
