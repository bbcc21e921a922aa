/** The value-level codecs of the .reg format: escapes, hex data, dwords.
    A char stands for one octet; Octets says that all of them are below 256. */
module RegText {
  import opened Prelude
  import opened Text

  predicate Octets(s: string) {
    forall i | 0 <= i < |s| :: s[i] as int < 256
  }

  predicate NulFree(s: string) {
    forall i | 0 <= i < |s| :: s[i] as int != 0
  }

  // ----- escapes

  predicate NeedsEscape(c: char) {
    c == '\\' || c == '"'
  }

  function Escape(s: string): string {
    if s == "" then "" else (if NeedsEscape(s[0]) then ['\\', s[0]] else [s[0]]) + Escape(s[1..])
  }

  function Prepend(s: string, r: Option<string>): Option<string> {
    match r
    case Some(t) => Some(s + t)
    case None => None
  }

  lemma PrependJoins(a: string, b: string, r: Option<string>)
    ensures Prepend(a, Prepend(b, r)) == Prepend(a + b, r)
    ensures Prepend("", r) == r
  {
    if r.Some? {
      assert a + (b + r.value) == a + b + r.value;
      assert "" + r.value == r.value;
    }
  }

  function Unescape(s: string): Option<string> {
    if s == "" then Some("")
    else if s[0] != '\\' then Prepend([s[0]], Unescape(s[1..]))
    else if |s| >= 2 && NeedsEscape(s[1]) then Prepend([s[1]], Unescape(s[2..]))
    else None
  }

  method RegEscape(value: string) returns (output: string)
    ensures output == Escape(value)
  {
    output := "";
    for i := 0 to |value|
      invariant output + Escape(value[i..]) == Escape(value)
    {
      assert value[i..][1..] == value[i + 1..];
      var piece := [value[i]];
      if NeedsEscape(value[i]) {
        piece := ['\\', value[i]];
      }
      Associative(output, piece, Escape(value[i + 1..]));
      output := output + piece;
    }
  }

  lemma UnescapeStep(s: string)
    requires s != ""
    ensures s[0] != '\\' ==> Unescape(s) == Prepend([s[0]], Unescape(s[1..]))
    ensures s[0] == '\\' && |s| >= 2 && NeedsEscape(s[1]) ==> Unescape(s) == Prepend([s[1]], Unescape(s[2..]))
    ensures s[0] == '\\' && (|s| == 1 || !NeedsEscape(s[1])) ==> Unescape(s) == None
  {
  }

  method RegUnescape(value: string) returns (r: Option<string>)
    ensures r == Unescape(value)
  {
    hide Unescape, NeedsEscape;
    var output := "";
    var escaped := false;
    assert value[0..] == value;
    PrependJoins("", "", Unescape(value));
    for i := 0 to |value|
      invariant escaped ==> i > 0 && value[i - 1] == '\\'
      invariant Unescape(value) == Prepend(output, Unescape(value[if escaped then i - 1 else i..]))
    {
      var c := value[i];
      ghost var rest := value[if escaped then i - 1 else i..];
      UnescapeStep(rest);
      if escaped {
        assert rest[0] == '\\' && rest[1] == c && rest[2..] == value[i + 1..];
        if !NeedsEscape(c) {
          return None;
        }
        PrependJoins(output, [c], Unescape(value[i + 1..]));
        output := output + [c];
        escaped := false;
      } else if c == '\\' {
        escaped := true;
      } else {
        assert rest[0] == c && rest[1..] == value[i + 1..];
        PrependJoins(output, [c], Unescape(rest[1..]));
        output := output + [c];
      }
    }
    if escaped {
      assert value[|value| - 1..] == ['\\'];
      UnescapeStep(['\\']);
      return None;
    }
    assert value[|value|..] == "" && output + "" == output;
    NothingUnescaped();
    return Some(output);
  }

  lemma NothingUnescaped()
    ensures Unescape("") == Some("")
  {
  }

  lemma {:induction false} UnescapeOfEscape(s: string)
    ensures Unescape(Escape(s)) == Some(s)
  {
    if s != "" {
      UnescapeOfEscape(s[1..]);
      var e := Escape(s);
      if NeedsEscape(s[0]) {
        assert e[2..] == Escape(s[1..]);
      } else {
        assert e[0] == s[0] && e[1..] == Escape(s[1..]);
      }
      assert s == [s[0]] + s[1..];
    }
  }

  // ----- what the escapes are, without the functions above

  /** How one character of a quoted text may be written: a quote or a backslash behind
      a backslash, and anything but a backslash as it is. */
  predicate Writes(piece: string, c: char) {
    (piece == ['\\', c] && c in "\"\\") || (piece == [c] && c != '\\')
  }

  predicate WriteText(pieces: seq<string>, t: string) {
    |pieces| == |t| && forall i | 0 <= i < |t| :: Writes(pieces[i], t[i])
  }

  /** Escaping writes every quote and backslash behind a backslash. */
  lemma {:induction false} EscapeIs(s: string) returns (pieces: seq<string>)
    ensures Escape(s) == Concat(pieces) && WriteText(pieces, s)
    ensures forall i | 0 <= i < |s| :: pieces[i] == if s[i] == '"' || s[i] == '\\' then ['\\', s[i]] else [s[i]]
  {
    pieces := [];
    if s != "" {
      var c := s[0];
      var rest := EscapeIs(s[1..]);
      pieces := [if c == '"' || c == '\\' then ['\\', c] else [c]] + rest;
      assert pieces[1..] == rest;
      assert forall i | 1 <= i < |s| :: s[i] == s[1..][i - 1];
    }
  }

  lemma {:induction false} UnescapeOfPieces(pieces: seq<string>, t: string)
    requires WriteText(pieces, t)
    ensures Unescape(Concat(pieces)) == Some(t)
    decreases |t|
  {
    if t != "" {
      var rest := Concat(pieces[1..]);
      UnescapeOfPieces(pieces[1..], t[1..]);
      assert Writes(pieces[0], t[0]) && [t[0]] + t[1..] == t;
      var s := pieces[0] + rest;
      assert s[|pieces[0]|..] == rest;
    }
  }

  lemma {:induction false} PiecesOfUnescaped(s: string) returns (pieces: seq<string>)
    requires Unescape(s).Some?
    ensures Concat(pieces) == s && WriteText(pieces, Unescape(s).value)
    decreases |s|
  {
    pieces := [];
    if s != "" {
      var n := if s[0] == '\\' then 2 else 1;
      var rest := PiecesOfUnescaped(s[n..]);
      pieces := [s[..n]] + rest;
      assert pieces[1..] == rest && s[..n] + s[n..] == s;
      var t := Unescape(s).value;
      assert t[1..] == Unescape(s[n..]).value && Writes(pieces[0], t[0]);
      assert forall i | 1 <= i < |t| :: t[i] == t[1..][i - 1];
    }
  }

  /** What is read as what: exactly the texts that write it piece by piece. */
  lemma UnescapeIs(s: string, t: string)
    ensures Unescape(s) == Some(t) <==> exists pieces :: Concat(pieces) == s && WriteText(pieces, t)
  {
    if Unescape(s) == Some(t) {
      var pieces := PiecesOfUnescaped(s);
    }
    if pieces :| Concat(pieces) == s && WriteText(pieces, t) {
      UnescapeOfPieces(pieces, t);
    }
  }

  // ----- hex data

  function HexDigit(v: nat): (c: char)
    requires v < 16
    ensures ParseHexDigit(c) == Some(v)
  {
    if v < 10 then ('0' as int + v) as char else ('a' as int + v - 10) as char
  }

  function ParseHexDigit(c: char): (r: Option<nat>)
    ensures r.Some? ==> r.value < 16
  {
    if '0' <= c <= '9' then Some(c as int - '0' as int)
    else if 'a' <= c <= 'f' then Some(c as int - 'a' as int + 10)
    else if 'A' <= c <= 'F' then Some(c as int - 'A' as int + 10)
    else None
  }

  function HexPair(c: char): string {
    [HexDigit(c as int / 16 % 16), HexDigit(c as int % 16)]
  }

  function HexItem(index: nat, c: char): string {
    if index != 0 then "," + HexPair(c) else HexPair(c)
  }

  /** Comma-separated pairs, as the serializer prints them. */
  function RegHex(bytes: string): string {
    if bytes == "" then ""
    else
      var n := |bytes| - 1;
      RegHex(bytes[..n]) + HexItem(n, bytes[n])
  }

  /** A hex digit in lower case, looked up rather than computed. */
  predicate IsLowerDigit(c: char, v: nat) {
    v < 16 && c == "0123456789abcdef"[v]
  }

  /** The printed form of some bytes: two lower-case digits each, the high half first,
      and a comma between them and the next two. */
  predicate PrintsBytes(text: string, bytes: string) {
    && |text| == (if bytes == "" then 0 else 3 * |bytes| - 1)
    && forall k | 0 <= k < |bytes| ::
         && IsLowerDigit(text[3 * k], bytes[k] as int / 16)
         && IsLowerDigit(text[3 * k + 1], bytes[k] as int % 16)
         && (k < |bytes| - 1 ==> text[3 * k + 2] == ',')
  }

  lemma DigitIsLowerCase(v: nat)
    requires v < 16
    ensures IsLowerDigit(HexDigit(v), v)
  {
  }

  /** A digit is read in either case. */
  lemma DigitIsRead(c: char, v: nat)
    requires v < 16
    ensures ParseHexDigit(c) == Some(v) <==> c == "0123456789abcdef"[v] || c == "0123456789ABCDEF"[v]
  {
  }

  lemma {:induction false} RegHexIs(bytes: string)
    requires Octets(bytes)
    ensures PrintsBytes(RegHex(bytes), bytes)
  {
    if bytes != "" {
      var n := |bytes| - 1;
      var last, init, text := bytes[n] as int, RegHex(bytes[..n]), RegHex(bytes);
      RegHexIs(bytes[..n]);
      DigitIsLowerCase(last / 16);
      DigitIsLowerCase(last % 16);
      assert text == init + HexItem(n, bytes[n]);
      forall k | 0 <= k <= n
        ensures && IsLowerDigit(text[3 * k], bytes[k] as int / 16) && IsLowerDigit(text[3 * k + 1], bytes[k] as int % 16)
                && (k < n ==> text[3 * k + 2] == ',')
      {
        if k < n { assert bytes[..n][k] == bytes[k]; }
      }
    }
  }

  predicate IsHexFiller(c: char) {
    c == ',' || IsSpace(c)
  }

  function Compact(s: string): string {
    if s == "" then "" else (if IsHexFiller(s[0]) then "" else [s[0]]) + Compact(s[1..])
  }

  function HexPairs(compact: string): Option<string> {
    if compact == "" then Some("")
    else if |compact| == 1 then None
    else
      match (ParseHexDigit(compact[0]), ParseHexDigit(compact[1]))
      case (Some(high), Some(low)) => Prepend([(16 * high + low) as char], HexPairs(compact[2..]))
      case _ => None
  }

  function HexToBytes(hex: string): Option<string> {
    HexPairs(Compact(hex))
  }

  method BytesToRegHex(bytes: string) returns (output: string)
    requires Octets(bytes)
    ensures output == RegHex(bytes) && PrintsBytes(output, bytes)
  {
    hide PrintsBytes, Octets;
    output := "";
    for i := 0 to |bytes|
      invariant output == RegHex(bytes[..i])
    {
      if i != 0 {
        output := output + ",";
      }
      output := output + HexPair(bytes[i]);
      assert bytes[..i + 1][..i] == bytes[..i];
    }
    assert bytes[..|bytes|] == bytes;
    RegHexIs(bytes);
  }

  lemma {:induction false} OddHexIsRejected(compact: string)
    ensures HexPairs(compact).Some? ==> |compact| % 2 == 0
  {
    if |compact| >= 2 {
      OddHexIsRejected(compact[2..]);
      assert |compact| == |compact[2..]| + 2;
    }
  }

  method StripFillers(hex: string) returns (compact: string)
    ensures compact == Compact(hex)
  {
    compact := "";
    for i := 0 to |hex|
      invariant compact + Compact(hex[i..]) == Compact(hex)
    {
      assert hex[i..][1..] == hex[i + 1..];
      if !IsHexFiller(hex[i]) {
        Associative(compact, [hex[i]], Compact(hex[i + 1..]));
        compact := compact + [hex[i]];
      } else {
        assert "" + Compact(hex[i + 1..]) == Compact(hex[i + 1..]);
      }
    }
  }

  method DecodePairs(compact: string) returns (r: Option<string>)
    requires |compact| % 2 == 0
    ensures r == HexPairs(compact)
  {
    var output := "";
    var index := 0;
    PrependJoins("", "", HexPairs(compact));
    assert compact[0..] == compact;
    while index != |compact|
      invariant 0 <= index <= |compact| && index % 2 == 0
      invariant Prepend(output, HexPairs(compact[index..])) == HexPairs(compact)
      decreases |compact| - index
    {
      var high := ParseHexDigit(compact[index]);
      var low := ParseHexDigit(compact[index + 1]);
      assert compact[index..][2..] == compact[index + 2..];
      if high.None? || low.None? {
        return None;
      }
      PrependJoins(output, [(16 * high.value + low.value) as char], HexPairs(compact[index + 2..]));
      output := output + [(16 * high.value + low.value) as char];
      index := index + 2;
    }
    assert compact[index..] == "" && output + "" == output;
    return Some(output);
  }

  method ParseHexBytes(hex: string) returns (r: Option<string>)
    ensures r == HexToBytes(hex)
  {
    var compact := StripFillers(hex);
    if |compact| % 2 != 0 {
      OddHexIsRejected(compact);
      return None;
    }
    r := DecodePairs(compact);
  }

  lemma {:induction false} CompactAppend(a: string, b: string)
    ensures Compact(a + b) == Compact(a) + Compact(b)
  {
    if a == "" {
      assert a + b == b;
    } else {
      CompactAppend(a[1..], b);
      assert (a + b)[1..] == a[1..] + b && (a + b)[0] == a[0];
      Associative(if IsHexFiller(a[0]) then "" else [a[0]], Compact(a[1..]), Compact(b));
    }
  }

  lemma {:induction false} HexPairsAppend(a: string, b: string)
    requires |a| % 2 == 0
    ensures HexPairs(a + b) == match HexPairs(a)
                               case Some(x) => Prepend(x, HexPairs(b))
                               case None => None
  {
    if a == "" {
      assert a + b == b;
      PrependJoins("", "", HexPairs(b));
    } else {
      HexPairsAppend(a[2..], b);
      assert (a + b)[2..] == a[2..] + b;
      match (ParseHexDigit(a[0]), ParseHexDigit(a[1])) {
        case (Some(high), Some(low)) =>
          if HexPairs(a[2..]).Some? {
            PrependJoins([(16 * high + low) as char], HexPairs(a[2..]).value, HexPairs(b));
          }
        case _ =>
      }
    }
  }

  lemma HexPairCompact(c: char)
    ensures Compact(HexPair(c)) == HexPair(c) && Compact("," + HexPair(c)) == HexPair(c)
  {
    var p := HexPair(c);
    assert !IsHexFiller(p[0]) && !IsHexFiller(p[1]);
    assert p[1..] == [p[1]] && p[1..][1..] == "";
    assert Compact(p[1..]) == [p[1]] + Compact(p[1..][1..]) == [p[1]];
    assert Compact(p) == [p[0]] + Compact(p[1..]) == p;
    assert ("," + p)[1..] == p;
    assert Compact("," + p) == "" + Compact(p) == Compact(p);
  }

  lemma HexPairDecodes(c: char)
    requires c as int < 256
    ensures HexPairs(HexPair(c)) == Some([c])
  {
    var p := HexPair(c);
    var high, low := c as int / 16 % 16, c as int % 16;
    assert (16 * high + low) as char == c;
    assert ParseHexDigit(p[0]) == Some(high) && ParseHexDigit(p[1]) == Some(low);
    assert p[2..] == "" && HexPairs(p[2..]) == Some("");
    assert [c] + "" == [c];
  }

  lemma RegHexSnoc(bytes: string, n: nat)
    requires |bytes| == n + 1
    ensures Compact(RegHex(bytes)) == Compact(RegHex(bytes[..n])) + HexPair(bytes[n])
  {
    HexPairCompact(bytes[n]);
    CompactAppend(RegHex(bytes[..n]), HexItem(n, bytes[n]));
  }

  lemma HexPairsSnoc(compact: string, bytes: string, c: char)
    requires HexPairs(compact) == Some(bytes) && c as int < 256
    ensures HexPairs(compact + HexPair(c)) == Some(bytes + [c])
  {
    OddHexIsRejected(compact);
    HexPairDecodes(c);
    HexPairsAppend(compact, HexPair(c));
  }

  lemma {:induction false} HexRoundTrip(bytes: string)
    requires Octets(bytes)
    ensures HexToBytes(RegHex(bytes)) == Some(bytes)
  {
    if bytes != "" {
      var n := |bytes| - 1;
      HexRoundTrip(bytes[..n]);
      RegHexSnoc(bytes, n);
      HexPairsSnoc(Compact(RegHex(bytes[..n])), bytes[..n], bytes[n]);
      assert bytes[..n] + [bytes[n]] == bytes;
    }
  }

  /** A byte of digits in text order; both digits are read in either case. */
  predicate IsPair(high: char, low: char, byte: char) {
    ParseHexDigit(high).Some? && ParseHexDigit(low).Some? && byte == (16 * ParseHexDigit(high).value + ParseHexDigit(low).value) as char
  }

  /** What is read as which bytes, once the fillers are gone. */
  lemma {:induction false} HexPairsAre(compact: string)
    ensures HexPairs(compact).Some? <==> |compact| % 2 == 0 && forall i | 0 <= i < |compact| :: ParseHexDigit(compact[i]).Some?
    ensures HexPairs(compact).Some? ==>
              var bytes := HexPairs(compact).value;
              |compact| == 2 * |bytes| && forall k | 0 <= k < |bytes| :: IsPair(compact[2 * k], compact[2 * k + 1], bytes[k])
  {
    if |compact| >= 2 {
      HexPairsAre(compact[2..]);
      assert forall i | 2 <= i < |compact| :: compact[i] == compact[2..][i - 2];
      if HexPairs(compact).Some? {
        var bytes, rest := HexPairs(compact).value, HexPairs(compact[2..]).value;
        assert bytes[1..] == rest;
        forall k | 0 <= k < |bytes| ensures IsPair(compact[2 * k], compact[2 * k + 1], bytes[k]) {
          if k > 0 { assert IsPair(compact[2..][2 * (k - 1)], compact[2..][2 * (k - 1) + 1], rest[k - 1]); }
        }
      }
    }
  }

  /** What stripping the fillers means, one character at a time. */
  lemma CompactOne(c: char)
    ensures Compact([c]) == if c in ", \t\n\U{0B}\U{0C}\r" then "" else [c]
  {
    SpaceIs(c);
    assert [c][1..] == "";
    assert ", \t\n\U{0B}\U{0C}\r" == "," + " \t\n\U{0B}\U{0C}\r";
  }

  // ----- dwords

  function LittleEndian(bytes: string): nat {
    if bytes == "" then 0 else bytes[0] as int + 256 * LittleEndian(bytes[1..])
  }

  function HexDigits(value: nat, n: nat): (s: string)
    ensures |s| == n
  {
    if n == 0 then "" else HexDigits(value / 16, n - 1) + [HexDigit(value % 16)]
  }

  function DwordText(bytes: string): string {
    HexDigits(LittleEndian(FirstFour(bytes)), 8)
  }

  /** Byte j of a dword, zero where there is none. */
  function ByteAt(bytes: string, j: nat): nat {
    if j < |bytes| then bytes[j] as int else 0
  }

  /** The printed form of a dword: eight lower-case digits, the last byte first. */
  predicate PrintsDword(text: string, bytes: string, n: nat) {
    && |text| == 2 * n
    && forall j | 0 <= j < n ::
         && IsLowerDigit(text[2 * (n - 1 - j)], ByteAt(bytes, j) / 16)
         && IsLowerDigit(text[2 * (n - 1 - j) + 1], ByteAt(bytes, j) % 16)
  }

  lemma ByteShifts(first: nat, rest: nat)
    requires first < 256
    ensures var value := first + 256 * rest; value / 16 / 16 == rest && value / 16 % 16 == first / 16 && value % 16 == first % 16
  {
    var value := first + 256 * rest;
    assert value / 16 == first / 16 + 16 * rest;
  }

  /** One more byte in front is two more digits behind. */
  lemma PrintsOneMore(init: string, bytes: string, n: nat)
    requires Octets(bytes) && n > 0 && PrintsDword(init, if bytes == "" then "" else bytes[1..], n - 1)
    ensures PrintsDword(init + [HexDigit(ByteAt(bytes, 0) / 16)] + [HexDigit(ByteAt(bytes, 0) % 16)], bytes, n)
  {
    hide HexDigit, IsLowerDigit;
    var first := ByteAt(bytes, 0);
    var rest := if bytes == "" then "" else bytes[1..];
    var text := init + [HexDigit(first / 16)] + [HexDigit(first % 16)];
    DigitIsLowerCase(first / 16);
    DigitIsLowerCase(first % 16);
    forall j | 0 <= j < n
      ensures IsLowerDigit(text[2 * (n - 1 - j)], ByteAt(bytes, j) / 16) && IsLowerDigit(text[2 * (n - 1 - j) + 1], ByteAt(bytes, j) % 16)
    {
      if j > 0 { assert ByteAt(bytes, j) == ByteAt(rest, j - 1); }
    }
  }

  lemma {:induction false} DigitsOfBytes(bytes: string, n: nat)
    requires Octets(bytes) && |bytes| <= n
    ensures PrintsDword(HexDigits(LittleEndian(bytes), 2 * n), bytes, n)
  {
    hide PrintsDword, HexDigit;
    if n == 0 {
      NothingPrinted(bytes);
    } else {
      var rest := if bytes == "" then "" else bytes[1..];
      var first, value := ByteAt(bytes, 0), LittleEndian(bytes);
      DigitsOfBytes(rest, n - 1);
      assert value == first + 256 * LittleEndian(rest);
      ByteShifts(first, LittleEndian(rest));
      var init := HexDigits(LittleEndian(rest), 2 * (n - 1));
      assert HexDigits(value / 16, 2 * n - 1) == init + [HexDigit(first / 16)];
      assert HexDigits(value, 2 * n) == HexDigits(value / 16, 2 * n - 1) + [HexDigit(first % 16)];
      PrintsOneMore(init, bytes, n);
    }
  }

  lemma NothingPrinted(bytes: string)
    requires bytes == ""
    ensures PrintsDword(HexDigits(LittleEndian(bytes), 0), bytes, 0)
  {
  }

  function FirstFour(bytes: string): string {
    if |bytes| <= 4 then bytes else bytes[..4]
  }

  lemma DwordTextIs(bytes: string)
    requires Octets(bytes)
    ensures PrintsDword(DwordText(bytes), bytes, 4)
  {
    DigitsOfBytes(FirstFour(bytes), 4);
    assert forall j | 0 <= j < 4 :: ByteAt(FirstFour(bytes), j) == ByteAt(bytes, j);
  }

  function HexNumber(text: string): Option<nat> {
    if text == "" then Some(0)
    else
      match (HexNumber(text[..|text| - 1]), ParseHexDigit(text[|text| - 1]))
      case (Some(high), Some(digit)) => Some(16 * high + digit)
      case _ => None
  }

  function DwordBytes(value: nat): string {
    [(value % 256) as char, (value / 0x100 % 256) as char, (value / 0x1_0000 % 256) as char, (value / 0x100_0000 % 256) as char]
  }

  function DwordFromText(text: string): Option<string> {
    if |text| != 8 then None
    else match HexNumber(text)
         case Some(value) => Some(DwordBytes(value))
         case None => None
  }

  function ShiftedDigits(value: nat, digits: nat): nat {
    if digits == 0 then value else ShiftedDigits(value / 16, digits - 1)
  }

  lemma {:induction false} HexDigitsAt(value: nat, n: nat, k: nat)
    requires k < n
    ensures HexDigits(value, n)[k] == HexDigit(ShiftedDigits(value, n - 1 - k) % 16)
  {
    if k < n - 1 { HexDigitsAt(value / 16, n - 1, k); }
  }

  method DwordBytesToRegText(bytes: string) returns (output: string)
    requires Octets(bytes)
    ensures output == DwordText(bytes) && PrintsDword(output, bytes, 4)
  {
    DwordTextIs(bytes);
    var value := 0;
    var used := if |bytes| <= 4 then bytes else bytes[..4];
    // Least significant byte first: or-ing byte i shifted by 8 * i adds it above
    // the bytes already read, so reading from the other end is Horner's rule.
    var index := |used|;
    while index != 0
      invariant 0 <= index <= |used| && value == LittleEndian(used[index..])
    {
      index := index - 1;
      assert used[index..][1..] == used[index + 1..];
      value := used[index] as int + 256 * value;
    }
    assert used[0..] == used;
    output := seq(8, i => '0');
    for i := 0 to 8
      invariant |output| == 8
      invariant forall k | 0 <= k < i :: output[k] == HexDigit(ShiftedDigits(value, 7 - k) % 16)
    {
      output := output[i := HexDigit(ShiftedDigits(value, 7 - i) % 16)];
    }
    forall k | 0 <= k < 8 ensures output[k] == HexDigits(value, 8)[k] {
      HexDigitsAt(value, 8, k);
    }
  }

  method DwordRegTextToBytes(text: string) returns (r: Option<string>)
    ensures r == DwordFromText(text)
  {
    if |text| != 8 {
      return None;
    }
    var value := 0;
    for i := 0 to |text|
      invariant HexNumber(text[..i]) == Some(value)
    {
      var digit := ParseHexDigit(text[i]);
      assert text[..i + 1][..i] == text[..i];
      if digit.None? {
        BadDigit(text, i);
        return None;
      }
      value := 16 * value + digit.value;
    }
    assert text[..|text|] == text;
    return Some(DwordBytes(value));
  }

  lemma {:induction false} BadDigit(text: string, i: nat)
    requires i < |text| && ParseHexDigit(text[i]) == None
    ensures HexNumber(text) == None
  {
    if i < |text| - 1 { BadDigit(text[..|text| - 1], i); }
  }

  function Pow16(n: nat): nat {
    if n == 0 then 1 else 16 * Pow16(n - 1)
  }

  lemma {:induction false} HexNumberOfDigits(value: nat, n: nat)
    requires value < Pow16(n)
    ensures HexNumber(HexDigits(value, n)) == Some(value)
  {
    if n != 0 {
      HexNumberOfDigits(value / 16, n - 1);
      var s := HexDigits(value, n);
      assert s[..|s| - 1] == HexDigits(value / 16, n - 1);
    }
  }

  lemma LittleEndianCons(a: char, rest: string)
    ensures LittleEndian([a] + rest) == a as int + 256 * LittleEndian(rest)
  {
    assert ([a] + rest)[1..] == rest;
  }

  lemma LittleEndian4(b: string)
    requires |b| == 4
    ensures LittleEndian(b) == b[0] as int + 256 * (b[1] as int + 256 * (b[2] as int + 256 * b[3] as int))
  {
    hide LittleEndian;
    assert LittleEndian("") == 0 by { LittleEndianOfNothing(); }
    LittleEndianCons(b[3], "");
    LittleEndianCons(b[2], [b[3]] + "");
    LittleEndianCons(b[1], [b[2]] + ([b[3]] + ""));
    LittleEndianCons(b[0], [b[1]] + ([b[2]] + ([b[3]] + "")));
    assert b == [b[0]] + ([b[1]] + ([b[2]] + ([b[3]] + "")));
  }

  lemma LittleEndianOfNothing()
    ensures LittleEndian("") == 0
  {
  }

  lemma BytesOfNumber(b0: nat, b1: nat, b2: nat, b3: nat)
    requires b0 < 256 && b1 < 256 && b2 < 256 && b3 < 256
    ensures var value := b0 + 256 * (b1 + 256 * (b2 + 256 * b3));
            value % 256 == b0 && value / 0x100 % 256 == b1 && value / 0x1_0000 % 256 == b2 && value / 0x100_0000 % 256 == b3
  {
    var value := b0 + 256 * (b1 + 256 * (b2 + 256 * b3));
    assert value / 0x100 == b1 + 256 * (b2 + 256 * b3);
    assert value / 0x1_0000 == b2 + 256 * b3;
    assert value / 0x100_0000 == b3;
  }

  lemma Pow16Of8()
    ensures Pow16(8) == 0x1_0000_0000
  {
    assert Pow16(4) == 0x1_0000;
  }

  lemma DwordRoundTrip(bytes: string)
    requires Octets(bytes) && |bytes| == 4
    ensures DwordFromText(DwordText(bytes)) == Some(bytes)
  {
    LittleEndian4(bytes);
    Pow16Of8();
    HexNumberOfDigits(LittleEndian(bytes), 8);
    BytesOfNumber(bytes[0] as int, bytes[1] as int, bytes[2] as int, bytes[3] as int);
    assert bytes == [bytes[0], bytes[1], bytes[2], bytes[3]];
  }

  function LowerHex(c: char): char {
    if 'A' <= c <= 'F' then (c as int - 'A' as int + 'a' as int) as char else c
  }

  function LowerText(text: string): string {
    seq(|text|, i requires 0 <= i < |text| => LowerHex(text[i]))
  }

  lemma {:induction false} DigitsOfHexNumber(text: string)
    requires HexNumber(text).Some?
    ensures HexNumber(text).value < Pow16(|text|) && HexDigits(HexNumber(text).value, |text|) == LowerText(text)
  {
    if text != "" {
      var high, last := text[..|text| - 1], text[|text| - 1];
      DigitsOfHexNumber(high);
      DigitIsLower(last);
      assert LowerText(text) == LowerText(high) + [LowerHex(last)];
    }
  }

  lemma DigitIsLower(c: char)
    requires ParseHexDigit(c).Some?
    ensures ParseHexDigit(c).value < 16 && HexDigit(ParseHexDigit(c).value) == LowerHex(c)
  {
  }

  lemma LittleEndianOfBytes(value: nat)
    requires value < 0x1_0000_0000
    ensures LittleEndian(DwordBytes(value)) == value && |DwordBytes(value)| == 4 && Octets(DwordBytes(value))
  {
    var v1 := value / 256;
    var v2 := v1 / 256;
    var v3 := v2 / 256;
    var b0, b1, b2 := value % 256, v1 % 256, v2 % 256;
    assert value == b0 + 256 * (b1 + 256 * (b2 + 256 * v3));
    BytesOfNumber(b0, b1, b2, v3);
    LittleEndian4(DwordBytes(value));
  }

  /** Text to bytes and back gives the text in lower case, so every lower-case text. */
  lemma DwordTextRoundTrip(text: string)
    requires DwordFromText(text).Some?
    ensures DwordText(DwordFromText(text).value) == LowerText(text)
    ensures DwordText(DwordFromText(text).value) == text <==> forall i | 0 <= i < |text| :: !('A' <= text[i] <= 'F')
  {
    DigitsOfHexNumber(text);
    Pow16Of8();
    LittleEndianOfBytes(HexNumber(text).value);
    assert LowerText(text) == text <==> forall i | 0 <= i < |text| :: LowerHex(text[i]) == text[i];
  }

  lemma {:induction false} HexNumberIs(text: string)
    ensures HexNumber(text).Some? <==> forall i | 0 <= i < |text| :: ParseHexDigit(text[i]).Some?
  {
    if text != "" {
      var init := text[..|text| - 1];
      HexNumberIs(init);
      assert forall i | 0 <= i < |init| :: text[i] == init[i];
    }
  }

  /** Which texts are dwords, and as which bytes they are read: the last pair first. */
  lemma DwordIsRead(text: string)
    ensures DwordFromText(text).Some? <==> |text| == 8 && forall i | 0 <= i < 8 :: ParseHexDigit(text[i]).Some?
    ensures DwordFromText(text).Some? ==>
              var bytes := DwordFromText(text).value;
              |bytes| == 4 && Octets(bytes) && forall j | 0 <= j < 4 :: IsPair(text[6 - 2 * j], text[7 - 2 * j], bytes[j])
  {
    HexNumberIs(text);
    if DwordFromText(text).Some? {
      var bytes := DwordFromText(text).value;
      DwordTextRoundTrip(text);
      DigitsOfHexNumber(text);
      Pow16Of8();
      LittleEndianOfBytes(HexNumber(text).value);
      DwordTextIs(bytes);
      forall j | 0 <= j < 4 ensures IsPair(text[6 - 2 * j], text[7 - 2 * j], bytes[j]) {
        hide DwordFromText, DwordText, HexNumber, ParseHexDigit;
        assert IsLowerDigit(LowerText(text)[2 * (4 - 1 - j)], ByteAt(bytes, j) / 16);
        LowersAreRead(text[6 - 2 * j], text[7 - 2 * j], bytes[j]);
      }
    }
  }

  lemma LowersAreRead(high: char, low: char, byte: char)
    requires byte as int < 256
    requires IsLowerDigit(LowerHex(high), byte as int / 16) && IsLowerDigit(LowerHex(low), byte as int % 16)
    ensures IsPair(high, low, byte)
  {
    LowerIsRead(high, byte as int / 16);
    LowerIsRead(low, byte as int % 16);
    assert 16 * (byte as int / 16) + byte as int % 16 == byte as int;
  }

  lemma LowerIsRead(c: char, v: nat)
    requires IsLowerDigit(LowerHex(c), v)
    ensures ParseHexDigit(c) == Some(v)
  {
    DigitIsRead(c, v);
  }

  // ----- strings up to the first NUL

  function UpToNul(bytes: string): string {
    if bytes == "" || bytes[0] as int == 0 then "" else [bytes[0]] + UpToNul(bytes[1..])
  }

  method BytesToLossyString(bytes: string) returns (output: string)
    ensures output == UpToNul(bytes)
  {
    output := "";
    for i := 0 to |bytes|
      invariant output + UpToNul(bytes[i..]) == UpToNul(bytes)
    {
      if bytes[i] as int == 0 {
        return;
      }
      output := output + [bytes[i]];
      assert bytes[i..][1..] == bytes[i + 1..];
    }
  }

  lemma {:induction false} UpToNulIdentity(bytes: string)
    ensures |UpToNul(bytes)| <= |bytes|
    ensures UpToNul(bytes) == bytes <==> NulFree(bytes)
  {
    if bytes != "" {
      UpToNulIdentity(bytes[1..]);
      assert bytes == [bytes[0]] + bytes[1..];
      if NulFree(bytes) {
        assert NulFree(bytes[1..]);
      } else if bytes[0] as int != 0 {
        assert !NulFree(bytes[1..]) by {
          var i :| 0 <= i < |bytes| && bytes[i] as int == 0;
          assert bytes[1..][i - 1] as int == 0;
        }
        assert UpToNul(bytes)[1..] == UpToNul(bytes[1..]);
      }
    }
  }

  /** The copy is what stands before the first NUL. */
  lemma {:induction false} UpToNulStops(before: string, after: string)
    requires NulFree(before)
    ensures UpToNul(before + [0 as char] + after) == before
  {
    var s := before + [0 as char] + after;
    if before != "" {
      UpToNulStops(before[1..], after);
      assert s[1..] == before[1..] + [0 as char] + after;
    }
  }
}
