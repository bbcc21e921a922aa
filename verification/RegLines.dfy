/** From the octets of a .reg file to its logical lines: byte-order marks,
    UTF-16LE decoding, and continued hex lines. */
module RegLines {
  import opened Prelude
  import opened Text
  import opened RegText

  /** One constructor for each error code the parser reports. */
  datatype RegError =
    | EncodingUnsupported | ContinuationInvalid | UnsupportedForm | KeyInvalid | HiveInvalid | MultipleHives
    | OutsideRoot | ValueInvalid | ValueNameInvalid | EscapeInvalid | ValueDataInvalid | RootMissing

  // ----- decoding

  function Octet(n: nat): char
    requires n < 256
  {
    n as char
  }

  /** The octets appended for one code point; surrogates and everything beyond
      the basic plane are refused. */
  function Utf8(codePoint: nat): Option<string> {
    if codePoint <= 0x7f then Some([Octet(codePoint)])
    else if codePoint <= 0x7ff then
      Some([Octet(0xc0 + codePoint / 0x40), Octet(0x80 + codePoint % 0x40)])
    else if 0xd800 <= codePoint <= 0xdfff then None
    else if codePoint <= 0xffff then
      Some([Octet(0xe0 + codePoint / 0x1000), Octet(0x80 + codePoint / 0x40 % 0x40), Octet(0x80 + codePoint % 0x40)])
    else None
  }

  function DecodeUnits(units: string): Option<string> {
    if |units| < 2 then Some("")
    else match Utf8(units[0] as int + 256 * units[1] as int)
         case Some(octets) => Prepend(octets, DecodeUnits(units[2..]))
         case None => None
  }

  predicate StartsWithOctets(content: string, octets: seq<nat>) {
    |octets| <= |content| && forall i | 0 <= i < |octets| :: content[i] as int == octets[i]
  }

  function DecodeRegText(content: string): Result<string, RegError> {
    if StartsWithOctets(content, [0xff, 0xfe]) then
      if (|content| - 2) % 2 != 0 then Err(EncodingUnsupported)
      else match DecodeUnits(content[2..])
           case Some(text) => Ok(text)
           case None => Err(EncodingUnsupported)
    else if StartsWithOctets(content, [0xfe, 0xff]) then Err(EncodingUnsupported)
    else if StartsWithOctets(content, [0xef, 0xbb, 0xbf]) then Ok(content[3..])
    else Ok(content)
  }

  method DecodeText(content: string) returns (r: Result<string, RegError>)
    ensures r == DecodeRegText(content)
  {
    hide Utf8;
    if StartsWithOctets(content, [0xff, 0xfe]) {
      if (|content| - 2) % 2 != 0 {
        return Err(EncodingUnsupported);
      }
      var output := "";
      var index := 2;
      PrependJoins("", "", DecodeUnits(content[2..]));
      while index != |content|
        invariant 2 <= index <= |content| && (|content| - index) % 2 == 0
        invariant Prepend(output, DecodeUnits(content[index..])) == DecodeUnits(content[2..])
        decreases |content| - index
      {
        var codeUnit := content[index] as int + 256 * content[index + 1] as int;
        assert content[index..][2..] == content[index + 2..];
        var octets := Utf8(codeUnit);
        if octets.None? {
          return Err(EncodingUnsupported);
        }
        PrependJoins(output, octets.value, DecodeUnits(content[index + 2..]));
        output := output + octets.value;
        index := index + 2;
      }
      assert output + "" == output;
      return Ok(output);
    }
    if StartsWithOctets(content, [0xfe, 0xff]) {
      return Err(EncodingUnsupported);
    }
    if StartsWithOctets(content, [0xef, 0xbb, 0xbf]) {
      return Ok(content[3..]);
    }
    return Ok(content);
  }

  // ----- logical lines

  predicate IsHexValueLine(line: string) {
    var equals := IndexOf(line, '=');
    equals >= 0 &&
    var value := Trim(line[equals + 1..]);
    StartsWith(value, "hex:") || StartsWith(value, "hex(2):") || StartsWith(value, "hex(7):") || StartsWith(value, "hex(b):")
  }

  predicate EndsWith(s: string, c: char) {
    s != "" && s[|s| - 1] == c
  }

  datatype LineState = LineState(lines: seq<string>, pending: string, continuing: bool)

  const StartOfText := LineState([], "", false)

  function StripReturn(line: string): string {
    if EndsWith(line, '\r') then line[..|line| - 1] else line
  }

  function FeedLine(st: LineState, raw: string): Result<LineState, RegError> {
    var line := StripReturn(raw);
    if st.continuing && line != "" && line[0] != ' ' && line[0] != '\t' then Err(ContinuationInvalid)
    else
      var pending := if st.continuing then st.pending + Trim(line) else Trim(line);
      if EndsWith(pending, '\\') then
        var cut := pending[..|pending| - 1];
        if !st.continuing && !IsHexValueLine(cut) then Err(ContinuationInvalid)
        else Ok(LineState(st.lines, cut, true))
      else Ok(LineState(st.lines + [pending], "", false))
  }

  function FeedLines(st: LineState, raws: seq<string>): Result<LineState, RegError>
    decreases |raws|
  {
    if raws == [] then Ok(st)
    else match FeedLine(st, raws[0])
         case Ok(next) => FeedLines(next, raws[1..])
         case Err(e) => Err(e)
  }

  function LogicalLines(text: string): Result<seq<string>, RegError> {
    match FeedLines(StartOfText, Lines(text))
    case Ok(st) => if st.continuing then Err(ContinuationInvalid) else Ok(st.lines)
    case Err(e) => Err(e)
  }

  lemma FeedStep(st: LineState, raws: seq<string>)
    ensures FeedLines(st, raws) == if raws == [] then Ok(st) else
                                     match FeedLine(st, raws[0])
                                     case Ok(next) => FeedLines(next, raws[1..])
                                     case Err(e) => Err(e)
  {
  }

  /** The body of the line loop. */
  method TakeLine(st: LineState, raw: string) returns (r: Result<LineState, RegError>)
    ensures r == FeedLine(st, raw)
  {
    hide IsHexValueLine, Trim;
    var line := raw;
    if line != "" && line[|line| - 1] == '\r' {
      line := line[..|line| - 1];
    }
    var pending := Trim(line);
    if st.continuing {
      if line != "" && line[0] != ' ' && line[0] != '\t' {
        return Err(ContinuationInvalid);
      }
      pending := st.pending + pending;
    }
    if EndsWith(pending, '\\') {
      pending := pending[..|pending| - 1];
      if !st.continuing && !IsHexValueLine(pending) {
        return Err(ContinuationInvalid);
      }
      return Ok(LineState(st.lines, pending, true));
    }
    return Ok(LineState(st.lines + [pending], "", false));
  }

  method RegLogicalLines(text: string) returns (r: Result<seq<string>, RegError>)
    ensures r == LogicalLines(text)
  {
    hide FeedLine, FeedLines;
    var raws := ReadLines(text);
    var st := StartOfText;
    for i := 0 to |raws|
      invariant FeedLines(StartOfText, raws) == FeedLines(st, raws[i..])
    {
      FeedStep(st, raws[i..]);
      var next := TakeLine(st, raws[i]);
      if next.Err? {
        return Err(next.error);
      }
      st := next.value;
    }
    FeedStep(st, raws[|raws|..]);
    if st.continuing {
      return Err(ContinuationInvalid);
    }
    return Ok(st.lines);
  }

  lemma {:induction false} FeedLinesAppend(st: LineState, a: seq<string>, b: seq<string>)
    ensures FeedLines(st, a + b) == match FeedLines(st, a)
                                    case Ok(mid) => FeedLines(mid, b)
                                    case Err(e) => Err(e)
    decreases |a|
  {
    if a == [] {
      assert a + b == b;
    } else {
      assert (a + b)[1..] == a[1..] + b;
      if FeedLine(st, a[0]).Ok? {
        FeedLinesAppend(FeedLine(st, a[0]).value, a[1..], b);
      }
    }
  }

  /** A line that trimming leaves alone and that no backslash ends is its own
      logical line. */
  predicate Plain(line: string) {
    line != "" ==> !IsSpace(line[0]) && !IsSpace(line[|line| - 1]) && line[|line| - 1] != '\\'
  }

  lemma PlainLine(st: LineState, line: string)
    requires !st.continuing && Plain(line)
    ensures FeedLine(st, line) == Ok(LineState(st.lines + [line], "", false))
  {
    assert StripReturn(line) == line;
    TrimIdentity(line);
  }

  lemma {:induction false} PlainLines(st: LineState, ls: seq<string>)
    requires !st.continuing && st.pending == "" && forall l | l in ls :: Plain(l)
    ensures FeedLines(st, ls) == Ok(LineState(st.lines + ls, "", false))
    decreases |ls|
  {
    hide FeedLine;
    if ls != [] {
      assert ls[0] in ls;
      PlainLine(st, ls[0]);
      PlainLines(LineState(st.lines + [ls[0]], "", false), ls[1..]);
      assert st.lines + [ls[0]] + ls[1..] == st.lines + ls;
    } else {
      assert st.lines + ls == st.lines;
    }
  }

  lemma LogicalLinesOfPlain(ls: seq<string>)
    requires forall l | l in ls :: Plain(l) && '\n' !in l
    ensures LogicalLines(Unlines(ls)) == Ok(ls)
  {
    LinesOfUnlines(ls);
    PlainLines(StartOfText, ls);
    assert [] + ls == ls;
  }

  lemma {:induction false} FedLinesAreNewlineFree(st: LineState, raws: seq<string>)
    requires '\n' !in st.pending && (forall l | l in st.lines :: '\n' !in l) && forall l | l in raws :: '\n' !in l
    ensures var r := FeedLines(st, raws); r.Ok? ==> forall l | l in r.value.lines :: '\n' !in l
    decreases |raws|
  {
    if raws != [] {
      assert '\n' !in raws[0];
      TrimKeepsOnly(StripReturn(raws[0]), '\n');
      if FeedLine(st, raws[0]).Ok? {
        FedLinesAreNewlineFree(FeedLine(st, raws[0]).value, raws[1..]);
      }
    }
  }

  lemma LogicalLinesAreNewlineFree(text: string)
    ensures LogicalLines(text).Ok? ==> forall l | l in LogicalLines(text).value :: '\n' !in l
  {
    LinesAreNewlineFree(text);
    FedLinesAreNewlineFree(StartOfText, Lines(text));
  }
}
