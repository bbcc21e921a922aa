/** Wrapping hex data over several physical lines does not change a .reg file. */
module RegWrapping {
  import opened Prelude
  import opened Text
  import opened RegText
  import opened RegLines
  import opened RegSnapshot

  /** A continuation line: its indentation and the part of the data it carries. */
  datatype Continuation = Continuation(indent: string, piece: string)

  predicate IsPiece(s: string) {
    forall i | 0 <= i < |s| :: !IsSpace(s[i]) && s[i] != '\\'
  }

  predicate IsIndent(s: string) {
    && s != ""
    && (s[0] == ' ' || s[0] == '\t')
    && forall i | 0 <= i < |s| :: IsSpace(s[i]) && s[i] != '\n'
  }

  predicate WellFormed(conts: seq<Continuation>) {
    forall i | 0 <= i < |conts| :: IsIndent(conts[i].indent) && IsPiece(conts[i].piece)
  }

  /** The start of a hex value line, up to somewhere in its data. */
  predicate IsHead(head: string) {
    && IsHexValueLine(Trim(head))
    && head != "" && !IsSpace(head[|head| - 1]) && head[|head| - 1] != '\\' && '\n' !in head
  }

  function WrappedTail(conts: seq<Continuation>): seq<string> {
    if conts == [] then []
    else
      var line := conts[0].indent + conts[0].piece;
      [if |conts| == 1 then line else line + "\\"] + WrappedTail(conts[1..])
  }

  /** The value as continued physical lines. */
  function Wrapped(head: string, conts: seq<Continuation>): seq<string> {
    [if conts == [] then head else head + "\\"] + WrappedTail(conts)
  }

  function Payload(conts: seq<Continuation>): string {
    if conts == [] then "" else conts[0].piece + Payload(conts[1..])
  }

  lemma {:induction false} PayloadIsPiece(conts: seq<Continuation>)
    requires WellFormed(conts)
    ensures IsPiece(Payload(conts))
  {
    if conts != [] {
      assert WellFormed(conts[1..]);
      PayloadIsPiece(conts[1..]);
    }
  }

  lemma {:induction false} TrimStartIndent(indent: string, rest: string)
    requires (forall i | 0 <= i < |indent| :: IsSpace(indent[i])) && (rest != "" ==> !IsSpace(rest[0]))
    ensures TrimStart(indent + rest) == rest
  {
    if indent == "" {
      assert indent + rest == rest;
    } else {
      assert (indent + rest)[1..] == indent[1..] + rest;
      TrimStartIndent(indent[1..], rest);
    }
  }

  lemma TrimIndented(indent: string, rest: string)
    requires forall i | 0 <= i < |indent| :: IsSpace(indent[i])
    requires rest != "" ==> !IsSpace(rest[0]) && !IsSpace(rest[|rest| - 1])
    ensures Trim(indent + rest) == rest
  {
    TrimStartIndent(indent, rest);
  }

  /** What trimming leaves of a continuation line, with or without its backslash. */
  lemma TrimContinuation(indent: string, rest: string)
    requires IsIndent(indent) && (rest != "" ==> !IsSpace(rest[0]) && !IsSpace(rest[|rest| - 1]))
    ensures Trim(StripReturn(indent + rest)) == rest
    ensures var l := StripReturn(indent + rest); l == "" || l[0] == ' ' || l[0] == '\t'
  {
    hide Trim;
    var raw := indent + rest;
    if rest == "" {
      var n := |indent| - 1;
      assert raw == indent && indent[..n] + "" == indent[..n];
      TrimIndented(indent[..n], "");
      TrimIndented(indent, "");
    } else {
      assert raw[|raw| - 1] == rest[|rest| - 1];
      assert StripReturn(raw) == raw;
      TrimIndented(indent, rest);
    }
  }

  lemma ContinueLine(st: LineState, c: Continuation, last: bool)
    requires st.continuing && IsIndent(c.indent) && IsPiece(c.piece)
    requires st.pending != "" && st.pending[|st.pending| - 1] != '\\'
    ensures FeedLine(st, c.indent + c.piece + if last then "" else "\\") ==
            Ok(if last then LineState(st.lines + [st.pending + c.piece], "", false)
               else LineState(st.lines, st.pending + c.piece, true))
  {
    hide IsHexValueLine, Trim, StripReturn;
    var rest := c.piece + if last then "" else "\\";
    assert rest != "" ==> !IsSpace(rest[0]) && !IsSpace(rest[|rest| - 1]);
    TrimContinuation(c.indent, rest);
    assert c.indent + c.piece + (if last then "" else "\\") == c.indent + rest;
    var pending := st.pending + (c.piece + if last then "" else "\\");
    if last {
      assert c.piece + "" == c.piece;
      assert pending[|pending| - 1] == if c.piece == "" then st.pending[|st.pending| - 1] else c.piece[|c.piece| - 1];
    } else {
      assert pending[..|pending| - 1] == st.pending + c.piece;
    }
  }

  lemma {:induction false} FeedWrappedTail(st: LineState, conts: seq<Continuation>)
    requires st.continuing && WellFormed(conts) && conts != []
    requires st.pending != "" && st.pending[|st.pending| - 1] != '\\'
    ensures FeedLines(st, WrappedTail(conts)) == Ok(LineState(st.lines + [st.pending + Payload(conts)], "", false))
    decreases |conts|
  {
    hide FeedLine;
    var c, tail := conts[0], WrappedTail(conts);
    assert IsIndent(c.indent) && IsPiece(c.piece);
    FeedStep(st, tail);
    assert tail[1..] == WrappedTail(conts[1..]);
    ContinueLine(st, c, |conts| == 1);
    if |conts| == 1 {
      assert c.indent + c.piece + "" == c.indent + c.piece;
      assert tail[0] == c.indent + c.piece && tail[1..] == [];
      assert Payload(conts) == c.piece + "" == c.piece;
      FeedStep(LineState(st.lines + [st.pending + c.piece], "", false), []);
    } else {
      var next := LineState(st.lines, st.pending + c.piece, true);
      assert WellFormed(conts[1..]);
      assert next.pending[|next.pending| - 1] != '\\';
      FeedWrappedTail(next, conts[1..]);
      Associative(st.pending, c.piece, Payload(conts[1..]));
    }
  }

  lemma {:induction false} TrimStartKeepsLast(head: string)
    requires head != "" && !IsSpace(head[|head| - 1])
    ensures TrimStart(head) != "" && TrimStart(head)[|TrimStart(head)| - 1] == head[|head| - 1]
  {
    if IsSpace(head[0]) { TrimStartKeepsLast(head[1..]); }
  }

  lemma {:induction false} TrimStartOfHead(head: string, rest: string)
    requires head != "" && !IsSpace(head[|head| - 1])
    ensures TrimStart(head + rest) == TrimStart(head) + rest
  {
    assert (head + rest)[0] == head[0];
    if IsSpace(head[0]) {
      assert (head + rest)[1..] == head[1..] + rest;
      TrimStartOfHead(head[1..], rest);
    }
  }

  lemma TrimEndKeeps(s: string)
    requires s != "" ==> !IsSpace(s[|s| - 1])
    ensures TrimEnd(s) == s
  {
  }

  lemma StripReturnKeeps(s: string)
    requires s != "" ==> s[|s| - 1] != '\r'
    ensures StripReturn(s) == s
  {
  }

  lemma LastOfAppend(a: string, b: string)
    requires a != ""
    ensures a + b != "" && (a + b)[|a + b| - 1] == if b == "" then a[|a| - 1] else b[|b| - 1]
  {
  }

  lemma TrimOfHead(head: string)
    requires head != "" && !IsSpace(head[|head| - 1])
    ensures Trim(head) == TrimStart(head) != ""
    ensures Trim(head)[|Trim(head)| - 1] == head[|head| - 1]
  {
    hide TrimStart, TrimEnd;
    TrimStartKeepsLast(head);
    TrimEndKeeps(TrimStart(head));
  }

  lemma TrimHead(head: string, rest: string)
    requires head != "" && !IsSpace(head[|head| - 1])
    requires rest != "" ==> !IsSpace(rest[|rest| - 1])
    ensures Trim(StripReturn(head + rest)) == Trim(head) + rest && Trim(head) != ""
    ensures Trim(head)[|Trim(head)| - 1] == head[|head| - 1]
  {
    hide TrimStart, TrimEnd, StripReturn, IsSpace;
    TrimOfHead(head);
    TrimStartOfHead(head, rest);
    var t := TrimStart(head);
    LastOfAppend(t, rest);
    LastOfAppend(head, rest);
    assert !IsSpace((t + rest)[|t + rest| - 1]) && !IsSpace((head + rest)[|head + rest| - 1]);
    assert IsSpace('\r') by { SpacesIncludeReturn(); }
    StripReturnKeeps(head + rest);
    TrimEndKeeps(t + rest);
  }

  lemma SpacesIncludeReturn()
    ensures IsSpace('\r')
  {
  }

  function Pending(st: LineState): string {
    if st.continuing then st.pending else ""
  }

  /** A line that is read while a value is continued must begin with a blank. */
  predicate IsMisplaced(st: LineState, head: string) {
    st.continuing && head != "" && head[0] != ' ' && head[0] != '\t'
  }

  /** The continued lines and the one long line leave the same state, or the same
      error, whether or not the value before is still being continued. */
  lemma FeedWrapped(st: LineState, head: string, conts: seq<Continuation>)
    requires IsHead(head) && WellFormed(conts)
    ensures FeedLines(st, Wrapped(head, conts)) == FeedLines(st, [head + Payload(conts)])
  {
    hide FeedLine, FeedLines, IsHead, IsPiece, Trim, IsMisplaced;
    PayloadIsPiece(conts);
    FeedWhole(st, head, Payload(conts));
    if conts == [] {
      assert head + Payload(conts) == head && Wrapped(head, conts) == [head];
    } else {
      var lines := Wrapped(head, conts);
      HeadLine(st, head);
      FeedStep(st, lines);
      assert lines[1..] == WrappedTail(conts);
      if !IsMisplaced(st, head) {
        FeedWrappedTail(LineState(st.lines, Pending(st) + Trim(head), true), conts);
        Associative(Pending(st), Trim(head), Payload(conts));
      }
    }
  }

  lemma FeedWhole(st: LineState, head: string, payload: string)
    requires IsHead(head) && IsPiece(payload)
    ensures FeedLines(st, [head + payload]) ==
            if IsMisplaced(st, head) then Err(ContinuationInvalid)
            else Ok(LineState(st.lines + [Pending(st) + (Trim(head) + payload)], "", false))
  {
    hide FeedLine, FeedLines, IsHead, IsPiece, Trim, IsMisplaced;
    WholeLine(st, head, payload);
    FeedStep(st, [head + payload]);
    FeedStep(LineState(st.lines + [Pending(st) + (Trim(head) + payload)], "", false), []);
    assert [head + payload][1..] == [];
  }

  lemma WholeLine(st: LineState, head: string, payload: string)
    requires IsHead(head) && IsPiece(payload)
    ensures FeedLine(st, head + payload) ==
            if IsMisplaced(st, head) then Err(ContinuationInvalid)
            else Ok(LineState(st.lines + [Pending(st) + (Trim(head) + payload)], "", false))
  {
    hide IsHexValueLine;
    hide Trim, StripReturn;
    TrimHead(head, payload);
    KeepsEnds(head, payload);
    var l := Trim(head) + payload;
    assert l[|l| - 1] != '\\';
    assert (Pending(st) + l)[|Pending(st) + l| - 1] == l[|l| - 1] && "" + l == l;
  }

  /** A line that does not end in a blank is not shortened, and begins as its head. */
  lemma KeepsEnds(head: string, rest: string)
    requires head != "" && !IsSpace(head[|head| - 1]) && (rest != "" ==> !IsSpace(rest[|rest| - 1]))
    ensures head + rest != "" && StripReturn(head + rest) == head + rest && (head + rest)[0] == head[0]
  {
    LastOfAppend(head, rest);
    SpacesIncludeReturn();
  }

  lemma HeadLine(st: LineState, head: string)
    requires IsHead(head)
    ensures FeedLine(st, head + "\\") ==
            if IsMisplaced(st, head) then Err(ContinuationInvalid) else Ok(LineState(st.lines, Pending(st) + Trim(head), true))
    ensures Trim(head) != "" && Trim(head)[|Trim(head)| - 1] != '\\'
    ensures (Pending(st) + Trim(head))[|Pending(st) + Trim(head)| - 1] != '\\'
  {
    hide IsHexValueLine, Trim, StripReturn, FeedLine;
    TrimHead(head, "\\");
    KeepsEnds(head, "\\");
    FeedBackslash(st, head + "\\", Trim(head));
    LastOfEither(Pending(st), Trim(head));
  }

  /** A line that ends in a backslash continues the value. */
  lemma FeedBackslash(st: LineState, raw: string, l: string)
    requires raw != "" && StripReturn(raw) == raw && Trim(raw) == l + "\\" && IsHexValueLine(l)
    ensures FeedLine(st, raw) == if IsMisplaced(st, raw) then Err(ContinuationInvalid) else Ok(LineState(st.lines, Pending(st) + l, true))
  {
    hide IsHexValueLine, Trim, StripReturn;
    BackslashIsCut(st.pending, l);
    BackslashIsCut("", l);
  }

  lemma BackslashIsCut(a: string, t: string)
    ensures var l := a + (t + "\\"); l[|l| - 1] == '\\' && l[..|l| - 1] == a + t
    ensures "" + t == t && "" + (t + "\\") == t + "\\"
  {
  }

  lemma LastOfEither(a: string, t: string)
    requires t != ""
    ensures (a + t)[|a + t| - 1] == t[|t| - 1]
  {
  }

  // ----- line ends

  function WithReturn(line: string, cr: bool): string {
    if cr then line + "\r" else line
  }

  /** The lines with their ends: a newline, or a carriage return and a newline. */
  function Ended(lines: seq<string>, crs: seq<bool>): seq<string>
    requires |lines| == |crs|
  {
    if lines == [] then [] else [WithReturn(lines[0], crs[0])] + Ended(lines[1..], crs[1..])
  }

  lemma {:induction false} TrimStartReturn(s: string)
    ensures TrimStart(s + "\r") == if TrimStart(s) == "" then "" else TrimStart(s) + "\r"
  {
    if s == "" {
      assert (s + "\r")[1..] == "" && IsSpace('\r');
    } else {
      assert (s + "\r")[0] == s[0];
      if IsSpace(s[0]) {
        assert (s + "\r")[1..] == s[1..] + "\r";
        TrimStartReturn(s[1..]);
      }
    }
  }

  lemma TrimReturn(s: string)
    ensures Trim(s + "\r") == Trim(s)
  {
    TrimStartReturn(s);
    var t := TrimStart(s) + "\r";
    assert t[..|t| - 1] == TrimStart(s) && IsSpace('\r');
  }

  lemma TrimStripped(s: string)
    ensures Trim(StripReturn(s)) == Trim(s)
  {
    hide Trim;
    if EndsWith(s, '\r') {
      TrimReturn(s[..|s| - 1]);
      assert s[..|s| - 1] + "\r" == s;
    }
  }

  /** A carriage return at the end of a line does not matter, except exactly after a
      lone carriage return inside a continued value: one is taken off, and the other
      makes the line misplaced. */
  lemma ReturnIsIrrelevant(st: LineState, raw: string)
    ensures FeedLine(st, raw + "\r") == FeedLine(st, raw) <==> !(raw == "\r" && st.continuing)
  {
    hide Trim, IsHexValueLine;
    assert StripReturn(raw + "\r") == raw by { assert (raw + "\r")[..|raw|] == raw; }
    TrimStripped(raw);
    if raw == "\r" {
      assert StripReturn(raw) == "" && raw[0] == '\r';
    } else if EndsWith(raw, '\r') {
      assert |raw| == 1 ==> raw == "\r";
      assert StripReturn(raw)[0] == raw[0];
    }
  }

  predicate NoneIsReturn(lines: seq<string>) {
    forall i | 0 <= i < |lines| :: lines[i] != "\r"
  }

  lemma {:induction false} FeedEnded(st: LineState, lines: seq<string>, crs: seq<bool>)
    requires |lines| == |crs| && NoneIsReturn(lines)
    ensures FeedLines(st, Ended(lines, crs)) == FeedLines(st, lines)
    decreases |lines|
  {
    hide FeedLine;
    if lines != [] {
      ReturnIsIrrelevant(st, lines[0]);
      var ended := Ended(lines, crs);
      assert ended[1..] == Ended(lines[1..], crs[1..]);
      FeedStep(st, ended);
      FeedStep(st, lines);
      var next := FeedLine(st, lines[0]);
      if next.Ok? { FeedEnded(next.value, lines[1..], crs[1..]); }
    }
  }

  lemma {:induction false} WrappedTailIsNoReturn(conts: seq<Continuation>)
    requires WellFormed(conts)
    ensures NoneIsReturn(WrappedTail(conts))
  {
    if conts != [] {
      assert WellFormed(conts[1..]);
      WrappedTailIsNoReturn(conts[1..]);
      assert IsIndent(conts[0].indent);
      assert WrappedTail(conts)[0][0] == conts[0].indent[0];
      assert "\r"[0] == '\r';
    }
  }

  lemma WrappedIsNoReturn(head: string, conts: seq<Continuation>)
    requires IsHead(head) && WellFormed(conts)
    ensures NoneIsReturn(Wrapped(head, conts)) && NoneIsReturn([head + Payload(conts)])
  {
    hide IsHexValueLine, Trim;
    WrappedTailIsNoReturn(conts);
    SpacesIncludeReturn();
    assert Wrapped(head, conts)[0][0] == head[0] && (head + Payload(conts))[0] == head[0];
    if |head| == 1 { assert !IsSpace(head[0]); }
    assert "\r"[0] == '\r';
  }

  predicate NewlineFree(ls: seq<string>) {
    forall l | l in ls :: '\n' !in l
  }

  lemma {:induction false} WrappedTailIsNewlineFree(conts: seq<Continuation>)
    requires WellFormed(conts)
    ensures NewlineFree(WrappedTail(conts))
  {
    if conts != [] {
      assert WellFormed(conts[1..]);
      WrappedTailIsNewlineFree(conts[1..]);
      var c := conts[0];
      assert IsPiece(c.piece) && IsIndent(c.indent);
      assert '\n' !in c.piece && '\n' !in c.indent;
    }
  }

  /** Splitting hex data at any points, with any indentation and line ends, between
      any other lines, gives the same logical lines as the unsplit line. */
  lemma WrappingIsIrrelevant(before: seq<string>, head: string, conts: seq<Continuation>, crs: seq<bool>, cr: bool, after: seq<string>)
    requires NewlineFree(before) && NewlineFree(after) && IsHead(head) && WellFormed(conts) && |crs| == |conts| + 1
    ensures LogicalLines(WrappedText(before, head, conts, crs, after)) == LogicalLines(WholeText(before, head, conts, cr, after))
  {
    hide FeedLines, FeedLine, Unlines, Lines, IsHexValueLine, Wrapped, Ended, NoneIsReturn;
    WrappedLength(head, conts);
    var lines, whole := Ended(Wrapped(head, conts), crs), Ended([head + Payload(conts)], [cr]);
    WrappedIsNewlineFree(head, conts);
    EndedIsNewlineFree(Wrapped(head, conts), crs);
    EndedIsNewlineFree([head + Payload(conts)], [cr]);
    LinesOfUnlines(before + lines + after);
    LinesOfUnlines(before + whole + after);
    FeedLinesAppend(StartOfText, before + lines, after);
    FeedLinesAppend(StartOfText, before, lines);
    FeedLinesAppend(StartOfText, before + whole, after);
    FeedLinesAppend(StartOfText, before, whole);
    if FeedLines(StartOfText, before).Ok? {
      var st := FeedLines(StartOfText, before).value;
      WrappedIsNoReturn(head, conts);
      FeedEnded(st, Wrapped(head, conts), crs);
      FeedEnded(st, [head + Payload(conts)], [cr]);
      FeedWrapped(st, head, conts);
    }
  }

  /** A text with the value wrapped, and the one with the value on one line. */
  function WrappedText(before: seq<string>, head: string, conts: seq<Continuation>, crs: seq<bool>, after: seq<string>): string
    requires |crs| == |conts| + 1
  {
    WrappedLength(head, conts);
    Unlines(before + Ended(Wrapped(head, conts), crs) + after)
  }

  function WholeText(before: seq<string>, head: string, conts: seq<Continuation>, cr: bool, after: seq<string>): string {
    Unlines(before + Ended([head + Payload(conts)], [cr]) + after)
  }

  lemma {:induction false} WrappedLength(head: string, conts: seq<Continuation>)
    ensures |Wrapped(head, conts)| == |conts| + 1 && |WrappedTail(conts)| == |conts|
  {
    if conts != [] { WrappedLength(head, conts[1..]); }
  }

  lemma {:induction false} EndedIsNewlineFree(lines: seq<string>, crs: seq<bool>)
    requires |lines| == |crs| && NewlineFree(lines)
    ensures NewlineFree(Ended(lines, crs))
  {
    if lines != [] {
      assert forall l | l in lines[1..] :: l in lines;
      EndedIsNewlineFree(lines[1..], crs[1..]);
      assert lines[0] in lines;
    }
  }

  lemma WrappedIsNewlineFree(head: string, conts: seq<Continuation>)
    requires IsHead(head) && WellFormed(conts)
    ensures NewlineFree(Wrapped(head, conts)) && NewlineFree([head + Payload(conts)])
  {
    hide WrappedTail, Payload, IsHexValueLine, Trim;
    WrappedTailIsNewlineFree(conts);
    PayloadIsPiece(conts);
    var lines, payload := Wrapped(head, conts), Payload(conts);
    assert forall i | 0 <= i < |payload| :: payload[i] != '\n';
    assert forall l | l in lines :: l == head || l == head + "\\" || l in WrappedTail(conts);
  }

  /** So files that decode to such texts parse the same, to the same snapshot or the
      same error, whatever their encoding. */
  lemma WrappedFileParsesTheSame(wrapped: string, whole: string,
                                 before: seq<string>, head: string, conts: seq<Continuation>, crs: seq<bool>, cr: bool, after: seq<string>)
    requires NewlineFree(before) && NewlineFree(after) && IsHead(head) && WellFormed(conts) && |crs| == |conts| + 1
    requires DecodeRegText(wrapped) == Ok(WrappedText(before, head, conts, crs, after))
    requires DecodeRegText(whole) == Ok(WholeText(before, head, conts, cr, after))
    ensures ParseReg(wrapped) == ParseReg(whole)
  {
    hide LogicalLines, ParseLogical, WrappedText, WholeText, DecodeRegText, IsHead;
    WrappingIsIrrelevant(before, head, conts, crs, cr, after);
  }

  const Utf8Mark := [Octet(0xef), Octet(0xbb), Octet(0xbf)]

  predicate HasMark(content: string) {
    StartsWithOctets(content, [0xff, 0xfe]) || StartsWithOctets(content, [0xfe, 0xff]) || StartsWithOctets(content, [0xef, 0xbb, 0xbf])
  }

  /** After a UTF-8 mark every text is read as it is, and without a mark exactly the
      texts that do not begin like one. */
  lemma Utf8Decodes(text: string)
    ensures DecodeRegText(Utf8Mark + text) == Ok(text)
    ensures DecodeRegText(text) == Ok(text) <==> !HasMark(text)
  {
    hide DecodeUnits;
    MarkBegins(text);
    assert (Utf8Mark + text)[3..] == text;
    if HasMark(text) { MarkIsNotText(text); }
  }

  lemma MarkBegins(text: string)
    ensures StartsWithOctets(Utf8Mark + text, [0xef, 0xbb, 0xbf])
    ensures !StartsWithOctets(Utf8Mark + text, [0xff, 0xfe]) && !StartsWithOctets(Utf8Mark + text, [0xfe, 0xff])
  {
    assert [0xff, 0xfe][0] == 0xff && [0xfe, 0xff][0] == 0xfe;
  }

  /** A text that begins with a mark is not read as it is: decoding UTF-16 never
      yields the octets of a UTF-16 mark. */
  lemma MarkIsNotText(text: string)
    requires HasMark(text)
    ensures DecodeRegText(text) != Ok(text)
  {
    hide DecodeUnits;
    if StartsWithOctets(text, [0xff, 0xfe]) {
      assert [0xff, 0xfe][0] == 0xff;
      if (|text| - 2) % 2 == 0 { DecodedOctets(text[2..]); }
    }
  }

  lemma {:induction false} DecodedOctets(units: string)
    requires |units| % 2 == 0
    ensures DecodeUnits(units).Some? ==> forall i | 0 <= i < |DecodeUnits(units).value| :: DecodeUnits(units).value[i] as int <= 0xef
    decreases |units|
  {
    if units != "" {
      DecodedOctets(units[2..]);
      Utf8Octets(units[0] as int + 256 * units[1] as int);
    }
  }

  lemma Utf8Octets(codePoint: nat)
    ensures Utf8(codePoint).Some? ==> forall i | 0 <= i < |Utf8(codePoint).value| :: Utf8(codePoint).value[i] as int <= 0xef
  {
  }

  /** The file with a UTF-8 mark and the one without, in any combination. */
  lemma WrappedUtf8FileParsesTheSame(marked: bool, alsoMarked: bool,
                                     before: seq<string>, head: string, conts: seq<Continuation>, crs: seq<bool>, cr: bool, after: seq<string>)
    requires NewlineFree(before) && NewlineFree(after) && IsHead(head) && WellFormed(conts) && |crs| == |conts| + 1
    requires marked || !HasMark(WrappedText(before, head, conts, crs, after))
    requires alsoMarked || !HasMark(WholeText(before, head, conts, cr, after))
    ensures var wrapped, whole := WrappedText(before, head, conts, crs, after), WholeText(before, head, conts, cr, after);
            ParseReg(if marked then Utf8Mark + wrapped else wrapped) == ParseReg(if alsoMarked then Utf8Mark + whole else whole)
  {
    hide WrappedText, WholeText, DecodeRegText, IsHead, HasMark, ParseReg;
    var wrapped, whole := WrappedText(before, head, conts, crs, after), WholeText(before, head, conts, cr, after);
    Utf8Decodes(wrapped);
    Utf8Decodes(whole);
    WrappedFileParsesTheSame(if marked then Utf8Mark + wrapped else wrapped, if alsoMarked then Utf8Mark + whole else whole,
                             before, head, conts, crs, cr, after);
  }
}
