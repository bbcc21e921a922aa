/** Blanks between the octets of wrapped hex data: the logical lines then differ from
    those of the unwrapped file, but what is parsed does not. */
module RegBlanks {
  import opened Prelude
  import opened Text
  import opened RegText
  import opened RegLines
  import opened RegSnapshot
  import opened RegWrapping

  /** Data may hold blanks anywhere; it need not be valid hex. */
  predicate IsData(s: string) {
    forall i | 0 <= i < |s| :: s[i] != '\\' && s[i] != '\n' && s[i] != '-' && s[i] != ']'
  }

  predicate HoldData(conts: seq<Continuation>) {
    forall i | 0 <= i < |conts| :: IsIndent(conts[i].indent) && IsData(conts[i].piece)
  }

  /** What the line loop keeps of the pieces. */
  function Kept(conts: seq<Continuation>): string {
    if conts == [] then ""
    else if |conts| == 1 then Trim(conts[0].piece)
    else TrimStart(conts[0].piece) + Kept(conts[1..])
  }

  // ----- trimming takes off only fillers

  lemma {:induction false} CompactTrimStart(s: string)
    ensures Compact(TrimStart(s)) == Compact(s)
  {
    if s != "" && IsSpace(s[0]) {
      CompactTrimStart(s[1..]);
      assert "" + Compact(s[1..]) == Compact(s[1..]);
    }
  }

  lemma {:induction false} CompactTrimEnd(s: string)
    ensures Compact(TrimEnd(s)) == Compact(s)
  {
    if s != "" && IsSpace(s[|s| - 1]) {
      var n := |s| - 1;
      CompactTrimEnd(s[..n]);
      CompactAppend(s[..n], [s[n]]);
      assert s[..n] + [s[n]] == s;
      assert Compact([s[n]]) == "" + Compact("") == "";
      assert Compact(s[..n]) + "" == Compact(s[..n]);
    }
  }

  lemma {:induction false} CompactKept(conts: seq<Continuation>)
    ensures Compact(Kept(conts)) == Compact(Payload(conts))
  {
    hide Compact, TrimStart, TrimEnd;
    if conts != [] {
      var piece := conts[0].piece;
      CompactTrimStart(piece);
      if |conts| == 1 {
        CompactTrimEnd(TrimStart(piece));
        assert Payload(conts) == piece + "" == piece;
      } else {
        CompactKept(conts[1..]);
        CompactAppend(TrimStart(piece), Kept(conts[1..]));
        CompactAppend(piece, Payload(conts[1..]));
      }
    }
  }

  lemma DataOfPart(s: string, from: nat, to: nat)
    requires IsData(s) && from <= to <= |s|
    ensures IsData(s[from..to])
  {
  }

  lemma TrimmedIsData(s: string)
    requires IsData(s)
    ensures IsData(TrimStart(s)) && IsData(TrimEnd(s)) && IsData(Trim(s))
  {
    hide TrimStart, TrimEnd, IsData;
    DataOfPart(s, |s| - |TrimStart(s)|, |s|);
    assert s[|s| - |TrimStart(s)|..|s|] == TrimStart(s);
    DataOfPart(s, 0, |TrimEnd(s)|);
    assert s[0..|TrimEnd(s)|] == TrimEnd(s);
    DataOfPart(TrimStart(s), 0, |Trim(s)|);
    assert TrimStart(s)[0..|Trim(s)|] == Trim(s);
  }

  lemma {:induction false} KeptIsData(conts: seq<Continuation>)
    requires HoldData(conts)
    ensures IsData(Kept(conts)) && IsData(Payload(conts))
  {
    hide TrimStart, TrimEnd;
    if conts != [] {
      assert IsData(conts[0].piece) && HoldData(conts[1..]);
      TrimmedIsData(conts[0].piece);
      KeptIsData(conts[1..]);
    }
  }

  // ----- the lines

  lemma {:induction false} TrimStartBlank(indent: string, rest: string)
    requires forall i | 0 <= i < |indent| :: IsSpace(indent[i])
    ensures TrimStart(indent + rest) == TrimStart(rest)
  {
    if indent == "" {
      assert indent + rest == rest;
    } else {
      assert (indent + rest)[1..] == indent[1..] + rest;
      TrimStartBlank(indent[1..], rest);
    }
  }

  lemma {:induction false} SkippedAreBlank(s: string)
    ensures forall i | 0 <= i < |s| - |TrimStart(s)| :: IsSpace(s[i])
  {
    if s != "" && IsSpace(s[0]) {
      SkippedAreBlank(s[1..]);
      assert forall i | 1 <= i < |s| :: s[i] == s[1..][i - 1];
    }
  }

  lemma NothingToTrim(s: string)
    requires s != "" && !IsSpace(s[0])
    ensures TrimStart(s) == s
  {
  }

  lemma TrimStartThen(s: string, tail: string)
    requires TrimStart(s) != "" || (tail != "" && !IsSpace(tail[0]))
    ensures TrimStart(s + tail) == TrimStart(s) + tail
  {
    hide IsSpace;
    SkippedAreBlank(s);
    var t := TrimStart(s);
    hide TrimStart;
    var blank := s[..|s| - |t|];
    assert s == blank + t;
    Associative(blank, t, tail);
    TrimStartBlank(blank, t + tail);
    assert (t + tail)[0] == if t != "" then t[0] else tail[0];
    NothingToTrim(t + tail);
  }

  lemma {:induction false} TrimEndAfter(s: string, tail: string)
    requires s == "" || !IsSpace(s[|s| - 1])
    ensures TrimEnd(s + tail) == s + TrimEnd(tail)
  {
    if tail == "" {
      assert s + tail == s;
    } else {
      var n := |tail| - 1;
      assert (s + tail)[|s + tail| - 1] == tail[n];
      if IsSpace(tail[n]) {
        assert (s + tail)[..|s + tail| - 1] == s + tail[..n];
        TrimEndAfter(s, tail[..n]);
      }
    }
  }

  lemma FirstBlank(raw: string)
    requires raw != "" && (raw[0] == ' ' || raw[0] == '\t')
    ensures var l := StripReturn(raw); l == "" || l[0] == ' ' || l[0] == '\t'
  {
  }

  lemma TrimPiece(c: Continuation)
    requires IsIndent(c.indent) && IsData(c.piece)
    ensures Trim(StripReturn(c.indent + c.piece)) == Trim(c.piece)
    ensures Trim(StripReturn(c.indent + (c.piece + "\\"))) == TrimStart(c.piece) + "\\"
  {
    hide TrimStart, StripReturn;
    TrimStripped(c.indent + c.piece);
    TrimStripped(c.indent + (c.piece + "\\"));
    TrimStartBlank(c.indent, c.piece);
    TrimStartBlank(c.indent, c.piece + "\\");
    TrimStartThen(c.piece, "\\");
  }

  lemma ContinueBlank(st: LineState, c: Continuation, last: bool)
    requires st.continuing && IsIndent(c.indent) && IsData(c.piece)
    requires st.pending != "" && st.pending[|st.pending| - 1] != '\\'
    ensures FeedLine(st, c.indent + c.piece + if last then "" else "\\") ==
            Ok(if last then LineState(st.lines + [st.pending + Trim(c.piece)], "", false)
               else LineState(st.lines, st.pending + TrimStart(c.piece), true))
  {
    hide IsHexValueLine, TrimStart, TrimEnd, StripReturn;
    TrimPiece(c);
    TrimmedIsData(c.piece);
    Associative(c.indent, c.piece, "\\");
    assert c.indent + c.piece + "" == c.indent + c.piece;
    FirstBlank(c.indent + c.piece + if last then "" else "\\");
    if last {
      LastOfAppend(st.pending, Trim(c.piece));
    } else {
      BackslashIsCut(st.pending, TrimStart(c.piece));
    }
  }

  lemma {:induction false} FeedBlankTail(st: LineState, conts: seq<Continuation>)
    requires st.continuing && HoldData(conts) && conts != []
    requires st.pending != "" && st.pending[|st.pending| - 1] != '\\'
    ensures FeedLines(st, WrappedTail(conts)) == Ok(LineState(st.lines + [st.pending + Kept(conts)], "", false))
    decreases |conts|
  {
    hide FeedLine, TrimStart, TrimEnd;
    var c, tail := conts[0], WrappedTail(conts);
    assert IsIndent(c.indent) && IsData(c.piece);
    TrimmedIsData(c.piece);
    FeedStep(st, tail);
    assert tail[1..] == WrappedTail(conts[1..]);
    ContinueBlank(st, c, |conts| == 1);
    if |conts| == 1 {
      assert c.indent + c.piece + "" == c.indent + c.piece;
      assert tail[0] == c.indent + c.piece && tail[1..] == [];
      FeedStep(LineState(st.lines + [st.pending + Trim(c.piece)], "", false), []);
    } else {
      var next := LineState(st.lines, st.pending + TrimStart(c.piece), true);
      LastOfAppend(st.pending, TrimStart(c.piece));
      assert HoldData(conts[1..]);
      FeedBlankTail(next, conts[1..]);
      Associative(st.pending, TrimStart(c.piece), Kept(conts[1..]));
    }
  }

  /** The line that wrapped or unwrapped data end up on, or the error. */
  function Read(st: LineState, head: string, data: string): Result<LineState, RegError> {
    if IsMisplaced(st, head) then Err(ContinuationInvalid)
    else Ok(LineState(st.lines + [Pending(st) + Trim(head) + data], "", false))
  }

  lemma FeedBlanks(st: LineState, head: string, conts: seq<Continuation>)
    requires IsHead(head) && HoldData(conts)
    ensures FeedLines(st, Wrapped(head, conts)) == Read(st, head, Kept(conts))
  {
    hide FeedLine, FeedLines, IsHead, Trim, TrimStart, TrimEnd, IsMisplaced, HoldData, IsHexValueLine;
    if conts == [] {
      FeedWhole(st, head, "");
      assert head + "" == head && Wrapped(head, conts) == [head];
      Associative(Pending(st), Trim(head), "");
    } else {
      var lines := Wrapped(head, conts);
      HeadLine(st, head);
      FeedStep(st, lines);
      assert lines[1..] == WrappedTail(conts);
      if !IsMisplaced(st, head) {
        FeedBlankTail(LineState(st.lines, Pending(st) + Trim(head), true), conts);
      }
    }
  }

  lemma TrimWhole(head: string, payload: string)
    requires head != "" && !IsSpace(head[|head| - 1])
    ensures Trim(StripReturn(head + payload)) == Trim(head) + TrimEnd(payload)
    ensures Trim(head) != "" && Trim(head)[|Trim(head)| - 1] == head[|head| - 1]
  {
    hide TrimStart, TrimEnd, StripReturn;
    TrimOfHead(head);
    TrimStartOfHead(head, payload);
    TrimEndAfter(TrimStart(head), payload);
    TrimStripped(head + payload);
  }

  lemma WholeBlankLine(st: LineState, head: string, payload: string)
    requires IsHead(head) && IsData(payload)
    ensures FeedLine(st, head + payload) == Read(st, head, TrimEnd(payload))
  {
    hide IsHexValueLine, Trim, TrimStart, TrimEnd, StripReturn;
    TrimWhole(head, payload);
    TrimmedIsData(payload);
    StripKeepsFirst(head, payload);
    LastOfAppend(Trim(head), TrimEnd(payload));
    LastOfEither(Pending(st), Trim(head) + TrimEnd(payload));
    Associative(Pending(st), Trim(head), TrimEnd(payload));
    assert "" + (Trim(head) + TrimEnd(payload)) == Trim(head) + TrimEnd(payload);
  }

  lemma WholeBlanks(st: LineState, head: string, payload: string)
    requires IsHead(head) && IsData(payload)
    ensures FeedLines(st, [head + payload]) == Read(st, head, TrimEnd(payload))
  {
    hide FeedLine, FeedLines, IsHead, IsData, Trim, TrimEnd, IsMisplaced;
    WholeBlankLine(st, head, payload);
    FeedStep(st, [head + payload]);
    assert [head + payload][1..] == [];
    FeedStep(LineState(st.lines + [Pending(st) + Trim(head) + TrimEnd(payload)], "", false), []);
  }

  lemma StripKeepsFirst(head: string, rest: string)
    requires head != "" && !IsSpace(head[|head| - 1])
    ensures var l := StripReturn(head + rest); l != "" && l[0] == head[0]
  {
    SpacesIncludeReturn();
    assert (head + rest)[0] == head[0];
    if rest == "" { assert head + rest == head; }
  }

  // ----- the pending value is a hex value

  predicate IsHexText(value: string) {
    StartsWith(value, "hex:") || StartsWith(value, "hex(2):") || StartsWith(value, "hex(7):") || StartsWith(value, "hex(b):")
  }

  lemma {:induction false} TrimEndPrefix(s: string, x: string)
    ensures TrimEnd(s) <= TrimEnd(s + x)
    decreases |x|
  {
    if x == "" {
      assert s + x == s;
    } else {
      var n := |x| - 1;
      assert (s + x)[|s + x| - 1] == x[n] && (s + x)[..|s + x| - 1] == s + x[..n];
      if IsSpace(x[n]) {
        TrimEndPrefix(s, x[..n]);
      } else {
        assert TrimEnd(s + x) == s + x;
        assert (s + x)[..|TrimEnd(s)|] == TrimEnd(s);
      }
    }
  }

  lemma PrefixStays(value: string, more: string, prefix: string)
    requires value <= more && StartsWith(value, prefix)
    ensures StartsWith(more, prefix)
  {
    assert more[..|prefix|] == value[..|prefix|];
  }

  /** Whatever follows, hex data stays hex data: trimmed, it begins as before. */
  lemma HexTextGrows(d: string, x: string)
    requires IsHexText(Trim(d))
    ensures TrimStart(d) != "" && TrimStart(d + x) == TrimStart(d) + x && Trim(d) <= Trim(d + x) && IsHexText(Trim(d + x))
  {
    hide StartsWith, TrimStart, TrimEnd;
    NotBlank(Trim(d));
    TrimStartThen(d, x);
    TrimEndPrefix(TrimStart(d), x);
    if StartsWith(Trim(d), "hex:") { PrefixStays(Trim(d), Trim(d + x), "hex:"); }
    if StartsWith(Trim(d), "hex(2):") { PrefixStays(Trim(d), Trim(d + x), "hex(2):"); }
    if StartsWith(Trim(d), "hex(7):") { PrefixStays(Trim(d), Trim(d + x), "hex(7):"); }
    if StartsWith(Trim(d), "hex(b):") { PrefixStays(Trim(d), Trim(d + x), "hex(b):"); }
  }

  lemma NotBlank(value: string)
    requires IsHexText(value)
    ensures |value| >= 4
  {
  }

  lemma EqualsStays(h: string, x: string)
    requires IndexOf(h, '=') >= 0
    ensures IndexOf(h + x, '=') == IndexOf(h, '=')
    ensures (h + x)[IndexOf(h, '=') + 1..] == h[IndexOf(h, '=') + 1..] + x && (h + x)[..IndexOf(h, '=')] == h[..IndexOf(h, '=')]
  {
    hide IndexOf;
    IndexOfIs(h + x, '=', IndexOf(h, '='));
  }

  lemma HexLineGrows(h: string, x: string)
    requires IsHexValueLine(h)
    ensures IsHexValueLine(h + x)
  {
    hide IndexOf, Trim, StartsWith;
    EqualsStays(h, x);
    HexTextGrows(h[IndexOf(h, '=') + 1..], x);
  }

  lemma {:induction false} TrimEndOfCut(s: string, prefix: string)
    requires s != "" && s[|s| - 1] == '\\' && StartsWith(s, prefix) && prefix != "" && '\\' !in prefix && !IsSpace(prefix[|prefix| - 1])
    ensures StartsWith(TrimEnd(s[..|s| - 1]), prefix)
  {
    var n := |s| - 1;
    var cut := s[..n];
    assert cut[..|prefix|] == prefix && cut == prefix + cut[|prefix|..];
    TrimEndAfter(prefix, cut[|prefix|..]);
  }

  /** Cutting off a backslash too. */
  lemma HexTextCut(d: string)
    requires IsHexText(Trim(d)) && d != "" && d[|d| - 1] == '\\'
    ensures IsHexText(Trim(d[..|d| - 1]))
  {
    hide StartsWith, TrimStart, TrimEnd;
    NotBlank(Trim(d));
    var n := |d| - 1;
    var t := TrimStart(d);
    assert t[|t| - 1] == '\\';
    NoSpace();
    TrimEndKeeps(t);
    assert d[..n] + "\\" == d;
    TrimStartThen(d[..n], "\\");
    assert TrimStart(d[..n]) == t[..|t| - 1];
    if StartsWith(t, "hex:") { TrimEndOfCut(t, "hex:"); }
    if StartsWith(t, "hex(2):") { TrimEndOfCut(t, "hex(2):"); }
    if StartsWith(t, "hex(7):") { TrimEndOfCut(t, "hex(7):"); }
    if StartsWith(t, "hex(b):") { TrimEndOfCut(t, "hex(b):"); }
  }

  lemma NoSpace()
    ensures !IsSpace('\\') && !IsSpace(':')
  {
  }

  lemma HexLineCut(l: string)
    requires IsHexValueLine(l) && EndsWith(l, '\\')
    ensures IsHexValueLine(l[..|l| - 1])
  {
    hide IndexOf, Trim, StartsWith;
    var n, e := |l| - 1, IndexOf(l, '=');
    assert l[e] == '=' && e < n;
    IndexOfIs(l[..n], '=', e);
    var d := l[e + 1..];
    assert l[..n][e + 1..] == d[..|d| - 1];
    HexTextCut(d);
  }

  predicate PendingIsHex(st: LineState) {
    st.continuing ==> IsHexValueLine(st.pending)
  }

  lemma FeedKeepsHex(st: LineState, raw: string)
    requires PendingIsHex(st) && FeedLine(st, raw).Ok?
    ensures PendingIsHex(FeedLine(st, raw).value)
  {
    hide IsHexValueLine, Trim, StripReturn;
    if st.continuing {
      var l := st.pending + Trim(StripReturn(raw));
      HexLineGrows(st.pending, Trim(StripReturn(raw)));
      if EndsWith(l, '\\') { HexLineCut(l); }
    }
  }

  lemma {:induction false} FeedAllKeepsHex(st: LineState, raws: seq<string>)
    requires PendingIsHex(st) && FeedLines(st, raws).Ok?
    ensures PendingIsHex(FeedLines(st, raws).value)
    decreases |raws|
  {
    hide FeedLine, PendingIsHex;
    if raws != [] {
      FeedKeepsHex(st, raws[0]);
      FeedAllKeepsHex(FeedLine(st, raws[0]).value, raws[1..]);
    }
  }

  // ----- parsing

  lemma {:induction false} CompactPrefix(u: string, v: string, n: nat)
    requires n <= |u| && n <= |v| && u[..n] == v[..n] && Compact(u) == Compact(v)
    ensures Compact(u[n..]) == Compact(v[n..])
  {
    hide Compact;
    CompactAppend(u[..n], u[n..]);
    CompactAppend(v[..n], v[n..]);
    assert u[..n] + u[n..] == u && v[..n] + v[n..] == v;
    var a, b, c := Compact(u[..n]), Compact(u[n..]), Compact(v[n..]);
    assert (a + b)[|a|..] == b && (a + c)[|a|..] == c;
  }

  /** The prefixes of the other data forms are not the beginning of hex data. */
  lemma OnlyHex(u: string)
    requires IsHexText(u)
    ensures !Quoted(u) && !StartsWith(u, "dword:")
    ensures StartsWith(u, "hex:") ==> !StartsWith(u, "hex(b):") && !StartsWith(u, "hex(2):") && !StartsWith(u, "hex(7):")
  {
    hide StartsWith;
    HexBegins(u);
    if StartsWith(u, "dword:") { PrefixAt(u, "dword:", 0); }
    if StartsWith(u, "hex(b):") { PrefixAt(u, "hex(b):", 3); }
    if StartsWith(u, "hex(2):") { PrefixAt(u, "hex(2):", 3); }
    if StartsWith(u, "hex(7):") { PrefixAt(u, "hex(7):", 3); }
  }

  lemma PrefixAt(u: string, prefix: string, k: nat)
    requires StartsWith(u, prefix) && k < |prefix|
    ensures k < |u| && u[k] == prefix[k]
  {
    assert u[..|prefix|][k] == u[k];
  }

  lemma SamePrefix(u: string, v: string, n: nat, prefix: string)
    requires n <= |u| && n <= |v| && u[..n] == v[..n] && |prefix| <= n
    ensures StartsWith(u, prefix) <==> StartsWith(v, prefix)
  {
    assert u[..|prefix|] == u[..n][..|prefix|] == v[..|prefix|];
  }

  lemma DataByKind(u: string, v: string, n: nat)
    requires IsHexText(u) && IsHexText(v) && 4 <= n <= |u| && n <= |v| && u[..n] == v[..n]
    requires n == if StartsWith(u, "hex:") then 4 else 7
    requires Compact(u) == Compact(v)
    ensures ParseData(u) == ParseData(v)
  {
    hide Compact, HexPairs, StartsWith, Quoted;
    CompactPrefix(u, v, n);
    OnlyHex(u);
    OnlyHex(v);
    SamePrefix(u, v, n, "hex:");
    if n == 7 {
      SamePrefix(u, v, n, "hex(b):");
      SamePrefix(u, v, n, "hex(2):");
      SamePrefix(u, v, n, "hex(7):");
    }
  }

  lemma HexBegins(u: string)
    requires IsHexText(u)
    ensures |u| >= 4 && u[0] == 'h' && (u[3] == ':' || u[3] == '(') && (u[3] == '(' ==> |u| >= 7)
    ensures u[3] == ':' <==> StartsWith(u, "hex:")
  {
    if StartsWith(u, "hex:") { assert u[..4][0] == 'h' && u[..4][3] == ':'; }
    if StartsWith(u, "hex(2):") { assert u[..7][0] == 'h' && u[..7][3] == '('; }
    if StartsWith(u, "hex(7):") { assert u[..7][0] == 'h' && u[..7][3] == '('; }
    if StartsWith(u, "hex(b):") { assert u[..7][0] == 'h' && u[..7][3] == '('; }
  }

  lemma SameData(d: string, x: string, y: string)
    requires IsHexText(Trim(d)) && Compact(x) == Compact(y)
    ensures ParseData(Trim(d + x)) == ParseData(Trim(d + y))
  {
    hide Compact, TrimStart, TrimEnd, ParseData, StartsWith;
    HexTextGrows(d, x);
    HexTextGrows(d, y);
    var u, v, t := Trim(d + x), Trim(d + y), Trim(d);
    CompactTrimEnd(TrimStart(d) + x);
    CompactTrimEnd(TrimStart(d) + y);
    CompactAppend(TrimStart(d), x);
    CompactAppend(TrimStart(d), y);
    HexBegins(t);
    var n := if StartsWith(t, "hex:") then 4 else 7;
    assert u[..n] == t[..n] == v[..n];
    SamePrefix(u, t, n, "hex:");
    DataByKind(u, v, n);
  }

  lemma DeleteStays(h: string, x: string)
    requires IsData(x)
    ensures HasDelete(h + x) <==> HasDelete(h)
  {
    if HasDelete(h) {
      var i :| 0 <= i < |h| - 1 && h[i] == '=' && h[i + 1] == '-';
      assert (h + x)[i] == '=' && (h + x)[i + 1] == '-';
    }
    if HasDelete(h + x) {
      var i :| 0 <= i < |h + x| - 1 && (h + x)[i] == '=' && (h + x)[i + 1] == '-';
      assert h[i] == '=' && h[i + 1] == '-';
    }
  }

  lemma HeadersHaveNoEquals(h: string)
    requires '=' in h
    ensures h != Header && h != OldHeader
  {
    assert '=' !in Header && '=' !in OldHeader;
  }

  lemma LineShape(h: string, x: string)
    requires IsHexValueLine(h) && IsData(x) && h[|h| - 1] != ']'
    ensures IsSkipped(h + x) <==> h[0] == ';'
    ensures StartsWith(h + x, "[-") <==> StartsWith(h, "[-")
    ensures h + x != "" && (h + x)[0] == h[0] && (h + x)[|h + x| - 1] != ']'
  {
    hide IsHexValueLine;
    HexLineIsLong(h);
    HeadersHaveNoEquals(h + x);
    LastOfAppend(h, x);
    assert (h + x)[..2] == h[..2];
  }

  lemma HexLineIsLong(h: string)
    requires IsHexValueLine(h)
    ensures |h| >= 2 && '=' in h
  {
    hide TrimStart, TrimEnd, IndexOf, StartsWith;
    var d := h[IndexOf(h, '=') + 1..];
    NotBlank(Trim(d));
    assert |Trim(d)| <= |d|;
  }

  /** Two lines whose data differ only in blanks and commas parse the same. */
  lemma SameValue(p: Parsed, h: string, x: string, y: string)
    requires IsHexValueLine(h) && h[|h| - 1] != ']' && IsData(x) && IsData(y) && Compact(x) == Compact(y)
    ensures ParseLine(p, h + x) == ParseLine(p, h + y)
  {
    hide Compact, Trim, ParseData, IndexOf, HasDelete, IsSkipped, StartsWith, ParseName, ParseSection;
    LineShape(h, x);
    LineShape(h, y);
    DeleteStays(h, x);
    DeleteStays(h, y);
    EqualsStays(h, x);
    EqualsStays(h, y);
    SameData(h[IndexOf(h, '=') + 1..], x, y);
  }

  lemma {:induction false} SameLines(p: Parsed, before: seq<string>, l: string, l': string, after: seq<string>)
    requires forall q :: ParseLine(q, l) == ParseLine(q, l')
    ensures ParseLines(p, before + [l] + after) == ParseLines(p, before + [l'] + after)
    decreases |before|
  {
    hide ParseLine;
    var a, b := before + [l] + after, before + [l'] + after;
    if before == [] {
      assert a[0] == l && b[0] == l' && a[1..] == after == b[1..];
    } else {
      assert a[0] == b[0] == before[0] && a[1..] == before[1..] + [l] + after && b[1..] == before[1..] + [l'] + after;
      var next := ParseLine(p, before[0]);
      if next.Ok? { SameLines(next.value, before[1..], l, l', after); }
    }
  }

  // ----- whole files

  /** The lines read before do not matter for what is read next. */
  lemma {:induction false} FeedAfter(lines: seq<string>, st: LineState, raws: seq<string>)
    ensures FeedLines(st.(lines := lines + st.lines), raws) ==
            match FeedLines(st, raws) case Ok(r) => Ok(r.(lines := lines + r.lines)) case Err(e) => Err(e)
    decreases |raws|
  {
    hide Trim, StripReturn, IsHexValueLine;
    if raws != [] {
      var next := FeedLine(st, raws[0]);
      if next.Ok? {
        if next.value.lines != st.lines {
          var l := next.value.lines[|st.lines|];
          assert lines + st.lines + [l] == lines + (st.lines + [l]);
        }
        FeedAfter(lines, next.value, raws[1..]);
      }
    }
  }

  lemma SameAfter(p: Parsed, lines: seq<string>, l: string, l': string, after: seq<string>)
    requires forall q :: ParseLine(q, l) == ParseLine(q, l')
    ensures var a, b := FeedLines(LineState(lines + [l], "", false), after), FeedLines(LineState(lines + [l'], "", false), after);
            if a.Ok? then b.Ok? && a.value.continuing == b.value.continuing && ParseLines(p, a.value.lines) == ParseLines(p, b.value.lines)
            else a == b
  {
    hide FeedLines, ParseLines, ParseLine;
    var st := LineState([], "", false);
    assert lines + [l] + [] == lines + [l] && lines + [l'] + [] == lines + [l'];
    FeedAfter(lines + [l], st, after);
    FeedAfter(lines + [l'], st, after);
    if FeedLines(st, after).Ok? { SameLines(p, lines, l, l', FeedLines(st, after).value.lines); }
  }

  function ParseText(text: string): Result<Snapshot, RegError> {
    match LogicalLines(text)
    case Err(e) => Err(e)
    case Ok(lines) => ParseLogical(lines)
  }

  lemma WrappedTailIsOneLine(conts: seq<Continuation>)
    requires HoldData(conts)
    ensures NewlineFree(WrappedTail(conts)) && NoneIsReturn(WrappedTail(conts))
  {
    if conts != [] {
      assert HoldData(conts[1..]);
      WrappedTailIsOneLine(conts[1..]);
      var c := conts[0];
      assert IsData(c.piece) && IsIndent(c.indent);
      assert '\n' !in c.piece && '\n' !in c.indent;
      assert WrappedTail(conts)[0][0] == c.indent[0] && "\r"[0] == '\r';
    }
  }

  lemma LinesAreWhole(head: string, conts: seq<Continuation>)
    requires IsHead(head) && HoldData(conts)
    ensures NewlineFree(Wrapped(head, conts)) && NewlineFree([head + Payload(conts)])
    ensures NoneIsReturn(Wrapped(head, conts)) && NoneIsReturn([head + Payload(conts)])
  {
    hide WrappedTail, Payload, IsHexValueLine, Trim;
    WrappedTailIsOneLine(conts);
    KeptIsData(conts);
    SpacesIncludeReturn();
    var lines, payload := Wrapped(head, conts), Payload(conts);
    assert forall i | 0 <= i < |payload| :: payload[i] != '\n';
    assert forall l | l in lines :: l == head || l == head + "\\" || l in WrappedTail(conts);
    assert lines[0][0] == head[0] && (head + payload)[0] == head[0] && "\r"[0] == '\r';
    if |head| == 1 { assert !IsSpace(head[0]); }
    HeadIsNoReturn(head);
  }

  lemma HeadIsNoReturn(head: string)
    requires IsHead(head)
    ensures |head| >= 2
  {
    hide TrimStart, TrimEnd;
    HexLineIsLong(Trim(head));
    assert |Trim(head)| <= |head|;
  }

  /** What a file says does not depend on how its hex data is wrapped, nor on the
      blanks in it: the two texts parse to the same snapshot or the same error. */
  lemma BlanksAreIrrelevant(before: seq<string>, head: string, conts: seq<Continuation>, crs: seq<bool>, cr: bool, after: seq<string>)
    requires NewlineFree(before) && NewlineFree(after) && |crs| == |conts| + 1
    requires IsHead(head) && head[|head| - 1] != ']' && HoldData(conts)
    ensures ParseText(WrappedText(before, head, conts, crs, after)) == ParseText(WholeText(before, head, conts, cr, after))
  {
    hide FeedLines, FeedLine, Unlines, Lines, IsHexValueLine, Wrapped, Ended, NoneIsReturn, Trim, ParseLines, ParseLine;
    WrappedLength(head, conts);
    LinesAreWhole(head, conts);
    var lines, whole := Ended(Wrapped(head, conts), crs), Ended([head + Payload(conts)], [cr]);
    EndedIsNewlineFree(Wrapped(head, conts), crs);
    EndedIsNewlineFree([head + Payload(conts)], [cr]);
    LinesOfUnlines(before + lines + after);
    LinesOfUnlines(before + whole + after);
    FeedLinesAppend(StartOfText, before + lines, after);
    FeedLinesAppend(StartOfText, before, lines);
    FeedLinesAppend(StartOfText, before + whole, after);
    FeedLinesAppend(StartOfText, before, whole);
    if FeedLines(StartOfText, before).Ok? {
      var st := FeedLines(StartOfText, before).value;
      FeedEnded(st, Wrapped(head, conts), crs);
      FeedEnded(st, [head + Payload(conts)], [cr]);
      FeedBlanks(st, head, conts);
      KeptIsData(conts);
      WholeBlanks(st, head, Payload(conts));
      if !IsMisplaced(st, head) {
        FeedAllKeepsHex(StartOfText, before);
        SameLineParses(st, head, conts);
        var h := Pending(st) + Trim(head);
        SameAfter(NothingParsed, st.lines, h + Kept(conts), h + TrimEnd(Payload(conts)), after);
      }
    }
  }

  lemma SameLineParses(st: LineState, head: string, conts: seq<Continuation>)
    requires PendingIsHex(st) && IsHead(head) && head[|head| - 1] != ']' && HoldData(conts)
    ensures var h := Pending(st) + Trim(head);
            forall p :: ParseLine(p, h + Kept(conts)) == ParseLine(p, h + TrimEnd(Payload(conts)))
  {
    hide IsHexValueLine, Trim, TrimEnd, Kept, Payload, Compact, ParseLine, IsData, HoldData;
    var h := Pending(st) + Trim(head);
    TrimWhole(head, "");
    LastOfEither(Pending(st), Trim(head));
    if st.continuing { HexLineGrows(st.pending, Trim(head)); } else { assert h == Trim(head); }
    CompactKept(conts);
    CompactTrimEnd(Payload(conts));
    KeptIsData(conts);
    TrimmedIsData(Payload(conts));
    forall p ensures ParseLine(p, h + Kept(conts)) == ParseLine(p, h + TrimEnd(Payload(conts))) {
      SameValue(p, h, Kept(conts), TrimEnd(Payload(conts)));
    }
  }

  /** So for files, in whatever encodings. */
  lemma BlankFilesParseTheSame(wrapped: string, whole: string,
                               before: seq<string>, head: string, conts: seq<Continuation>, crs: seq<bool>, cr: bool, after: seq<string>)
    requires NewlineFree(before) && NewlineFree(after) && |crs| == |conts| + 1
    requires IsHead(head) && head[|head| - 1] != ']' && HoldData(conts)
    requires DecodeRegText(wrapped) == Ok(WrappedText(before, head, conts, crs, after))
    requires DecodeRegText(whole) == Ok(WholeText(before, head, conts, cr, after))
    ensures ParseReg(wrapped) == ParseReg(whole)
  {
    hide LogicalLines, ParseLogical, WrappedText, WholeText, DecodeRegText, IsHead, HoldData;
    BlanksAreIrrelevant(before, head, conts, crs, cr, after);
  }
}
