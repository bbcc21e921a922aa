/** The two encodings the parser accepts, against the standards that define them. */
module RegUnicode {
  import opened Prelude
  import opened Text
  import opened RegText
  import opened RegLines
  import opened RegSnapshot
  import opened RegWrapping

  predicate IsTail(c: char) {
    0x80 <= c as int < 0xc0
  }

  predicate IsSurrogate(codePoint: nat) {
    0xd800 <= codePoint <= 0xdfff
  }

  /** The bit patterns of section 3 of RFC 3629, for one to three octets: the
      shortest form only, and no surrogates. */
  predicate EncodesAs(codePoint: nat, octets: string) {
    match |octets|
    case 1 => octets[0] as int == codePoint < 0x80
    case 2 =>
      && 0xc0 <= octets[0] as int < 0xe0 && IsTail(octets[1])
      && codePoint == (octets[0] as int - 0xc0) * 0x40 + (octets[1] as int - 0x80)
      && 0x80 <= codePoint
    case 3 =>
      && 0xe0 <= octets[0] as int < 0xf0 && IsTail(octets[1]) && IsTail(octets[2])
      && codePoint == (octets[0] as int - 0xe0) * 0x1000 + (octets[1] as int - 0x80) * 0x40 + (octets[2] as int - 0x80)
      && 0x800 <= codePoint && !IsSurrogate(codePoint)
    case _ => false
  }

  /** The octets emitted for a code point are its RFC 3629 encoding, and the
      only one; refused are exactly the surrogates and what needs four octets. */
  lemma Utf8IsRfc3629(codePoint: nat, octets: string)
    ensures Utf8(codePoint) == Some(octets) <==> EncodesAs(codePoint, octets)
    ensures Utf8(codePoint) == None <==> IsSurrogate(codePoint) || codePoint > 0xffff
  {
    if EncodesAs(codePoint, octets) {
      if |octets| == 1 {
        assert octets == [octets[0]];
      } else if |octets| == 2 {
        assert octets == [octets[0], octets[1]];
      } else {
        ThreeOctets(octets[0] as int - 0xe0, octets[1] as int - 0x80, octets[2] as int - 0x80);
        assert octets == [octets[0], octets[1], octets[2]];
      }
    }
    if Utf8(codePoint) == Some(octets) && |octets| == 3 {
      assert codePoint / 0x40 == codePoint / 0x1000 * 0x40 + codePoint / 0x40 % 0x40;
    }
  }

  lemma ThreeOctets(a: nat, b: nat, c: nat)
    requires b < 0x40 && c < 0x40
    ensures var n := a * 0x1000 + b * 0x40 + c; n / 0x1000 == a && n / 0x40 % 0x40 == b && n % 0x40 == c
  {
    var n := a * 0x1000 + b * 0x40 + c;
    assert n / 0x40 == a * 0x40 + b;
  }

  predicate IsBmpText(t: seq<nat>) {
    forall i | 0 <= i < |t| :: t[i] <= 0xffff && !IsSurrogate(t[i])
  }

  function Utf8Text(t: seq<nat>): string
    requires IsBmpText(t)
  {
    if t == [] then "" else Utf8(t[0]).value + Utf8Text(t[1..])
  }

  /** Section 2.1 of RFC 2781: one 16-bit unit a code point, low octet first. */
  function Utf16Text(t: seq<nat>): string
    requires IsBmpText(t)
  {
    if t == [] then "" else [Octet(t[0] % 256), Octet(t[0] / 256)] + Utf16Text(t[1..])
  }

  const LittleEndianMark := [Octet(0xff), Octet(0xfe)]

  lemma {:induction false} DecodeUtf16(t: seq<nat>)
    requires IsBmpText(t)
    ensures DecodeUnits(Utf16Text(t)) == Some(Utf8Text(t)) && |Utf16Text(t)| == 2 * |t|
  {
    hide Utf8;
    if t != [] {
      DecodeUtf16(t[1..]);
      Utf8IsRfc3629(t[0], "");
      var units := Utf16Text(t);
      assert units[2..] == Utf16Text(t[1..]);
      assert units[0] as int + 256 * units[1] as int == t[0];
    }
  }

  lemma FirstOctet(t: seq<nat>)
    requires IsBmpText(t) && t != []
    ensures var s := Utf8Text(t); s != "" && s[0] as int <= 0xef
    ensures StartsWithOctets(Utf8Text(t), [0xef, 0xbb, 0xbf]) <==> t[0] == 0xfeff
  {
    var first, s := Utf8(t[0]).value, Utf8Text(t);
    assert s[0] == first[0];
    assert [0xef, 0xbb, 0xbf][0] == 0xef && [0xef, 0xbb, 0xbf][1] == 0xbb && [0xef, 0xbb, 0xbf][2] == 0xbf;
    if |first| == 3 {
      assert s[1] == first[1] && s[2] == first[2];
      Utf8IsRfc3629(t[0], first);
      assert 0xfeff == (0xef - 0xe0) * 0x1000 + (0xbb - 0x80) * 0x40 + (0xbf - 0x80);
      if t[0] == 0xfeff { ThreeOctets(0xf, 0x3b, 0x3f); }
    }
  }

  lemma DecodeWide(t: seq<nat>)
    requires IsBmpText(t)
    ensures DecodeRegText(LittleEndianMark + Utf16Text(t)) == Ok(Utf8Text(t))
  {
    hide Utf8Text, Utf16Text, DecodeUnits, Utf8, Octet;
    var wide := LittleEndianMark + Utf16Text(t);
    DecodeUtf16(t);
    MarkIsSeen(Utf16Text(t));
    assert wide[2..] == Utf16Text(t);
    assert (|wide| - 2) % 2 == 0;
  }

  lemma MarkIsSeen(rest: string)
    ensures StartsWithOctets(LittleEndianMark + rest, [0xff, 0xfe])
  {
  }

  lemma DecodeNarrow(t: seq<nat>)
    requires IsBmpText(t)
    ensures var s := Utf8Text(t);
            if t != [] && t[0] == 0xfeff then |s| >= 3 && DecodeRegText(s) == Ok(s[3..]) else DecodeRegText(s) == Ok(s)
  {
    hide Utf8, Utf16Text, DecodeUnits;
    if t != [] {
      FirstOctet(t);
      OtherMarks(Utf8Text(t));
    }
  }

  lemma OtherMarks(s: string)
    requires s != "" && s[0] as int <= 0xef
    ensures !StartsWithOctets(s, [0xff, 0xfe]) && !StartsWithOctets(s, [0xfe, 0xff])
  {
    assert [0xff, 0xfe][0] == 0xff && [0xfe, 0xff][0] == 0xfe;
  }

  /** A text reads the same from UTF-16LE with its mark and from plain UTF-8,
      unless the text itself starts with U+FEFF, which only UTF-8 drops. */
  lemma EncodingsAgree(t: seq<nat>)
    requires IsBmpText(t)
    ensures DecodeRegText(LittleEndianMark + Utf16Text(t)) == Ok(Utf8Text(t))
    ensures DecodeRegText(LittleEndianMark + Utf16Text(t)) == DecodeRegText(Utf8Text(t)) <==> t == [] || t[0] != 0xfeff
  {
    hide Utf8Text, Utf16Text, DecodeRegText;
    DecodeWide(t);
    DecodeNarrow(t);
  }

  lemma Utf16ParsesAsUtf8(t: seq<nat>)
    requires IsBmpText(t) && (t == [] || t[0] != 0xfeff)
    ensures ParseReg(LittleEndianMark + Utf16Text(t)) == ParseReg(Utf8Text(t))
  {
    hide DecodeRegText;
    EncodingsAgree(t);
  }

  /** Files in UTF-16LE may be wrapped anywhere too. */
  lemma WrappedUtf16FileParsesTheSame(t: seq<nat>, u: seq<nat>,
                                      before: seq<string>, head: string, conts: seq<Continuation>, crs: seq<bool>, cr: bool, after: seq<string>)
    requires NewlineFree(before) && NewlineFree(after) && IsHead(head) && WellFormed(conts) && |crs| == |conts| + 1
    requires IsBmpText(t) && Utf8Text(t) == WrappedText(before, head, conts, crs, after)
    requires IsBmpText(u) && Utf8Text(u) == WholeText(before, head, conts, cr, after)
    ensures ParseReg(LittleEndianMark + Utf16Text(t)) == ParseReg(LittleEndianMark + Utf16Text(u))
  {
    hide DecodeRegText, Utf8Text, Utf16Text, WrappedText, WholeText, IsHead, ParseReg;
    DecodeWide(t);
    DecodeWide(u);
    WrappedFileParsesTheSame(LittleEndianMark + Utf16Text(t), LittleEndianMark + Utf16Text(u), before, head, conts, crs, cr, after);
  }

  function UnitAt(units: string, k: nat): nat
    requires 2 * k + 1 < |units|
  {
    units[2 * k] as int + 256 * units[2 * k + 1] as int
  }

  lemma {:induction false} UnitsAreRefused(units: string)
    requires Octets(units)
    ensures DecodeUnits(units) == None <==> exists k :: 0 <= k < |units| / 2 && IsSurrogate(UnitAt(units, k))
  {
    if |units| >= 2 {
      var rest := units[2..];
      UnitsAreRefused(rest);
      Utf8IsRfc3629(UnitAt(units, 0), "");
      assert forall k | 1 <= k < |units| / 2 :: UnitAt(units, k) == UnitAt(rest, k - 1);
      assert forall k | 0 <= k < |rest| / 2 :: UnitAt(rest, k) == UnitAt(units, k + 1);
    }
  }

  /** Which octets are refused: text in UTF-16BE, and text in UTF-16LE that ends in the
      middle of a unit or holds a surrogate. */
  lemma RefusedExactly(content: string)
    requires Octets(content)
    ensures DecodeRegText(content).Err? <==>
              || (|content| >= 2 && content[0] as int == 0xfe && content[1] as int == 0xff)
              || (|content| >= 2 && content[0] as int == 0xff && content[1] as int == 0xfe &&
                  (|content| % 2 == 1 || exists k :: 0 <= k < |content[2..]| / 2 && IsSurrogate(UnitAt(content[2..], k))))
    ensures DecodeRegText(content).Err? ==> DecodeRegText(content) == Err(EncodingUnsupported)
  {
    hide DecodeUnits, Octets, StartsWithOctets, IsSurrogate, UnitAt;
    MarksAre(content);
    if |content| >= 2 {
      assert Octets(content[2..]) by { TailIsOctets(content); }
      UnitsAreRefused(content[2..]);
    }
  }

  lemma TailIsOctets(content: string)
    requires Octets(content) && |content| >= 2
    ensures Octets(content[2..])
  {
  }

  lemma MarksAre(content: string)
    ensures StartsWithOctets(content, [0xff, 0xfe]) <==> |content| >= 2 && content[0] as int == 0xff && content[1] as int == 0xfe
    ensures StartsWithOctets(content, [0xfe, 0xff]) <==> |content| >= 2 && content[0] as int == 0xfe && content[1] as int == 0xff
    ensures StartsWithOctets(content, [0xef, 0xbb, 0xbf]) ==> |content| >= 3
  {
    if |content| >= 2 {
      assert [0xff, 0xfe][0] == 0xff && [0xff, 0xfe][1] == 0xfe && [0xfe, 0xff][0] == 0xfe && [0xfe, 0xff][1] == 0xff;
    }
  }
}
