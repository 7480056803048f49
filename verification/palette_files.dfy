/**
 * Palette files: writing a palette as a GIMP palette (GPL) text, reading colours back out of such a
 * text, the `#RRGGBB` label written beside each colour, and choosing a reader for an imported file
 * by its extension or its first characters.
 */
module PaletteFiles {
  import opened Pixels
  import opened Text
  import opened Wrappers

  const GplHeader: string := "GIMP Palette"
  const DefaultName: string := "Pixelate Palette"

  // ---------------------------------------------------------------------------------------------
  // Writing
  // ---------------------------------------------------------------------------------------------

  /** The `Columns:` value: the number of colours, at most 16. */
  function ColumnCount(n: nat): (k: nat)
    ensures k <= 16 && k <= n
    ensures k == n || k == 16
  {
    if n < 16 then n else 16
  }

  /** One channel as two upper-case hex digits (more for values outside 0..255, with a sign if negative). */
  function HexChannel(v: int): string {
    PadStart(IntToString(v, 16), 2, '0')
  }

  /** The `#RRGGBB` label of a colour, upper-cased as a whole. */
  function RgbToHex(c: RGB): (h: string)
    ensures |h| >= 7 && h[0] == '#'
  {
    ToUpper("#" + HexChannel(c.r) + HexChannel(c.g) + HexChannel(c.b))
  }

  /** One decimal channel right-aligned in three columns. */
  function DecimalColumn(v: int): string {
    PadStart(IntToString(v, 10), 3, ' ')
  }

  /** A colour line: three right-aligned channels separated by spaces, a tab, then the hex label. */
  function ColorLine(c: RGB): string {
    DecimalColumn(c.r) + (" " + (DecimalColumn(c.g) + (" " + (DecimalColumn(c.b) + ("\t" + RgbToHex(c))))))
  }

  function HeaderLines(colors: seq<RGB>, name: string): seq<string> {
    [GplHeader, "Name: " + name, "Columns: " + IntToString(ColumnCount(|colors|), 10), "#"]
  }

  /** One line per colour, in palette order. */
  function ColorLines(colors: seq<RGB>): (lines: seq<string>)
    ensures |lines| == |colors|
    ensures forall i :: 0 <= i < |colors| ==> lines[i] == ColorLine(colors[i])
    decreases |colors|
  {
    if |colors| == 0 then []
    else [ColorLine(colors[0])] + ColorLines(colors[1..])
  }

  /** The GPL text of a palette: four header lines, then one line per colour, joined by newlines. */
  function ExportAsGPL(colors: seq<RGB>, name: string): (text: string)
    ensures StartsWith(text, GplHeader)
  {
    var lines := HeaderLines(colors, name) + ColorLines(colors);
    var text := Join(lines, '\n');
    assert lines[0] == GplHeader;
    JoinStartsWithFirst(lines, '\n');
    StartsWithMeansPrefix(text, GplHeader);
    text
  }

  // ---------------------------------------------------------------------------------------------
  // Reading
  // ---------------------------------------------------------------------------------------------

  /** Header lines, comments and blank lines are passed over. */
  predicate IsSkipped(t: string) {
    StartsWith(t, GplHeader) || StartsWith(t, "Name:") || StartsWith(t, "Columns:")
    || StartsWith(t, "#") || t == []
  }

  /**
   * The shape of a line the pattern `^\s*(\d+)\s+(\d+)\s+(\d+)` matches, split at the places the
   * leftmost, greedy match splits it: optional whitespace, three digit runs separated by whitespace,
   * and a remainder that does not continue the last run.
   */
  predicate ColorLineShape(t: string, w0: string, d1: string, w1: string, d2: string, w2: string,
                           d3: string, rest: string)
  {
    t == w0 + (d1 + (w1 + (d2 + (w2 + (d3 + rest)))))
    && AllWhitespace(w0) && AllWhitespace(w1) && AllWhitespace(w2) && |w1| > 0 && |w2| > 0
    && AllDigits(d1) && AllDigits(d2) && AllDigits(d3) && |d1| > 0 && |d2| > 0 && |d3| > 0
    && (rest == [] || !IsDigit(rest[0]))
  }

  /**
   * One step of the pattern: whitespace (at least one character when `gap` is set), then the longest
   * run of digits, which must not be empty. Gives the run and what follows it.
   */
  function NextRun(s: string, gap: bool): Option<(string, string)> {
    var a := TrimStart(s);
    var d := SpanDigits(a).0;
    if (gap && |a| == |s|) || d == [] then None else Some((d, SpanDigits(a).1))
  }

  lemma NextRunOf(w: string, d: string, tail: string, gap: bool)
    requires AllWhitespace(w) && (gap ==> |w| > 0)
    requires AllDigits(d) && |d| > 0
    requires tail == [] || !IsDigit(tail[0])
    ensures NextRun(w + (d + tail), gap) == Some((d, tail))
  {
    TrimStartPadded(w, d + tail);
    SpanDigitsOf(d, tail);
  }

  lemma NextRunShape(s: string, gap: bool) returns (w: string)
    requires NextRun(s, gap).Some?
    ensures var (d, tail) := NextRun(s, gap).value;
      s == w + (d + tail) && AllWhitespace(w) && (gap ==> |w| > 0)
      && AllDigits(d) && |d| > 0 && (tail == [] || !IsDigit(tail[0]))
  {
    var a := TrimStart(s);
    w := s[..|s| - |a|];
    assert s == w + a;
  }

  /** The colour the pattern reads from a line, each group read as a decimal number. */
  function MatchColorLine(t: string): (r: Option<RGB>)
    ensures r.Some? ==> r.value.r >= 0 && r.value.g >= 0 && r.value.b >= 0
  {
    match NextRun(t, false)
    case None => None
    case Some((d1, t1)) =>
      match NextRun(t1, true)
      case None => None
      case Some((d2, t2)) =>
        match NextRun(t2, true)
        case None => None
        case Some((d3, _)) => Some(RGB(FromDigits(d1, 10), FromDigits(d2, 10), FromDigits(d3, 10)))
  }

  /** Whatever a line of that shape is, the pattern reads its three digit runs. */
  lemma MatchComplete(t: string, w0: string, d1: string, w1: string, d2: string, w2: string,
                      d3: string, rest: string)
    requires ColorLineShape(t, w0, d1, w1, d2, w2, d3, rest)
    ensures MatchColorLine(t) == Some(RGB(FromDigits(d1, 10), FromDigits(d2, 10), FromDigits(d3, 10)))
  {
    var t2 := w2 + (d3 + rest);
    var t1 := w1 + (d2 + t2);
    NextRunOf(w0, d1, t1, false);
    NextRunOf(w1, d2, t2, true);
    NextRunOf(w2, d3, rest, true);
  }

  /** Every line the pattern reads has that shape, and the colour comes from its digit runs. */
  lemma MatchSound(t: string) returns (w0: string, d1: string, w1: string, d2: string, w2: string,
                                       d3: string, rest: string)
    requires MatchColorLine(t).Some?
    ensures ColorLineShape(t, w0, d1, w1, d2, w2, d3, rest)
    ensures MatchColorLine(t).value == RGB(FromDigits(d1, 10), FromDigits(d2, 10), FromDigits(d3, 10))
  {
    var t1, t2;
    w0 := NextRunShape(t, false);
    d1, t1 := NextRun(t, false).value.0, NextRun(t, false).value.1;
    w1 := NextRunShape(t1, true);
    d2, t2 := NextRun(t1, true).value.0, NextRun(t1, true).value.1;
    w2 := NextRunShape(t2, true);
    d3, rest := NextRun(t2, true).value.0, NextRun(t2, true).value.1;
    assert t1 == w1 + (d2 + t2) && t2 == w2 + (d3 + rest);
  }

  /** A colour a text reader can produce: digit runs never read as negative numbers. */
  predicate ReadableColor(c: RGB) {
    c.r >= 0 && c.g >= 0 && c.b >= 0
  }

  /** A line: trimmed, passed over when it is a header, comment or blank, else matched. */
  function ParseLine(line: string): (r: Option<RGB>)
    ensures r.Some? ==> ReadableColor(r.value)
  {
    var t := Trim(line);
    if IsSkipped(t) then None else MatchColorLine(t)
  }

  /** The colours of the lines that match, in order. Channels read from text are never negative. */
  function ParseLines(lines: seq<string>): (colors: seq<RGB>)
    ensures |colors| <= |lines|
    ensures forall c :: c in colors ==> ReadableColor(c)
    decreases |lines|
  {
    if |lines| == 0 then []
    else
      var rest := ParseLines(lines[1..]);
      var first := ParseLine(lines[0]);
      if first.Some? then [first.value] + rest else rest
  }

  /** The GPL reader: the text split at newlines, each line read on its own. */
  function ParseGPL(content: string): (colors: seq<RGB>)
    ensures |colors| <= |Split(content, '\n')|
    ensures forall c :: c in colors ==> ReadableColor(c)
  {
    ParseLines(Split(content, '\n'))
  }

  lemma {:induction false} ParseLinesAppend(a: seq<string>, b: seq<string>)
    ensures ParseLines(a + b) == ParseLines(a) + ParseLines(b)
    decreases |a|
  {
    if |a| > 0 {
      ConcatTail(a, b);
      ParseLinesAppend(a[1..], b);
      var first := ParseLine(a[0]);
      var head: seq<RGB> := if first.Some? then [first.value] else [];
      assert ParseLines(a + b) == head + ParseLines(a[1..] + b);
      assert ParseLines(a) == head + ParseLines(a[1..]);
      AppendAssociates(head, ParseLines(a[1..]), ParseLines(b));
    } else {
      ConcatTail(a, b);
    }
  }

  /** The two sequence facts of the induction above, kept out of its context to keep it cheap. */
  lemma ConcatTail(a: seq<string>, b: seq<string>)
    ensures |a| == 0 ==> a + b == b
    ensures |a| > 0 ==> (a + b)[0] == a[0] && (a + b)[1..] == a[1..] + b
  {
  }

  lemma AppendAssociates(x: seq<RGB>, y: seq<RGB>, z: seq<RGB>)
    ensures x + (y + z) == (x + y) + z
  {
  }

  // ---------------------------------------------------------------------------------------------
  // The label and the round trip
  // ---------------------------------------------------------------------------------------------

  /** A character of the label of a colour with non-negative channels. */
  predicate IsLabelChar(ch: char) {
    ch == '#' || IsDigit(ch) || 'A' <= ch <= 'F'
  }

  lemma HexChannelDigits(v: int)
    requires v >= 0
    ensures |HexChannel(v)| >= 2
    ensures forall i :: 0 <= i < |HexChannel(v)| ==> IsHexDigit(HexChannel(v)[i])
  {
    var d := ToDigits(v, 16);
    var h := HexChannel(v);
    forall i | 0 <= i < |h|
      ensures IsHexDigit(h[i])
    {
      if i >= |h| - |d| {
        assert h[i] == h[|h| - |d|..][i - (|h| - |d|)] == d[i - (|h| - |d|)];
      }
    }
  }

  /** `#` followed by three runs of hex digits, upper-cased, consists of label characters only. */
  lemma UpperLabelOf(x: string, y: string, z: string)
    requires forall i :: 0 <= i < |x| ==> IsHexDigit(x[i])
    requires forall i :: 0 <= i < |y| ==> IsHexDigit(y[i])
    requires forall i :: 0 <= i < |z| ==> IsHexDigit(z[i])
    ensures forall i :: 0 <= i < |ToUpper("#" + x + y + z)| ==> IsLabelChar(ToUpper("#" + x + y + z)[i])
  {
    var inner := "#" + x + y + z;
    var h := ToUpper(inner);
    forall i | 0 <= i < |h|
      ensures IsLabelChar(h[i])
    {
      assert h[i] == UpperChar(inner[i]);
      if 1 <= i < 1 + |x| {
        assert inner[i] == x[i - 1];
      } else if 1 + |x| <= i < 1 + |x| + |y| {
        assert inner[i] == y[i - 1 - |x|];
      } else if 1 + |x| + |y| <= i {
        assert inner[i] == z[i - 1 - |x| - |y|];
      }
    }
  }

  /** The label of a colour with non-negative channels is `#` followed by upper-case hex digits. */
  lemma LabelChars(c: RGB)
    requires ReadableColor(c)
    ensures forall i :: 0 <= i < |RgbToHex(c)| ==> IsLabelChar(RgbToHex(c)[i])
  {
    HexChannelDigits(c.r);
    HexChannelDigits(c.g);
    HexChannelDigits(c.b);
    UpperLabelOf(HexChannel(c.r), HexChannel(c.g), HexChannel(c.b));
  }

  lemma HexChannelShape(v: int)
    requires 0 <= v < 256
    ensures HexChannel(v) == [DigitChar(v / 16), DigitChar(v % 16)]
  {
    if v < 16 {
      assert ToDigits(v, 16) == [DigitChar(v)];
      assert DigitChar(0) == '0';
    } else {
      ToDigitsStep(v, 16);
      assert ToDigits(v / 16, 16) == [DigitChar(v / 16)];
    }
  }

  lemma TwoDigitValue(h: string, base: nat)
    requires |h| == 2
    ensures FromDigits(h, base) == DigitValue(h[0]) * base + DigitValue(h[1])
  {
    assert h[..1][..0] == [];
    assert FromDigits(h[..1], base) == 0 * base + DigitValue(h[0]);
  }

  /** A byte channel is written as exactly two hex digits that read back as the channel. */
  lemma HexChannelByte(v: int)
    requires 0 <= v < 256
    ensures |HexChannel(v)| == 2
    ensures FromDigits(ToUpper(HexChannel(v)), 16) == v
  {
    HexChannelShape(v);
    UpperPairValue(v / 16, v % 16);
    DivModSplit(v, 16);
  }

  /** Two hex digits, upper-cased, read back as the number they spell. */
  lemma UpperPairValue(hi: nat, lo: nat)
    requires hi < 16 && lo < 16
    ensures FromDigits(ToUpper([DigitChar(hi), DigitChar(lo)]), 16) == 16 * hi + lo
  {
    var h := ToUpper([DigitChar(hi), DigitChar(lo)]);
    assert h == [UpperChar(DigitChar(hi)), UpperChar(DigitChar(lo))];
    TwoDigitValue(h, 16);
    DigitValueOfChar(hi);
    DigitValueOfChar(lo);
  }

  lemma UpperPairs(x: string, y: string, z: string)
    requires |x| == 2 && |y| == 2 && |z| == 2
    ensures var h := ToUpper("#" + x + y + z);
      |h| == 7 && h[0] == '#' && h[1..3] == ToUpper(x) && h[3..5] == ToUpper(y) && h[5..7] == ToUpper(z)
  {
    ToUpperAppend("#" + x + y, z);
    ToUpperAppend("#" + x, y);
    ToUpperAppend("#", x);
  }

  /** The label of a colour with byte channels is `#RRGGBB`, and each pair reads back as its channel. */
  lemma HexLabelRoundTrip(c: RGB)
    requires ValidColor(c)
    ensures var h := RgbToHex(c);
      |h| == 7 && h[0] == '#'
      && FromDigits(h[1..3], 16) == c.r && FromDigits(h[3..5], 16) == c.g && FromDigits(h[5..7], 16) == c.b
  {
    HexChannelByte(c.r);
    HexChannelByte(c.g);
    HexChannelByte(c.b);
    UpperPairs(HexChannel(c.r), HexChannel(c.g), HexChannel(c.b));
  }

  /** A padded decimal column is spaces followed by the digits of the channel. */
  lemma DecimalColumnParts(v: int) returns (spaces: string)
    requires v >= 0
    ensures DecimalColumn(v) == spaces + ToDigits(v, 10)
    ensures AllWhitespace(spaces)
  {
    var d := ToDigits(v, 10);
    var p := DecimalColumn(v);
    spaces := p[..|p| - |d|];
    assert p == spaces + p[|p| - |d|..];
  }

  /** A colour line after its leading padding: digit runs, separating whitespace, a tab and a label. */
  function LineBody(r1: string, s2: string, r2: string, s3: string, r3: string, h: string): string {
    r1 + ((" " + s2) + (r2 + ((" " + s3) + (r3 + ("\t" + h)))))
  }

  lemma LayoutReassociates(s1: string, r1: string, s2: string, r2: string, s3: string, r3: string, h: string)
    ensures (s1 + r1) + (" " + ((s2 + r2) + (" " + ((s3 + r3) + ("\t" + h)))))
      == s1 + LineBody(r1, s2, r2, s3, r3, h)
  {
    var tail2 := r3 + ("\t" + h);
    assert (s3 + r3) + ("\t" + h) == s3 + tail2;
    var tail1 := r2 + ((" " + s3) + tail2);
    assert " " + (s3 + tail2) == (" " + s3) + tail2;
    assert (s2 + r2) + ((" " + s3) + tail2) == s2 + tail1;
    assert " " + (s2 + tail1) == (" " + s2) + tail1;
  }

  lemma BodyMatches(r1: string, s2: string, r2: string, s3: string, r3: string, h: string)
    requires AllWhitespace(s2) && AllWhitespace(s3)
    requires AllDigits(r1) && AllDigits(r2) && AllDigits(r3) && |r1| > 0 && |r2| > 0 && |r3| > 0
    ensures var m := LineBody(r1, s2, r2, s3, r3, h);
      !IsSkipped(m) && MatchColorLine(m) == Some(RGB(FromDigits(r1, 10), FromDigits(r2, 10), FromDigits(r3, 10)))
  {
    var m := LineBody(r1, s2, r2, s3, r3, h);
    assert IsDigit(m[0]);
    NotStartsWith(m, GplHeader);
    NotStartsWith(m, "Name:");
    NotStartsWith(m, "Columns:");
    NotStartsWith(m, "#");
    assert AllWhitespace(" " + s2) && AllWhitespace(" " + s3);
    assert m == [] + (r1 + ((" " + s2) + (r2 + ((" " + s3) + (r3 + ("\t" + h))))));
    MatchComplete(m, [], r1, " " + s2, r2, " " + s3, r3, "\t" + h);
  }

  lemma BodyTrims(s1: string, r1: string, s2: string, r2: string, s3: string, r3: string, h: string)
    requires AllWhitespace(s1) && |r1| > 0 && !IsWhitespace(r1[0])
    requires |h| > 0 && !IsWhitespace(h[|h| - 1])
    ensures Trim(s1 + LineBody(r1, s2, r2, s3, r3, h)) == LineBody(r1, s2, r2, s3, r3, h)
  {
    var m := LineBody(r1, s2, r2, s3, r3, h);
    assert m[|m| - 1] == h[|h| - 1];
    assert s1 + m == s1 + m + [];
    TrimPadded(s1, m, []);
  }

  /** Any line laid out as padded digit runs, a tab and a label reads as those three numbers. */
  lemma ParseLayout(s1: string, r1: string, s2: string, r2: string, s3: string, r3: string, h: string)
    requires AllWhitespace(s1) && AllWhitespace(s2) && AllWhitespace(s3)
    requires AllDigits(r1) && AllDigits(r2) && AllDigits(r3) && |r1| > 0 && |r2| > 0 && |r3| > 0
    requires |h| > 0 && !IsWhitespace(h[|h| - 1])
    ensures ParseLine((s1 + r1) + (" " + ((s2 + r2) + (" " + ((s3 + r3) + ("\t" + h))))))
      == Some(RGB(FromDigits(r1, 10), FromDigits(r2, 10), FromDigits(r3, 10)))
  {
    LayoutReassociates(s1, r1, s2, r2, s3, r3, h);
    assert IsDigit(r1[0]);
    BodyTrims(s1, r1, s2, r2, s3, r3, h);
    BodyMatches(r1, s2, r2, s3, r3, h);
  }

  /** Reading a colour line gives back the colour it was written from. */
  lemma ParseColorLine(c: RGB)
    requires ReadableColor(c)
    ensures ParseLine(ColorLine(c)) == Some(c)
  {
    var s1 := DecimalColumnParts(c.r);
    var s2 := DecimalColumnParts(c.g);
    var s3 := DecimalColumnParts(c.b);
    var h := RgbToHex(c);
    LabelChars(c);
    assert IsLabelChar(h[|h| - 1]);
    ParseLayout(s1, ToDigits(c.r, 10), s2, ToDigits(c.g, 10), s3, ToDigits(c.b, 10), h);
    DigitsRoundTrip(c.r, 10);
    DigitsRoundTrip(c.g, 10);
    DigitsRoundTrip(c.b, 10);
  }

  lemma ParseLinesConsSome(line: string, lines: seq<string>, c: RGB)
    requires ParseLine(line) == Some(c)
    ensures ParseLines([line] + lines) == [c] + ParseLines(lines)
  {
    assert ([line] + lines)[1..] == lines;
  }

  lemma ParseLinesConsNone(line: string, lines: seq<string>)
    requires ParseLine(line) == None
    ensures ParseLines([line] + lines) == ParseLines(lines)
  {
    assert ([line] + lines)[1..] == lines;
  }

  /** Lines that each read as one colour read, together, as those colours in order. */
  lemma {:induction false} ParseLinesEach(lines: seq<string>, colors: seq<RGB>)
    requires |lines| == |colors|
    requires forall i :: 0 <= i < |lines| ==> ParseLine(lines[i]) == Some(colors[i])
    ensures ParseLines(lines) == colors
    decreases |lines|
  {
    if |lines| > 0 {
      var rest, later := lines[1..], colors[1..];
      forall i | 0 <= i < |rest|
        ensures ParseLine(rest[i]) == Some(later[i])
      {
        assert rest[i] == lines[i + 1] && later[i] == colors[i + 1];
      }
      ParseLinesEach(rest, later);
      assert ParseLine(lines[0]) == Some(colors[0]);
      assert ParseLines(lines) == [colors[0]] + ParseLines(rest);
      HeadAndTail(colors);
    }
  }

  /** Kept apart so that the sequence identity does not enter the context of the induction above. */
  lemma HeadAndTail(colors: seq<RGB>)
    requires |colors| > 0
    ensures [colors[0]] + colors[1..] == colors
  {
  }

  lemma ParseColorLines(colors: seq<RGB>)
    requires forall c :: c in colors ==> ReadableColor(c)
    ensures ParseLines(ColorLines(colors)) == colors
  {
    var lines := ColorLines(colors);
    forall i | 0 <= i < |lines|
      ensures ParseLine(lines[i]) == Some(colors[i])
    {
      ParseColorLine(colors[i]);
    }
    ParseLinesEach(lines, colors);
  }

  /** A line starting with one of the header words is passed over, whatever follows the word. */
  lemma HeaderWordSkipped(word: string, rest: string)
    requires word == GplHeader || word == "Name:" || word == "Columns:" || word == "#"
    ensures ParseLine(word + rest) == None
  {
    TrimKeepsPrefix(word, rest);
  }

  lemma LabelledLineSkipped(word: string, value: string)
    requires word == "Name:" || word == "Columns:"
    ensures ParseLine(word + " " + value) == None
  {
    assert word + " " + value == word + (" " + value);
    HeaderWordSkipped(word, " " + value);
  }

  lemma TitleLineSkipped()
    ensures ParseLine(GplHeader) == None
  {
    HeaderWordSkipped(GplHeader, []);
    assert GplHeader + [] == GplHeader;
  }

  lemma CommentLineSkipped()
    ensures ParseLine("#") == None
  {
    HeaderWordSkipped("#", []);
    assert "#" + [] == "#";
  }

  lemma NameLineSkipped(name: string)
    ensures ParseLine("Name: " + name) == None
  {
    LabelledLineSkipped("Name:", name);
    assert "Name:" + " " == "Name: ";
  }

  lemma ColumnsLineSkipped(count: string)
    ensures ParseLine("Columns: " + count) == None
  {
    LabelledLineSkipped("Columns:", count);
    assert "Columns:" + " " == "Columns: ";
  }

  lemma FourSkippedLines(l0: string, l1: string, l2: string, l3: string)
    requires ParseLine(l0) == None && ParseLine(l1) == None && ParseLine(l2) == None && ParseLine(l3) == None
    ensures ParseLines([l0, l1, l2, l3]) == []
  {
    ParseLinesConsNone(l3, []);
    assert [l3] + [] == [l3];
    ParseLinesConsNone(l2, [l3]);
    assert [l2] + [l3] == [l2, l3];
    ParseLinesConsNone(l1, [l2, l3]);
    assert [l1] + [l2, l3] == [l1, l2, l3];
    ParseLinesConsNone(l0, [l1, l2, l3]);
    assert [l0] + [l1, l2, l3] == [l0, l1, l2, l3];
  }

  /** The four header lines are all passed over by the reader. */
  lemma HeaderSkipped(colors: seq<RGB>, name: string)
    ensures ParseLines(HeaderLines(colors, name)) == []
  {
    var count := IntToString(ColumnCount(|colors|), 10);
    TitleLineSkipped();
    NameLineSkipped(name);
    ColumnsLineSkipped(count);
    CommentLineSkipped();
    FourSkippedLines(GplHeader, "Name: " + name, "Columns: " + IntToString(ColumnCount(|colors|), 10), "#");
  }

  lemma NoNewlineInLayout(a: string, b: string, c: string, h: string)
    requires '\n' !in a && '\n' !in b && '\n' !in c && '\n' !in h
    ensures '\n' !in a + (" " + (b + (" " + (c + ("\t" + h)))))
  {
  }

  lemma ColorLineNoNewline(c: RGB)
    requires ReadableColor(c)
    ensures '\n' !in ColorLine(c)
  {
    var s1 := DecimalColumnParts(c.r);
    var s2 := DecimalColumnParts(c.g);
    var s3 := DecimalColumnParts(c.b);
    var h := RgbToHex(c);
    LabelChars(c);
    assert '\n' !in h by {
      assert forall i :: 0 <= i < |h| ==> h[i] != '\n';
    }
    var r1, r2, r3 := ToDigits(c.r, 10), ToDigits(c.g, 10), ToDigits(c.b, 10);
    assert '\n' !in r1 && '\n' !in r2 && '\n' !in r3;
    assert '\n' !in s1 && '\n' !in s2 && '\n' !in s3;
    NoNewlineInLayout(s1 + r1, s2 + r2, s3 + r3, h);
  }

  lemma NoNewlineInColorLines(colors: seq<RGB>)
    requires forall c :: c in colors ==> ReadableColor(c)
    ensures forall i :: 0 <= i < |ColorLines(colors)| ==> '\n' !in ColorLines(colors)[i]
  {
    forall i | 0 <= i < |colors|
      ensures '\n' !in ColorLines(colors)[i]
    {
      ColorLineNoNewline(colors[i]);
    }
  }

  lemma NoNewlineInHeader(colors: seq<RGB>, name: string)
    requires '\n' !in name
    ensures forall i :: 0 <= i < |HeaderLines(colors, name)| ==> '\n' !in HeaderLines(colors, name)[i]
  {
    var count := ToDigits(ColumnCount(|colors|), 10);
    assert '\n' !in count;
  }

  lemma NoNewlineInEither(a: seq<string>, b: seq<string>)
    requires forall i :: 0 <= i < |a| ==> '\n' !in a[i]
    requires forall i :: 0 <= i < |b| ==> '\n' !in b[i]
    ensures forall i :: 0 <= i < |a + b| ==> '\n' !in (a + b)[i]
  {
  }

  /**
   * Export then import: the GPL text splits into exactly the header and colour lines, and reading
   * it gives back the palette, whenever the name fits on one line and no channel is negative.
   */
  lemma GplRoundTrip(colors: seq<RGB>, name: string)
    requires '\n' !in name
    requires forall c :: c in colors ==> ReadableColor(c)
    ensures Split(ExportAsGPL(colors, name), '\n') == HeaderLines(colors, name) + ColorLines(colors)
    ensures ParseGPL(ExportAsGPL(colors, name)) == colors
  {
    var lines := HeaderLines(colors, name) + ColorLines(colors);
    NoNewlineInHeader(colors, name);
    NoNewlineInColorLines(colors);
    NoNewlineInEither(HeaderLines(colors, name), ColorLines(colors));
    SplitJoin(lines, '\n');
    ParseLinesAppend(HeaderLines(colors, name), ColorLines(colors));
    HeaderSkipped(colors, name);
    ParseColorLines(colors);
  }

  // ---------------------------------------------------------------------------------------------
  // Choosing a reader
  // ---------------------------------------------------------------------------------------------

  lemma {:induction false} JoinLast(parts: seq<string>, sep: char)
    requires |parts| >= 2
    ensures Join(parts, sep) == Join(parts[..|parts| - 1], sep) + [sep] + Last(parts)
    decreases |parts|
  {
    if |parts| > 2 {
      JoinLast(parts[1..], sep);
      assert parts[1..][..|parts| - 2] == parts[..|parts| - 1][1..];
      assert Last(parts[1..]) == Last(parts);
    } else {
      assert parts[..1] == [parts[0]];
    }
  }

  /** The lower-cased text after the last dot of a file name, or the whole lower-cased name if it has none. */
  function Extension(filename: string): (ext: string)
    ensures '.' !in ext
    ensures var low := ToLower(filename);
      ext == low || (|ext| < |low| && low[|low| - |ext| - 1] == '.' && low[|low| - |ext|..] == ext)
  {
    var low := ToLower(filename);
    var parts := Split(low, '.');
    if |parts| >= 2 then
      JoinLast(parts, '.');
      Last(parts)
    else
      Last(parts)
  }

  /**
   * The reader chosen for an imported file: by extension first (`gpl` or `json`, any case), then by
   * the first characters of the content. The JSON reader is a parameter of the model.
   */
  function ParsePaletteFile(content: string, filename: string, parseJson: string -> seq<RGB>): (colors: seq<RGB>)
    ensures Extension(filename) == "gpl" ==> colors == ParseGPL(content)
    ensures Extension(filename) == "json" ==> colors == parseJson(content)
    ensures Extension(filename) != "json" && StartsWith(content, GplHeader) ==> colors == ParseGPL(content)
    ensures (&& Extension(filename) != "gpl" && Extension(filename) != "json" && !StartsWith(content, GplHeader)
             && (StartsWith(content, "{") || StartsWith(content, "[")))
      ==> colors == parseJson(content)
    ensures colors != [] ==> Extension(filename) in {"gpl", "json"} || StartsWith(content, GplHeader)
                             || StartsWith(content, "{") || StartsWith(content, "[")
  {
    var ext := Extension(filename);
    if ext == "gpl" then ParseGPL(content)
    else if ext == "json" then parseJson(content)
    else if StartsWith(content, GplHeader) then ParseGPL(content)
    else if StartsWith(content, "{") || StartsWith(content, "[") then parseJson(content)
    else []
  }

  /** A file this program exported reads back as the same palette under any name not ending in `.json`. */
  lemma ExportedFileReadsBack(colors: seq<RGB>, name: string, filename: string, parseJson: string -> seq<RGB>)
    requires '\n' !in name
    requires forall c :: c in colors ==> ReadableColor(c)
    requires Extension(filename) != "json"
    ensures ParsePaletteFile(ExportAsGPL(colors, name), filename, parseJson) == colors
  {
    GplRoundTrip(colors, name);
  }
}
