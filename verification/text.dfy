/**
 * Character-level string helpers with the meaning of the JavaScript string operations the palette
 * file formats rely on: `split`/`join` on one character, `trim`, `startsWith`, `padStart`,
 * `Number.prototype.toString(radix)`, `parseInt` on a run of digits, and the regular-expression
 * classes `\s` and `\d`.
 */
module Text {

  // ---------------------------------------------------------------------------------------------
  // Character classes
  // ---------------------------------------------------------------------------------------------

  /** The JavaScript `\s` class, which is also the set `trim` removes (ECMAScript WhiteSpace and
      LineTerminator code points). */
  predicate IsWhitespace(c: char) {
    c == '\t' || c == '\n' || c == '\U{000B}' || c == '\U{000C}' || c == '\r' || c == ' '
    || c == '\U{00A0}' || c == '\U{1680}' || ('\U{2000}' <= c <= '\U{200A}')
    || c == '\U{2028}' || c == '\U{2029}' || c == '\U{202F}' || c == '\U{205F}'
    || c == '\U{3000}' || c == '\U{FEFF}'
  }

  /** The JavaScript `\d` class: ASCII decimal digits only. */
  predicate IsDigit(c: char) { '0' <= c <= '9' }

  predicate AllWhitespace(s: string) { forall i :: 0 <= i < |s| ==> IsWhitespace(s[i]) }

  predicate AllDigits(s: string) { forall i :: 0 <= i < |s| ==> IsDigit(s[i]) }

  /** `s.startsWith(prefix)`, compared character by character. */
  predicate StartsWith(s: string, prefix: string)
    decreases |prefix|
  {
    |prefix| == 0 || (|s| > 0 && s[0] == prefix[0] && StartsWith(s[1..], prefix[1..]))
  }

  /** `startsWith` holds exactly when the prefix is the first `|prefix|` characters. */
  lemma {:induction false} StartsWithMeansPrefix(s: string, prefix: string)
    ensures StartsWith(s, prefix) <==> |prefix| <= |s| && s[..|prefix|] == prefix
    decreases |prefix|
  {
    if |prefix| > 0 && |s| > 0 {
      StartsWithMeansPrefix(s[1..], prefix[1..]);
      assert prefix == [prefix[0]] + prefix[1..];
      if |prefix| <= |s| {
        assert s[..|prefix|] == [s[0]] + s[1..][..|prefix| - 1];
      }
    }
  }

  /** A text whose first character differs from a prefix's does not start with it. */
  lemma NotStartsWith(s: string, prefix: string)
    requires |s| > 0 && |prefix| > 0 && s[0] != prefix[0]
    ensures !StartsWith(s, prefix)
  {
  }

  // ---------------------------------------------------------------------------------------------
  // split / join on a single separator character
  // ---------------------------------------------------------------------------------------------

  /** `parts.join(sep)`; an empty array joins to the empty string. */
  function Join(parts: seq<string>, sep: char): string
    decreases |parts|
  {
    if |parts| == 0 then []
    else if |parts| == 1 then parts[0]
    else parts[0] + [sep] + Join(parts[1..], sep)
  }

  /** A join of two or more parts begins with the first part. */
  lemma JoinStartsWithFirst(parts: seq<string>, sep: char)
    requires |parts| >= 2
    ensures |parts[0]| <= |Join(parts, sep)| && Join(parts, sep)[..|parts[0]|] == parts[0]
  {
    var rest := [sep] + Join(parts[1..], sep);
    assert Join(parts, sep) == parts[0] + rest;
    assert (parts[0] + rest)[..|parts[0]|] == parts[0];
  }

  lemma JoinExtendFirst(c: char, parts: seq<string>, sep: char)
    requires |parts| >= 1
    ensures Join([[c] + parts[0]] + parts[1..], sep) == [c] + Join(parts, sep)
  {
    var q := [[c] + parts[0]] + parts[1..];
    if |parts| > 1 {
      assert q[1..] == parts[1..];
    }
  }

  /**
   * `s.split(sep)`: the pieces between separators, always at least one (the empty string splits
   * to `[""]`). No piece contains the separator, and joining the pieces gives `s` back.
   */
  function Split(s: string, sep: char): (parts: seq<string>)
    ensures |parts| >= 1
    ensures forall i :: 0 <= i < |parts| ==> sep !in parts[i]
    ensures Join(parts, sep) == s
    decreases |s|
  {
    if |s| == 0 then [[]]
    else
      var rest := Split(s[1..], sep);
      if s[0] == sep then
        assert ([[]] + rest)[1..] == rest;
        assert s == [sep] + s[1..];
        [[]] + rest
      else
        JoinExtendFirst(s[0], rest, sep);
        assert s == [s[0]] + s[1..];
        assert sep !in [s[0]] + rest[0];
        [[s[0]] + rest[0]] + rest[1..]
  }

  lemma {:induction false} SplitWithoutSeparator(w: string, sep: char)
    requires sep !in w
    ensures Split(w, sep) == [w]
    decreases |w|
  {
    if |w| > 0 {
      SplitWithoutSeparator(w[1..], sep);
      assert [w[0]] + w[1..] == w;
    }
  }

  lemma {:induction false} SplitAfterPiece(w: string, t: string, sep: char)
    requires sep !in w
    ensures Split(w + [sep] + t, sep) == [w] + Split(t, sep)
    decreases |w|
  {
    var s := w + [sep] + t;
    if |w| == 0 {
      assert s[0] == sep && s[1..] == t;
    } else {
      assert s[0] == w[0] && s[1..] == w[1..] + [sep] + t;
      SplitAfterPiece(w[1..], t, sep);
      assert [w[0]] + w[1..] == w;
    }
  }

  /** Splitting a join gives the pieces back, provided none of them contains the separator. */
  lemma {:induction false} SplitJoin(parts: seq<string>, sep: char)
    requires |parts| >= 1
    requires forall i :: 0 <= i < |parts| ==> sep !in parts[i]
    ensures Split(Join(parts, sep), sep) == parts
    decreases |parts|
  {
    if |parts| == 1 {
      SplitWithoutSeparator(parts[0], sep);
    } else {
      SplitJoin(parts[1..], sep);
      SplitAfterPiece(parts[0], Join(parts[1..], sep), sep);
      assert [parts[0]] + parts[1..] == parts;
    }
  }

  /** `parts.pop()` on a non-empty array: its last element. */
  function Last(parts: seq<string>): string
    requires |parts| >= 1
  {
    parts[|parts| - 1]
  }

  // ---------------------------------------------------------------------------------------------
  // trim
  // ---------------------------------------------------------------------------------------------

  /** `trimStart`: the suffix left after removing every leading whitespace character. */
  function TrimStart(s: string): (r: string)
    ensures |r| <= |s| && r == s[|s| - |r|..]
    ensures AllWhitespace(s[..|s| - |r|])
    ensures r == [] || !IsWhitespace(r[0])
    decreases |s|
  {
    if |s| > 0 && IsWhitespace(s[0]) then
      var r := TrimStart(s[1..]);
      assert s[..|s| - |r|] == [s[0]] + s[1..][..|s[1..]| - |r|];
      r
    else s
  }

  /** `trimEnd`: the prefix left after removing every trailing whitespace character. */
  function TrimEnd(s: string): (r: string)
    ensures |r| <= |s| && r == s[..|r|]
    ensures AllWhitespace(s[|r|..])
    ensures r == [] || !IsWhitespace(r[|r| - 1])
    decreases |s|
  {
    if |s| > 0 && IsWhitespace(s[|s| - 1]) then
      var r := TrimEnd(s[..|s| - 1]);
      assert s[|r|..] == s[..|s| - 1][|r|..] + [s[|s| - 1]];
      r
    else s
  }

  /** `trim`: neither end of the result is whitespace. */
  function Trim(s: string): (r: string)
    ensures |r| <= |s|
    ensures r == [] || (!IsWhitespace(r[0]) && !IsWhitespace(r[|r| - 1]))
  {
    TrimEnd(TrimStart(s))
  }

  /** Trimming the start removes exactly a whitespace prefix, whatever follows it. */
  lemma {:induction false} TrimStartPadded(w: string, m: string)
    requires AllWhitespace(w)
    requires m == [] || !IsWhitespace(m[0])
    ensures TrimStart(w + m) == m
    decreases |w|
  {
    if |w| > 0 {
      assert (w + m)[1..] == w[1..] + m;
      TrimStartPadded(w[1..], m);
    } else {
      assert w + m == m;
    }
  }

  /** Trimming the end removes exactly a whitespace suffix. */
  lemma {:induction false} TrimEndPadded(m: string, w: string)
    requires AllWhitespace(w)
    requires m == [] || !IsWhitespace(m[|m| - 1])
    ensures TrimEnd(m + w) == m
    decreases |w|
  {
    if |w| > 0 {
      assert (m + w)[..|m + w| - 1] == m + w[..|w| - 1];
      TrimEndPadded(m, w[..|w| - 1]);
    } else {
      assert m + w == m;
    }
  }

  /** `trim` undoes whitespace padding on both sides of a text whose ends are not whitespace. */
  lemma TrimPadded(w1: string, m: string, w2: string)
    requires AllWhitespace(w1) && AllWhitespace(w2)
    requires m == [] || (!IsWhitespace(m[0]) && !IsWhitespace(m[|m| - 1]))
    ensures Trim(w1 + m + w2) == m
  {
    if m == [] {
      assert w1 + m + w2 == (w1 + w2) + [];
      TrimStartPadded(w1 + w2, []);
    } else {
      assert w1 + m + w2 == w1 + (m + w2);
      TrimStartPadded(w1, m + w2);
      TrimEndPadded(m, w2);
    }
  }

  /** Trailing whitespace never eats into a leading text whose last character is not whitespace. */
  lemma {:induction false} TrimEndKeepsPrefix(p: string, rest: string)
    requires p != [] && !IsWhitespace(p[|p| - 1])
    ensures StartsWith(TrimEnd(p + rest), p)
    decreases |rest|
  {
    var s := p + rest;
    if |rest| > 0 && IsWhitespace(rest[|rest| - 1]) {
      assert s[..|s| - 1] == p + rest[..|rest| - 1];
      TrimEndKeepsPrefix(p, rest[..|rest| - 1]);
    } else {
      assert s[..|p|] == p;
      StartsWithMeansPrefix(s, p);
    }
  }

  /** A line that starts with a word is still seen to start with it after `trim`. */
  lemma TrimKeepsPrefix(p: string, rest: string)
    requires p != [] && !IsWhitespace(p[0]) && !IsWhitespace(p[|p| - 1])
    ensures StartsWith(Trim(p + rest), p)
  {
    assert [] + (p + rest) == p + rest;
    TrimStartPadded([], p + rest);
    TrimEndKeepsPrefix(p, rest);
  }

  // ---------------------------------------------------------------------------------------------
  // Digit runs (the greedy `\d+` of a regular expression)
  // ---------------------------------------------------------------------------------------------

  /** The longest run of digits at the front of `s`, and what follows it. */
  function SpanDigits(s: string): (r: (string, string))
    ensures r.0 + r.1 == s
    ensures AllDigits(r.0)
    ensures r.1 == [] || !IsDigit(r.1[0])
    decreases |s|
  {
    if |s| > 0 && IsDigit(s[0]) then
      var (d, rest) := SpanDigits(s[1..]);
      assert [s[0]] + d + rest == s;
      ([s[0]] + d, rest)
    else ([], s)
  }

  /** A digit run followed by a non-digit is exactly what `SpanDigits` takes. */
  lemma {:induction false} SpanDigitsOf(d: string, rest: string)
    requires AllDigits(d)
    requires rest == [] || !IsDigit(rest[0])
    ensures SpanDigits(d + rest) == (d, rest)
    decreases |d|
  {
    if |d| > 0 {
      assert (d + rest)[1..] == d[1..] + rest;
      SpanDigitsOf(d[1..], rest);
      assert [d[0]] + d[1..] == d;
    } else {
      assert d + rest == rest;
    }
  }

  // ---------------------------------------------------------------------------------------------
  // Numbers in text
  // ---------------------------------------------------------------------------------------------

  /** The digit of value `v` as `Number.prototype.toString` writes it (lower-case letters). */
  function DigitChar(v: nat): (c: char)
    requires v < 16
    ensures IsHexDigit(c)
    ensures v < 10 ==> IsDigit(c)
  {
    "0123456789abcdef"[v]
  }

  /** A character `DigitChar` can write. */
  predicate IsHexDigit(c: char) { IsDigit(c) || 'a' <= c <= 'f' }

  /** The value of one digit character as `parseInt` reads it, letters in either case. */
  function DigitValue(c: char): nat {
    if '0' <= c <= '9' then c as int - '0' as int
    else if 'a' <= c <= 'f' then c as int - 'a' as int + 10
    else if 'A' <= c <= 'F' then c as int - 'A' as int + 10
    else 0
  }

  lemma DigitValueOfChar(v: nat)
    requires v < 16
    ensures DigitValue(DigitChar(v)) == v
    ensures DigitValue(UpperChar(DigitChar(v))) == v
  {
  }

  /** The digits of `n` in base `base`, most significant first, with no leading zero. */
  function ToDigits(n: nat, base: nat): (s: string)
    requires 2 <= base <= 16
    ensures |s| >= 1
    ensures |s| > 1 ==> s[0] != '0'
    ensures base == 10 ==> AllDigits(s)
    ensures forall i :: 0 <= i < |s| ==> IsHexDigit(s[i])
    decreases n
  {
    if n < base then [DigitChar(n)]
    else
      DivDecreases(n, base);
      ToDigits(n / base, base) + [DigitChar(n % base)]
  }

  /** The value of a digit string read in base `base` (what `parseInt(s, base)` gives for such a string). */
  function FromDigits(s: string, base: nat): nat
    decreases |s|
  {
    if |s| == 0 then 0
    else FromDigits(s[..|s| - 1], base) * base + DigitValue(s[|s| - 1])
  }

  lemma FromDigitsSnoc(p: string, c: char, base: nat)
    ensures FromDigits(p + [c], base) == FromDigits(p, base) * base + DigitValue(c)
  {
    assert (p + [c])[..|p + [c]| - 1] == p;
  }

  /** Division and remainder recombine; kept apart so that callers see no multiplication by a variable. */
  lemma DivModSplit(n: nat, base: nat)
    requires base > 0
    ensures (n / base) * base + n % base == n
  {
  }

  lemma DivDecreases(n: nat, base: nat)
    requires 2 <= base && n >= base
    ensures 1 <= n / base < n
  {
    var q := n / base;
    DivModSplit(n, base);
    assert q * base == q * 2 + q * (base - 2);
    assert q * (base - 2) >= 0;
  }

  /** Reading back the digits `ToDigits` writes gives the number. */
  lemma {:induction false} DigitsRoundTrip(n: nat, base: nat)
    requires 2 <= base <= 16
    ensures FromDigits(ToDigits(n, base), base) == n
    decreases n
  {
    if n < base {
      DigitValueOfChar(n);
      FromDigitsSnoc([], DigitChar(n), base);
      assert [] + [DigitChar(n)] == ToDigits(n, base);
    } else {
      var q, d := n / base, n % base;
      var p, c := ToDigits(q, base), DigitChar(d);
      ToDigitsStep(n, base);
      DivDecreases(n, base);
      DigitsRoundTrip(q, base);
      DigitValueOfChar(d);
      FromDigitsSnoc(p, c, base);
      DivModSplit(n, base);
    }
  }

  lemma ToDigitsStep(n: nat, base: nat)
    requires 2 <= base <= 16 && n >= base
    ensures ToDigits(n, base) == ToDigits(n / base, base) + [DigitChar(n % base)]
  {
  }

  /** `Number.prototype.toString(base)` on an integer: a minus sign, then the digits of the magnitude. */
  function IntToString(n: int, base: nat): (s: string)
    requires 2 <= base <= 16
    ensures n >= 0 ==> s == ToDigits(n, base)
    ensures n < 0 <==> (|s| > 0 && s[0] == '-')
  {
    if n < 0 then "-" + ToDigits(-n, base) else ToDigits(n, base)
  }

  /** `s.padStart(width, fill)`: `fill` repeated in front until the length reaches `width`. */
  function PadStart(s: string, width: nat, fill: char): (r: string)
    ensures |r| == if |s| >= width then |s| else width
    ensures r[|r| - |s|..] == s
    ensures forall i :: 0 <= i < |r| - |s| ==> r[i] == fill
  {
    if |s| >= width then s else seq(width - |s|, _ => fill) + s
  }

  // ---------------------------------------------------------------------------------------------
  // Case mapping (ASCII letters; the texts mapped here are otherwise ASCII digits and punctuation)
  // ---------------------------------------------------------------------------------------------

  function UpperChar(c: char): char {
    if 'a' <= c <= 'z' then (c as int - 32) as char else c
  }

  function LowerChar(c: char): char {
    if 'A' <= c <= 'Z' then (c as int + 32) as char else c
  }

  /** `toUpperCase` on ASCII text: letters change case, every other character and the length stay. */
  function ToUpper(s: string): (r: string)
    ensures |r| == |s|
    ensures forall i :: 0 <= i < |s| ==> r[i] == UpperChar(s[i])
  {
    seq(|s|, i requires 0 <= i < |s| => UpperChar(s[i]))
  }

  lemma ToUpperAppend(a: string, b: string)
    ensures ToUpper(a + b) == ToUpper(a) + ToUpper(b)
  {
  }

  /** `toLowerCase` on ASCII text. */
  function ToLower(s: string): (r: string)
    ensures |r| == |s|
    ensures forall i :: 0 <= i < |s| ==> r[i] == LowerChar(s[i])
  {
    seq(|s|, i requires 0 <= i < |s| => LowerChar(s[i]))
  }
}
