/*
 * The CMYK to hex converter tool of the brand-guide analyser
 * (converter_cmyk_para_hex in agent.py).
 *
 * The tool reads every maximal run of decimal digits in its argument, left to
 * right, as the components C, M, Y, K; rejects any argument with a number of
 * runs other than four; and otherwise formats the channels
 * 255 * (1 - x/100) * (1 - k/100), truncated, as "#rrggbb" in lower case.
 *
 * The source computes the channels in binary floating point. This model uses
 * exact rational arithmetic and truncates the exact value. The two differ when
 * the exact value is an integer that the doubles land just below: for C = 0 and
 * K = 80 the exact channel is 51, but 1 - 0.8 is 0.19999999999999996 in
 * doubles and the source truncates 50.999... to 50. No claim of bit-for-bit
 * agreement with the source is made.
 */
module CmykConversion {

  // ---------------------------------------------------------------------------
  // Tokenizing: the maximal digit runs that re.findall(r'\d+', s) returns
  // ---------------------------------------------------------------------------

  /** An ASCII decimal digit (the `\d` of the source, restricted to '0'..'9'). */
  predicate IsDigit(c: char) {
    '0' <= c <= '9'
  }

  predicate AllDigits(t: string) {
    forall i :: 0 <= i < |t| ==> IsDigit(t[i])
  }

  /** Length of the longest prefix of `s` made only of digits. */
  function DigitPrefixLength(s: string): (n: nat)
    ensures n <= |s| && AllDigits(s[..n])
    ensures n < |s| ==> !IsDigit(s[n])
  {
    if s == [] || !IsDigit(s[0]) then 0
    else
      var m := DigitPrefixLength(s[1..]);
      assert s[..1 + m] == [s[0]] + s[1..][..m];
      1 + m
  }

  /** The maximal runs of digits of `s`, left to right. */
  function DigitRuns(s: string): (runs: seq<string>)
    ensures forall j :: 0 <= j < |runs| ==> runs[j] != [] && AllDigits(runs[j])
    decreases |s|
  {
    if s == [] then []
    else if !IsDigit(s[0]) then DigitRuns(s[1..])
    else
      var n := DigitPrefixLength(s);
      [s[..n]] + DigitRuns(s[n..])
  }

  /**
   * An independent count of the runs: a left-to-right scan with one bit of
   * state that counts every digit not preceded by a digit.
   */
  function RunStarts(s: string, afterDigit: bool): nat {
    if s == [] then 0
    else (if IsDigit(s[0]) && !afterDigit then 1 else 0) + RunStarts(s[1..], IsDigit(s[0]))
  }

  /** A non-empty string of digits is a single run. */
  lemma SingleRun(t: string)
    requires t != [] && AllDigits(t)
    ensures DigitRuns(t) == [t]
  {
    PrefixLengthUnique(t, |t|);
    assert t[..|t|] == t;
  }

  /** The digits of `s` in order, every other character dropped. */
  function DigitsOf(s: string): string {
    if s == [] then []
    else (if IsDigit(s[0]) then [s[0]] else []) + DigitsOf(s[1..])
  }

  function Concat(runs: seq<string>): string {
    if runs == [] then [] else runs[0] + Concat(runs[1..])
  }

  /** The maximal digit prefix is the unique prefix that is all digits and cannot be extended. */
  lemma PrefixLengthUnique(s: string, p: nat)
    requires p <= |s| && AllDigits(s[..p])
    requires p < |s| ==> !IsDigit(s[p])
    ensures DigitPrefixLength(s) == p
  {
    var n := DigitPrefixLength(s);
    assert forall i :: 0 <= i < p ==> s[..p][i] == s[i];
    assert forall i :: 0 <= i < n ==> s[..n][i] == s[i];
  }

  lemma {:induction false} SkipDigits(s: string, p: nat)
    requires p <= |s| && AllDigits(s[..p])
    ensures RunStarts(s, true) == RunStarts(s[p..], true)
  {
    if p > 0 {
      assert s[..p][0] == s[0];
      assert s[..p] == [s[0]] + s[1..][..p - 1];
      SkipDigits(s[1..], p - 1);
      assert s[1..][p - 1..] == s[p..];
    }
  }

  /** The number of runs the tokenizer finds is the number of run starts the scan counts. */
  lemma {:induction false} RunCount(s: string)
    ensures |DigitRuns(s)| == RunStarts(s, false)
    decreases |s|
  {
    if s == [] {
    } else if !IsDigit(s[0]) {
      RunCount(s[1..]);
    } else {
      var n := DigitPrefixLength(s);
      assert s[..n][0] == s[0];
      RunCount(s[n..]);
      assert s[..n] == [s[0]] + s[1..][..n - 1];
      SkipDigits(s[1..], n - 1);
      assert s[1..][n - 1..] == s[n..];
    }
  }

  lemma {:induction false} DigitsOfDigitPrefix(s: string, p: nat)
    requires p <= |s| && AllDigits(s[..p])
    ensures DigitsOf(s) == s[..p] + DigitsOf(s[p..])
  {
    if p > 0 {
      assert s[..p][0] == s[0];
      assert s[..p] == [s[0]] + s[1..][..p - 1];
      DigitsOfDigitPrefix(s[1..], p - 1);
      assert s[1..][p - 1..] == s[p..];
    }
  }

  /** No digit is lost or reordered: the runs, put back together, are exactly the digits of the input. */
  lemma {:induction false} RunsKeepEveryDigit(s: string)
    ensures Concat(DigitRuns(s)) == DigitsOf(s)
    decreases |s|
  {
    if s == [] {
    } else if !IsDigit(s[0]) {
      RunsKeepEveryDigit(s[1..]);
    } else {
      var n := DigitPrefixLength(s);
      assert s[..n][0] == s[0];
      RunsKeepEveryDigit(s[n..]);
      DigitsOfDigitPrefix(s, n);
      var runs := [s[..n]] + DigitRuns(s[n..]);
      assert runs[1..] == DigitRuns(s[n..]);
    }
  }

  /**
   * Every character that is not a digit ('-', '.', ',', ':', letters, blanks)
   * only separates runs: cutting the input at such a character cuts the runs
   * there and nothing else.
   */
  lemma {:induction false} SeparatorSplitsRuns(a: string, c: char, b: string)
    requires !IsDigit(c)
    ensures DigitRuns(a + [c] + b) == DigitRuns(a) + DigitRuns(b)
    decreases |a|
  {
    var s := a + [c] + b;
    if a == [] {
      assert s[1..] == b;
    } else if !IsDigit(a[0]) {
      assert s[1..] == a[1..] + [c] + b;
      SeparatorSplitsRuns(a[1..], c, b);
    } else {
      var na := DigitPrefixLength(a);
      assert a[..na][0] == a[0];
      assert s[..na] == a[..na];
      if na < |a| {
        assert s[na] == a[na];
      }
      PrefixLengthUnique(s, na);
      assert s[na..] == a[na..] + [c] + b;
      SeparatorSplitsRuns(a[na..], c, b);
    }
  }

  // ---------------------------------------------------------------------------
  // Reading a run as a number: Python's int() on a string of ASCII digits
  // ---------------------------------------------------------------------------

  function DigitValue(c: char): nat
    requires IsDigit(c)
  {
    c as int - '0' as int
  }

  /** The decimal value of a digit string, read left to right. */
  function DecimalValue(t: string): nat
    requires AllDigits(t)
  {
    if t == [] then 0 else 10 * DecimalValue(t[..|t| - 1]) + DigitValue(t[|t| - 1])
  }

  function DigitChar(d: nat): char
    requires d < 10
  {
    ('0' as int + d) as char
  }

  /** The shortest decimal numeral of `n`: the inverse of DecimalValue. */
  function DecimalString(n: nat): (t: string)
    ensures t != [] && AllDigits(t)
  {
    if n < 10 then [DigitChar(n)] else DecimalString(n / 10) + [DigitChar(n % 10)]
  }

  lemma {:induction false} DecimalRoundTrip(n: nat)
    ensures DecimalValue(DecimalString(n)) == n
  {
    if n >= 10 {
      DecimalRoundTrip(n / 10);
      var t := DecimalString(n);
      assert t[..|t| - 1] == DecimalString(n / 10);
    }
  }

  /** A leading zero does not change the value: "007" reads as 7. */
  lemma {:induction false} LeadingZeroDropped(t: string)
    requires AllDigits(t)
    ensures AllDigits(['0'] + t) && DecimalValue(['0'] + t) == DecimalValue(t)
    decreases |t|
  {
    var z := ['0'] + t;
    if t != [] {
      assert z[..|z| - 1] == ['0'] + t[..|t| - 1];
      LeadingZeroDropped(t[..|t| - 1]);
    } else {
      assert z[..0] == [];
    }
  }

  /** The components C, M, Y, K as the source reads them: one non-negative integer per run. */
  function Components(s: string): (values: seq<nat>)
    ensures |values| == |DigitRuns(s)|
  {
    var runs := DigitRuns(s);
    seq(|runs|, i requires 0 <= i < |runs| => DecimalValue(runs[i]))
  }

  // ---------------------------------------------------------------------------
  // Channels and formatting
  // ---------------------------------------------------------------------------

  /** Python's int() on a quotient: truncation toward zero (Dafny's / is Euclidean). */
  function TruncDiv(a: int, d: nat): int
    requires d > 0
  {
    if a >= 0 then a / d else -((-a) / d)
  }

  /** One channel, 255 * (1 - x/100) * (1 - k/100), computed exactly and truncated. */
  function Channel(x: nat, k: nat): int {
    TruncDiv(255 * (100 - x) * (100 - k), 10000)
  }

  /** `v` is the integer part of the exact channel value for component `x` and key `k`. */
  ghost predicate IsTruncatedChannel(v: int, x: nat, k: nat) {
    v * 10000 <= 255 * (100 - x) * (100 - k) < (v + 1) * 10000
  }

  /** For components in 0..100 a channel is the integer part of its exact value and lies in 0..255. */
  lemma ChannelInRange(x: nat, k: nat)
    requires x <= 100 && k <= 100
    ensures 0 <= Channel(x, k) <= 255
    ensures IsTruncatedChannel(Channel(x, k), x, k)
  {
    var a, b := 100 - x, 100 - k;
    ProductBound(a, b);
    var n := 255 * a * b;
    assert n == 255 * (a * b);
    assert 0 <= n <= 2550000;
    assert Channel(x, k) == n / 10000;
  }

  lemma ProductBound(a: int, b: int)
    requires 0 <= a <= 100 && 0 <= b <= 100
    ensures 0 <= a * b <= 10000
  {
    assert a * b <= 100 * b;
  }

  predicate IsLowerHexDigit(c: char) {
    '0' <= c <= '9' || 'a' <= c <= 'f'
  }

  function HexDigit(d: nat): (c: char)
    requires d < 16
    ensures IsLowerHexDigit(c)
  {
    if d < 10 then ('0' as int + d) as char else ('a' as int + d - 10) as char
  }

  function HexDigitValue(c: char): (d: nat)
    requires IsLowerHexDigit(c)
    ensures d < 16
  {
    if c <= '9' then c as int - '0' as int else c as int - 'a' as int + 10
  }

  /** Python's format(n, 'x'): lower-case hex digits of `n`, "0" for zero. */
  function HexString(n: nat): (t: string)
    ensures t != []
  {
    if n < 16 then [HexDigit(n)] else HexString(n / 16) + [HexDigit(n % 16)]
  }

  /**
   * Python's format(v, '02x'): at least two characters, zero-padded. A negative
   * value keeps its sign ('-' and its magnitude in hex), which the width of two
   * never pads further.
   */
  function Format02x(v: int): string {
    if v < 0 then "-" + HexString(-v)
    else if v < 16 then "0" + HexString(v)
    else HexString(v)
  }

  /** A byte formats as exactly its two hex digits, high nibble first. */
  lemma ByteFormat(v: int)
    requires 0 <= v <= 255
    ensures Format02x(v) == [HexDigit(v / 16), HexDigit(v % 16)]
  {
    if v >= 16 {
      assert HexString(v) == HexString(v / 16) + [HexDigit(v % 16)];
      assert HexString(v / 16) == [HexDigit(v / 16)];
    }
  }

  /** The value of a two-digit lower-case hex string. */
  function ByteValue(t: string): nat
    requires |t| == 2 && IsLowerHexDigit(t[0]) && IsLowerHexDigit(t[1])
  {
    16 * HexDigitValue(t[0]) + HexDigitValue(t[1])
  }

  /** Formatting a byte and reading it back gives the byte. */
  lemma ByteRoundTrip(v: int)
    requires 0 <= v <= 255
    ensures var t := Format02x(v); |t| == 2 && IsLowerHexDigit(t[0]) && IsLowerHexDigit(t[1]) && ByteValue(t) == v
  {
    ByteFormat(v);
  }

  /**
   * What the source does with channels it does not range-check: a negative
   * channel is written with a '-' sign, and one above 255 takes more than two
   * hex digits, so the result is then not a six-digit colour.
   */
  lemma {:induction false} OutOfRangeFormat(v: int)
    ensures v < 0 ==> Format02x(v)[0] == '-'
    ensures v > 255 ==> |Format02x(v)| >= 3
  {
    if v > 255 {
      assert HexString(v) == HexString(v / 16) + [HexDigit(v % 16)];
      assert |HexString(v / 16)| >= 2;
    }
  }

  // ---------------------------------------------------------------------------
  // The converter
  // ---------------------------------------------------------------------------

  /** What the converter returns: a colour, or the recoverable format error naming its input. */
  datatype Conversion = Hex(code: string) | Invalid(input: string)
  {
    /** The exact string the tool hands back. */
    function Text(): string {
      match this
      case Hex(code) => code
      case Invalid(input) => "Formato CMYK inválido: " + input
    }
  }

  /** converter_cmyk_para_hex over ASCII digits, with exact channel arithmetic. */
  function ConvertCmykToHex(s: string): (r: Conversion)
    ensures r.Invalid? <==> |DigitRuns(s)| != 4
    ensures r.Invalid? ==> r.input == s
  {
    var v := Components(s);
    if |v| != 4 then Invalid(s)
    else Hex("#" + Format02x(Channel(v[0], v[3])) + Format02x(Channel(v[1], v[3])) + Format02x(Channel(v[2], v[3])))
  }

  /** A "#rrggbb" string: '#' and six lower-case hex digits. */
  predicate IsHexColour(code: string) {
    |code| == 7 && code[0] == '#' && forall i :: 1 <= i < 7 ==> IsLowerHexDigit(code[i])
  }

  /** The red, green and blue bytes a "#rrggbb" string encodes. */
  function RgbOf(code: string): (int, int, int)
    requires IsHexColour(code)
  {
    (ByteValue(code[1..3]), ByteValue(code[3..5]), ByteValue(code[5..7]))
  }

  /**
   * The converter reports the format error exactly when the scan counts a
   * number of digit runs other than four, whatever else the input holds, and
   * then returns the input inside the message instead of a colour.
   */
  lemma InvalidIffNotFourRuns(s: string)
    ensures ConvertCmykToHex(s).Invalid? <==> RunStarts(s, false) != 4
    ensures ConvertCmykToHex(s).Invalid? ==> ConvertCmykToHex(s).Text() == "Formato CMYK inválido: " + s
  {
    RunCount(s);
  }

  /**
   * With four components in 0..100 the converter returns '#' and six
   * lower-case hex digits, and those encode, in order, the truncated exact
   * red, green and blue channels.
   */
  lemma InRangeConversion(s: string)
    requires |Components(s)| == 4
    requires forall i :: 0 <= i < 4 ==> Components(s)[i] <= 100
    ensures ConvertCmykToHex(s).Hex? && IsHexColour(ConvertCmykToHex(s).code)
    ensures var v := Components(s);
            var (r, g, b) := RgbOf(ConvertCmykToHex(s).code);
            0 <= r <= 255 && 0 <= g <= 255 && 0 <= b <= 255 &&
            IsTruncatedChannel(r, v[0], v[3]) && IsTruncatedChannel(g, v[1], v[3]) && IsTruncatedChannel(b, v[2], v[3])
  {
    var v := Components(s);
    var cr, cg, cb := Channel(v[0], v[3]), Channel(v[1], v[3]), Channel(v[2], v[3]);
    ChannelInRange(v[0], v[3]);
    ChannelInRange(v[1], v[3]);
    ChannelInRange(v[2], v[3]);
    ByteRoundTrip(cr);
    ByteRoundTrip(cg);
    ByteRoundTrip(cb);
    var code := ConvertCmykToHex(s).code;
    assert code == "#" + Format02x(cr) + Format02x(cg) + Format02x(cb);
    assert code[1..3] == Format02x(cr);
    assert code[3..5] == Format02x(cg);
    assert code[5..7] == Format02x(cb);
  }

  /**
   * K = 100 gives black whatever C, M and Y are. This is a fact of the exact
   * arithmetic; in doubles a component of some 308 digits or more overflows
   * and the source reports an error instead.
   */
  lemma BlackWhenKeyFull(s: string)
    requires |Components(s)| == 4 && Components(s)[3] == 100
    ensures ConvertCmykToHex(s) == Hex("#000000")
  {
    var v := Components(s);
    assert Channel(v[0], 100) == 0 && Channel(v[1], 100) == 0 && Channel(v[2], 100) == 0;
    assert Format02x(0) == "00";
  }

  /**
   * Changing which non-digit character separates the runs does not change the
   * colour: the two results are both errors or both the same colour. (The error
   * text quotes the input, so it does change.)
   */
  lemma SeparatorIrrelevant(a: string, c1: char, c2: char, b: string)
    requires !IsDigit(c1) && !IsDigit(c2)
    ensures ConvertCmykToHex(a + [c1] + b).Invalid? == ConvertCmykToHex(a + [c2] + b).Invalid?
    ensures ConvertCmykToHex(a + [c1] + b).Hex? ==> ConvertCmykToHex(a + [c1] + b) == ConvertCmykToHex(a + [c2] + b)
  {
    SeparatorSplitsRuns(a, c1, b);
    SeparatorSplitsRuns(a, c2, b);
    SameRunsSameColour(a + [c1] + b, a + [c2] + b);
  }

  /**
   * The colour depends on the digit runs alone: two inputs with the same runs
   * are both errors or give the same colour, whatever text surrounds the runs.
   */
  lemma SameRunsSameColour(s1: string, s2: string)
    requires DigitRuns(s1) == DigitRuns(s2)
    ensures ConvertCmykToHex(s1).Invalid? == ConvertCmykToHex(s2).Invalid?
    ensures ConvertCmykToHex(s1).Hex? ==> ConvertCmykToHex(s1) == ConvertCmykToHex(s2)
  {
    assert Components(s1) == Components(s2);
  }

  /** All four components zero is white, whatever separates them. */
  lemma WhiteWhenNoInk(s: string)
    requires Components(s) == [0, 0, 0, 0]
    ensures ConvertCmykToHex(s) == Hex("#ffffff")
  {
    assert Format02x(255) == "ff";
  }

  /** C = 0, M = 100, Y = 100, K = 0 is pure red, whatever separates them. */
  lemma RedWhenMagentaAndYellowFull(s: string)
    requires Components(s) == [0, 100, 100, 0]
    ensures ConvertCmykToHex(s) == Hex("#ff0000")
  {
    assert Format02x(255) == "ff" && Format02x(0) == "00";
  }

  predicate NoDigits(t: string) {
    forall i :: 0 <= i < |t| ==> !IsDigit(t[i])
  }

  /**
   * The text a guide prints around the four numbers of a descriptor: before
   * C, between C and M, M and Y, Y and K, and after K. "C:0 M:100 Y:100 K:0" and
   * "CMYK(10,20,30,40)" are two layouts.
   */
  datatype Layout = Layout(lead: string, beforeM: string, beforeY: string, beforeK: string, trail: string)
  {
    predicate Valid() {
      && NoDigits(lead) && NoDigits(beforeM) && NoDigits(beforeY) && NoDigits(beforeK) && NoDigits(trail)
      && beforeM != [] && beforeY != [] && beforeK != []
    }
  }

  /** A descriptor written in layout `l` with shortest numerals. */
  function Spell(l: Layout, c: nat, m: nat, y: nat, k: nat): string {
    l.lead + (DecimalString(c) + (l.beforeM + (DecimalString(m) + (l.beforeY + (DecimalString(y) + (l.beforeK + (DecimalString(k) + l.trail)))))))
  }

  lemma {:induction false} SkipNonDigits(t: string, b: string)
    requires NoDigits(t)
    ensures DigitRuns(t + b) == DigitRuns(b)
    decreases |t|
  {
    if t != [] {
      assert (t + b)[1..] == t[1..] + b;
      SkipNonDigits(t[1..], b);
    } else {
      assert t + b == b;
    }
  }

  lemma RunThenSeparator(d: string, sep: string, b: string)
    requires d != [] && AllDigits(d) && sep != [] && NoDigits(sep)
    ensures DigitRuns(d + (sep + b)) == [d] + DigitRuns(b)
  {
    var c, rest := sep[0], sep[1..] + b;
    assert sep + b == [c] + rest by {
      assert sep == [c] + sep[1..];
    }
    assert d + (sep + b) == d + [c] + rest;
    assert DigitRuns(d + [c] + rest) == DigitRuns(d) + DigitRuns(rest) by {
      SeparatorSplitsRuns(d, c, rest);
    }
    SingleRun(d);
    SkipNonDigits(sep[1..], b);
  }

  lemma RunThenNonDigits(d: string, t: string)
    requires d != [] && AllDigits(d) && NoDigits(t)
    ensures DigitRuns(d + t) == [d]
  {
    SingleRun(d);
    if t == [] {
      assert d + t == d;
    } else {
      var c, rest := t[0], t[1..];
      assert d + t == d + [c] + rest by {
        assert t == [c] + rest;
      }
      assert DigitRuns(d + [c] + rest) == DigitRuns(d) + DigitRuns(rest) by {
        SeparatorSplitsRuns(d, c, rest);
      }
      assert DigitRuns(rest) == [] by {
        SkipNonDigits(rest, []);
        assert rest + [] == rest;
      }
    }
  }

  /** Spelling four components in any layout and reading the spelling back gives the same runs. */
  lemma SpellRuns(l: Layout, c: nat, m: nat, y: nat, k: nat)
    requires l.Valid()
    ensures DigitRuns(Spell(l, c, m, y, k)) == [DecimalString(c), DecimalString(m), DecimalString(y), DecimalString(k)]
  {
    var dc, dm, dy, dk := DecimalString(c), DecimalString(m), DecimalString(y), DecimalString(k);
    var t4 := dk + l.trail;
    var t3 := dy + (l.beforeK + t4);
    var t2 := dm + (l.beforeY + t3);
    var t1 := dc + (l.beforeM + t2);
    assert DigitRuns(t4) == [dk] by {
      RunThenNonDigits(dk, l.trail);
    }
    assert DigitRuns(t3) == [dy, dk] by {
      RunThenSeparator(dy, l.beforeK, t4);
    }
    assert DigitRuns(t2) == [dm, dy, dk] by {
      RunThenSeparator(dm, l.beforeY, t3);
    }
    assert DigitRuns(t1) == [dc, dm, dy, dk] by {
      RunThenSeparator(dc, l.beforeM, t2);
    }
    SkipNonDigits(l.lead, t1);
  }

  /** Printing four components in any layout and handing the text to the converter reads back exactly those four. */
  lemma SpellRoundTrip(l: Layout, c: nat, m: nat, y: nat, k: nat)
    requires l.Valid()
    ensures Components(Spell(l, c, m, y, k)) == [c, m, y, k]
  {
    SpellRuns(l, c, m, y, k);
    DecimalRoundTrip(c);
    DecimalRoundTrip(m);
    DecimalRoundTrip(y);
    DecimalRoundTrip(k);
  }

  /** The layout "C:c M:m Y:y K:k". */
  const TaggedLayout := Layout("C:", " M:", " Y:", " K:", "")

  /** The layout "c m y k". */
  const SpacedLayout := Layout("", " ", " ", " ", "")

  lemma LayoutsValid()
    ensures TaggedLayout.Valid() && SpacedLayout.Valid()
  {
  }

  lemma RedSpelled()
    ensures Spell(TaggedLayout, 0, 100, 100, 0) == "C:0 M:100 Y:100 K:0"
  {
    var zero, hundred := DecimalString(0), DecimalString(100);
    assert zero == "0" && hundred == "100";
    assert Spell(TaggedLayout, 0, 100, 100, 0) == "C:" + (zero + (" M:" + (hundred + (" Y:" + (hundred + (" K:" + (zero + "")))))));
  }

  lemma ZerosSpelled()
    ensures Spell(SpacedLayout, 0, 0, 0, 0) == "0 0 0 0"
  {
    var zero := DecimalString(0);
    assert zero == "0";
    assert Spell(SpacedLayout, 0, 0, 0, 0) == "" + (zero + (" " + (zero + (" " + (zero + (" " + (zero + "")))))));
  }

  /** "0 0 0 0" is white. */
  lemma WhiteForZeros()
    ensures ConvertCmykToHex("0 0 0 0") == Hex("#ffffff")
  {
    ZerosSpelled();
    LayoutsValid();
    SpellRoundTrip(SpacedLayout, 0, 0, 0, 0);
    WhiteWhenNoInk(Spell(SpacedLayout, 0, 0, 0, 0));
  }

  /** "C:0 M:100 Y:100 K:0" is pure red. */
  lemma RedExample()
    ensures ConvertCmykToHex("C:0 M:100 Y:100 K:0") == Hex("#ff0000")
  {
    RedSpelled();
    LayoutsValid();
    SpellRoundTrip(TaggedLayout, 0, 100, 100, 0);
    RedWhenMagentaAndYellowFull(Spell(TaggedLayout, 0, 100, 100, 0));
  }
}
