/**
 * The money codec of `backend/src/money.ts`: `parsePaise` turns a decimal
 * rupee string such as "199.50" into an exact number of paise.
 *
 * The source first tests the string against the regular expression
 * `^\d+(\.\d{1,2})?$`, then splits it on '.', reads the whole part with
 * `Number`, right-pads a fractional part to two digits and reads it too.
 * The model keeps those steps: the regular expression is a small automaton
 * (`Scan`), `Split` and `PadEnd` of module `JsText` follow
 * `String.prototype.split` and `String.prototype.padEnd`, and `DecimalValue` is `Number` on a string of
 * ASCII digits (exact: integers are unbounded here).
 */
module Money {
  import opened Wrappers
  import opened JsText

  // ---------------------------------------------------------------------
  // Digits

  /** `\d` of a JavaScript regular expression without the `u` flag. */
  predicate IsDigit(c: char) {
    '0' <= c <= '9'
  }

  predicate AllDigits(s: string) {
    forall i :: 0 <= i < |s| ==> IsDigit(s[i])
  }

  function DigitValue(c: char): nat
    requires IsDigit(c)
  {
    (c as int) - ('0' as int)
  }

  function DigitChar(d: nat): (c: char)
    requires d < 10
    ensures IsDigit(c) && DigitValue(c) == d
  {
    (('0' as int) + d) as char
  }

  /**
   * `Number(s)` for a string of decimal digits; the empty string reads as 0,
   * as in JavaScript. A string of k digits denotes less than 10^k.
   */
  function DecimalValue(s: string): (v: nat)
    requires AllDigits(s)
    ensures v < Power10(|s|)
    decreases |s|
  {
    if |s| == 0 then 0 else 10 * DecimalValue(s[..|s| - 1]) + DigitValue(s[|s| - 1])
  }

  /** 10^k. */
  function Power10(k: nat): (p: nat)
    ensures p >= 1
  {
    if k == 0 then 1 else 10 * Power10(k - 1)
  }

  // ---------------------------------------------------------------------
  // The accepted shape, stated declaratively

  /** `\d+`: one or more digits. */
  predicate IsDigitRun(s: string) {
    |s| >= 1 && AllDigits(s)
  }

  /** `s` is `\d+` followed by a '.' and exactly `n` digits. */
  predicate HasFraction(s: string, n: nat) {
    && |s| >= n + 2
    && s[|s| - n - 1] == '.'
    && IsDigitRun(s[..|s| - n - 1])
    && AllDigits(s[|s| - n..])
  }

  /** The language of `^\d+(\.\d{1,2})?$`. */
  predicate IsAmountShape(s: string) {
    IsDigitRun(s) || HasFraction(s, 1) || HasFraction(s, 2)
  }

  /** The digits before the '.' (all of `s` when there is no '.'). */
  function WholeDigits(s: string): (w: string)
    requires IsAmountShape(s)
    ensures IsDigitRun(w)
  {
    if IsDigitRun(s) then s
    else if HasFraction(s, 1) then s[..|s| - 2]
    else s[..|s| - 3]
  }

  /** The paise the fractional digits stand for: one digit is tenths of a rupee. */
  function FractionPaise(s: string): (f: nat)
    requires IsAmountShape(s)
    ensures f < 100
  {
    if IsDigitRun(s) then 0
    else if HasFraction(s, 1) then 10 * DigitValue(s[|s| - 1])
    else 10 * DigitValue(s[|s| - 2]) + DigitValue(s[|s| - 1])
  }

  /** The value a well-shaped amount denotes, in paise. */
  function AmountValue(s: string): nat
    requires IsAmountShape(s)
  {
    100 * DecimalValue(WholeDigits(s)) + FractionPaise(s)
  }

  // ---------------------------------------------------------------------
  // The regular expression as an automaton

  /** Where the matcher of `^\d+(\.\d{1,2})?$` is after reading a prefix. */
  datatype MatchState = Start | Whole | Point | Tenths | Hundredths | Dead

  function Step(q: MatchState, c: char): MatchState {
    match q
    case Start => if IsDigit(c) then Whole else Dead
    case Whole => if IsDigit(c) then Whole else if c == '.' then Point else Dead
    case Point => if IsDigit(c) then Tenths else Dead
    case Tenths => if IsDigit(c) then Hundredths else Dead
    case Hundredths => Dead
    case Dead => Dead
  }

  /** Runs the automaton over `s` from left to right. */
  function Scan(s: string): MatchState
    decreases |s|
  {
    if |s| == 0 then Start else Step(Scan(s[..|s| - 1]), s[|s| - 1])
  }

  /** `/^\d+(\.\d{1,2})?$/.test(s)`, the test both the server and the form apply. */
  predicate MatchesAmountPattern(s: string) {
    var q := Scan(s);
    q == Whole || q == Tenths || q == Hundredths
  }

  /** The state the automaton should reach on `s`, read off the declarative shapes. */
  function Expected(s: string): MatchState {
    if |s| == 0 then Start
    else if IsDigitRun(s) then Whole
    else if HasFraction(s, 0) then Point
    else if HasFraction(s, 1) then Tenths
    else if HasFraction(s, 2) then Hundredths
    else Dead
  }

  lemma DigitRunPrefix(s: string)
    requires |s| >= 2 && IsDigitRun(s)
    ensures IsDigitRun(s[..|s| - 1])
  {
    var p := s[..|s| - 1];
    forall i | 0 <= i < |p| ensures IsDigit(p[i]) {
      assert p[i] == s[i];
    }
  }

  lemma FractionPrefix(s: string, n: nat)
    requires HasFraction(s, n + 1)
    ensures HasFraction(s[..|s| - 1], n)
  {
    var p := s[..|s| - 1];
    assert p[..|p| - n - 1] == s[..|s| - n - 2];
    forall i | |p| - n <= i < |p| ensures IsDigit(p[i]) {
      assert p[i] == s[|s| - n - 1..][i - (|s| - n - 1)];
    }
  }

  lemma DigitRunExtend(p: string, c: char)
    requires (|p| == 0 || IsDigitRun(p)) && IsDigit(c)
    ensures IsDigitRun(p + [c])
  {
  }

  lemma FractionExtend(p: string, c: char, n: nat)
    requires HasFraction(p, n) && IsDigit(c)
    ensures HasFraction(p + [c], n + 1)
  {
    var s := p + [c];
    assert s[..|s| - n - 2] == p[..|p| - n - 1];
    assert s[|s| - n - 1..] == p[|p| - n..] + [c];
  }

  /** A string ending in `c` that is a digit run or carries a fraction has `c` a digit or '.'. */
  lemma LastCharOfShape(s: string, n: nat)
    requires |s| >= 1 && HasFraction(s, n)
    ensures n == 0 ==> s[|s| - 1] == '.'
    ensures n > 0 ==> IsDigit(s[|s| - 1])
  {
    if n > 0 {
      assert s[|s| - 1] == s[|s| - n..][n - 1];
    }
  }

  /** A string with a '.' is not a digit run, and the '.' position fixes `n`. */
  lemma ShapesExclusive(s: string, n: nat, m: nat)
    requires HasFraction(s, n)
    ensures !IsDigitRun(s)
    ensures HasFraction(s, m) ==> n == m
  {
    assert s[|s| - n - 1] == '.';
  }

  /** One step of the automaton tracks one more character of the declarative shapes. */
  lemma {:induction false} StepTracksShape(p: string, c: char)
    ensures Expected(p + [c]) == Step(Expected(p), c)
  {
    var s := p + [c];
    assert s[..|s| - 1] == p;
    if |p| == 0 {
      if !IsDigit(c) {
        assert !IsDigitRun(s) by { assert s[0] == c; }
      }
    } else if IsDigitRun(p) {
      if IsDigit(c) {
        DigitRunExtend(p, c);
      } else if c == '.' {
        assert !IsDigitRun(s) by { assert s[|s| - 1] == c; }
        assert HasFraction(s, 0);
      } else {
        NotAnyShape(s);
      }
    } else if HasFraction(p, 0) {
      ShapesExclusive(p, 0, 0);
      if IsDigit(c) {
        FractionExtend(p, c, 0);
        ShapesExclusive(s, 1, 0);
        ShapesExclusive(s, 1, 1);
      } else {
        NotAnyShape(s);
      }
    } else if HasFraction(p, 1) {
      ShapesExclusive(p, 1, 0);
      if IsDigit(c) {
        FractionExtend(p, c, 1);
        ShapesExclusive(s, 2, 0);
        ShapesExclusive(s, 2, 1);
      } else {
        NotAnyShape(s);
      }
    } else {
      NotAnyShape(s);
    }
  }

  /** `s` has no shape unless its prefix had the shape one step behind. */
  lemma NotAnyShape(s: string)
    requires |s| >= 1
    requires var p := s[..|s| - 1];
      !((|p| == 0 || IsDigitRun(p)) && IsDigit(s[|s| - 1]))
      && !(IsDigitRun(p) && s[|s| - 1] == '.')
      && !(HasFraction(p, 0) && IsDigit(s[|s| - 1]))
      && !(HasFraction(p, 1) && IsDigit(s[|s| - 1]))
    ensures Expected(s) == Dead
  {
    var p := s[..|s| - 1];
    if IsDigitRun(s) {
      if |s| >= 2 { DigitRunPrefix(s); }
    }
    if HasFraction(s, 1) {
      FractionPrefix(s, 0);
      LastCharOfShape(s, 1);
    }
    if HasFraction(s, 2) {
      FractionPrefix(s, 1);
      LastCharOfShape(s, 2);
    }
  }

  /** The automaton ends in exactly the state the declarative shapes predict. */
  lemma {:induction false} ScanTracksShape(s: string)
    ensures Scan(s) == Expected(s)
    decreases |s|
  {
    if |s| > 0 {
      var p := s[..|s| - 1];
      ScanTracksShape(p);
      StepTracksShape(p, s[|s| - 1]);
      assert p + [s[|s| - 1]] == s;
    }
  }

  /** The regular expression accepts exactly the amount shapes. */
  lemma PatternIsShape(s: string)
    ensures MatchesAmountPattern(s) <==> IsAmountShape(s)
  {
    ScanTracksShape(s);
    if HasFraction(s, 1) {
      ShapesExclusive(s, 1, 0);
    }
    if HasFraction(s, 2) {
      ShapesExclusive(s, 2, 0);
      ShapesExclusive(s, 2, 1);
    }
  }

  // ---------------------------------------------------------------------
  // parsePaise

  /** An amount with a fractional part splits into the whole digits and the fractional digits. */
  lemma SplitFraction(s: string, n: nat)
    requires HasFraction(s, n)
    ensures var parts := Split(s, '.');
      |parts| == 2 && parts[0] == s[..|s| - n - 1] && parts[1] == s[|s| - n..]
  {
    var w := s[..|s| - n - 1];
    var f := s[|s| - n..];
    assert s == w + ['.'] + f;
    SplitPointed(w, f);
    assert Split(s, '.') == [w, f];
  }

  lemma SplitPointed(w: string, f: string)
    requires AllDigits(w) && AllDigits(f)
    ensures Split(w + ['.'] + f, '.') == [w, f]
  {
    DigitsAreNotPoints(w);
    DigitsAreNotPoints(f);
    SplitAtFirst(w, '.', f);
    SplitWithoutSeparator(f, '.');
  }

  lemma DigitsAreNotPoints(s: string)
    requires AllDigits(s)
    ensures forall i :: 0 <= i < |s| ==> s[i] != '.'
  {
  }

  /** How `amount.split(".")` comes apart for a well-shaped amount. */
  lemma SplitAmount(s: string)
    requires IsAmountShape(s)
    ensures var parts := Split(s, '.');
      && parts[0] == WholeDigits(s)
      && (IsDigitRun(s) ==> |parts| == 1)
      && (HasFraction(s, 1) ==> |parts| == 2 && parts[1] == s[|s| - 1..])
      && (HasFraction(s, 2) ==> |parts| == 2 && parts[1] == s[|s| - 2..])
  {
    if IsDigitRun(s) {
      SplitWithoutSeparator(s, '.');
    } else if HasFraction(s, 1) {
      ShapesExclusive(s, 1, 2);
      SplitFraction(s, 1);
    } else {
      SplitFraction(s, 2);
    }
  }

  lemma TwoDigitValue(a: char, b: char)
    requires IsDigit(a) && IsDigit(b)
    ensures DecimalValue([a, b]) == 10 * DigitValue(a) + DigitValue(b)
  {
    assert [a, b][..1] == [a];
    assert [a][..0] == [];
    assert DecimalValue([a]) == DigitValue(a);
  }

  /** Reading the padded fractional part of a well-shaped amount gives its paise. */
  lemma FractionalPartValue(s: string)
    requires IsAmountShape(s)
    ensures var parts := Split(s, '.');
      if |parts| > 1 && parts[1] != "" then
        AllDigits(PadEnd(parts[1], 2, '0')) && DecimalValue(PadEnd(parts[1], 2, '0')) == FractionPaise(s)
      else FractionPaise(s) == 0
  {
    SplitAmount(s);
    var parts := Split(s, '.');
    if HasFraction(s, 1) {
      ShapesExclusive(s, 1, 0);
      LastCharOfShape(s, 1);
      assert PadEnd(parts[1], 2, '0') == [s[|s| - 1], '0'];
      TwoDigitValue(s[|s| - 1], '0');
    } else if HasFraction(s, 2) {
      ShapesExclusive(s, 2, 0);
      ShapesExclusive(s, 2, 1);
      assert parts[1] == [s[|s| - 2], s[|s| - 1]];
      assert IsDigit(s[|s| - 2]) by { assert s[|s| - 2] == s[|s| - 2..][0]; }
      assert IsDigit(s[|s| - 1]) by { assert s[|s| - 1] == s[|s| - 2..][1]; }
      TwoDigitValue(s[|s| - 2], s[|s| - 1]);
    }
  }

  /**
   * `parsePaise(amount)`: null unless the amount has the accepted shape; otherwise
   * the whole rupees times 100 plus the fractional digits padded to two places.
   */
  function ParsePaise(amount: string): (r: Option<nat>)
    ensures r.Some? <==> IsAmountShape(amount)
    ensures r.Some? ==> r.value == AmountValue(amount)
  {
    PatternIsShape(amount);
    if !MatchesAmountPattern(amount) then None
    else
      SplitAmount(amount);
      FractionalPartValue(amount);
      var parts := Split(amount, '.');
      var whole := DecimalValue(parts[0]);
      var fractional := if |parts| > 1 && parts[1] != "" then DecimalValue(PadEnd(parts[1], 2, '0')) else 0;
      Some(whole * 100 + fractional)
  }

  // ---------------------------------------------------------------------
  // Properties of parsePaise

  /** The result is never negative and splits back into whole rupees and the fractional paise. */
  lemma ParseSplitsIntoRupeesAndPaise(s: string)
    requires ParsePaise(s).Some?
    ensures var p := ParsePaise(s).value;
      && p >= 0
      && p / 100 == DecimalValue(WholeDigits(s))
      && p % 100 == FractionPaise(s)
  {
    var p := ParsePaise(s).value;
    var w := DecimalValue(WholeDigits(s));
    var f := FractionPaise(s);
    assert p == 100 * w + f && 0 <= f < 100;
  }

  /** The value of an amount with `n` fractional digits, in terms of its pieces. */
  lemma FractionAmountValue(s: string, n: nat)
    requires 1 <= n <= 2 && HasFraction(s, n)
    ensures IsDigit(s[|s| - 1]) && (n == 2 ==> IsDigit(s[|s| - 2]))
    ensures ParsePaise(s) == Some(100 * DecimalValue(s[..|s| - n - 1]) +
      if n == 1 then 10 * DigitValue(s[|s| - 1])
      else 10 * DigitValue(s[|s| - 2]) + DigitValue(s[|s| - 1]))
  {
    ShapesExclusive(s, n, 0);
    ShapesExclusive(s, n, 3 - n);
    assert s[|s| - 1] == s[|s| - n..][n - 1];
    if n == 2 {
      assert s[|s| - 2] == s[|s| - n..][0];
    }
  }

  /** The value of an amount without a fractional part. */
  lemma WholeAmountValue(s: string)
    requires IsDigitRun(s)
    ensures ParsePaise(s) == Some(100 * DecimalValue(s))
  {
  }

  /** A single fractional digit means tenths: "x.d" and "x.d0" are the same amount. */
  lemma PaddingEquivalence(w: string, d: char)
    requires IsDigitRun(w) && IsDigit(d)
    ensures ParsePaise(w + ['.', d]).Some?
    ensures ParsePaise(w + ['.', d]) == ParsePaise(w + ['.', d, '0'])
  {
    var s1 := w + ['.', d];
    var s2 := w + ['.', d, '0'];
    assert s1[..|s1| - 2] == w && s1[|s1| - 2] == '.' && s1[|s1| - 1..] == [d];
    assert s2[..|s2| - 3] == w && s2[|s2| - 3] == '.' && s2[|s2| - 2..] == [d, '0'];
    TenthsAndHundredths(s1, s2, w, d);
  }

  lemma TenthsAndHundredths(s1: string, s2: string, w: string, d: char)
    requires IsDigitRun(w) && IsDigit(d)
    requires |s1| == |w| + 2 && s1[..|s1| - 2] == w && s1[|s1| - 2] == '.' && s1[|s1| - 1..] == [d]
    requires |s2| == |w| + 3 && s2[..|s2| - 3] == w && s2[|s2| - 3] == '.' && s2[|s2| - 2..] == [d, '0']
    ensures ParsePaise(s1).Some? && ParsePaise(s1) == ParsePaise(s2)
  {
    assert s1[|s1| - 1] == d && s2[|s2| - 2] == d && s2[|s2| - 1] == '0';
    FractionAmountValue(s1, 1);
    FractionAmountValue(s2, 2);
  }

  /** The decimal digits of `n`, without leading zeros. */
  function NatDigits(n: nat): (s: string)
    ensures IsDigitRun(s) && DecimalValue(s) == n
    decreases n
  {
    var last := DigitChar(n % 10);
    if n < 10 then [last]
    else
      var init := NatDigits(n / 10);
      assert (init + [last])[..|init|] == init;
      init + [last]
  }

  /** `p` paise spelled as rupees with exactly two decimals, e.g. 19950 as "199.50". */
  function RenderPaise(p: nat): string {
    NatDigits(p / 100) + ['.', DigitChar(p % 100 / 10), DigitChar(p % 10)]
  }

  /** Every paise value is reached by the parser: it reads its own two-decimal spelling back. */
  lemma ParseRendered(p: nat)
    ensures ParsePaise(RenderPaise(p)) == Some(p)
  {
    var w := NatDigits(p / 100);
    var tens := DigitChar(p % 100 / 10);
    var units := DigitChar(p % 10);
    var s := RenderPaise(p);
    assert s == w + ['.', tens, units];
    assert s[..|s| - 3] == w;
    assert s[|s| - 2..] == [tens, units];
    FractionAmountValue(s, 2);
    assert ParsePaise(s) == Some(100 * (p / 100) + 10 * (p % 100 / 10) + p % 10);
    PaiseDigits(p);
  }

  lemma PaiseDigits(p: nat)
    ensures 100 * (p / 100) + 10 * (p % 100 / 10) + p % 10 == p
  {
    var q, r := p / 100, p % 100;
    assert p == 100 * q + r && r < 100;
    assert p == 10 * (10 * q + r / 10) + r % 10;
  }

  /** The amount of the backend's main test body: "199.50" is 19950 paise. */
  lemma ParseExampleWithPaise()
    ensures ParsePaise("199.50") == Some(19950)
  {
    var s := "199.50";
    assert s[..3] == "199";
    assert "199"[..2] == "19" && "19"[..1] == "1" && "1"[..0] == "";
    assert DecimalValue("199") == 199;
    FractionAmountValue(s, 2);
  }

  /** A whole number of rupees: "200" is 20000 paise. */
  lemma ParseExampleWhole()
    ensures ParsePaise("200") == Some(20000)
  {
    assert "200"[..2] == "20" && "20"[..1] == "2" && "2"[..0] == "";
    assert DecimalValue("200") == 200;
    WholeAmountValue("200");
  }

  /** A single fractional digit is tenths: "0.1" is 10 paise. */
  lemma ParseExampleTenths()
    ensures ParsePaise("0.1") == Some(10)
  {
    var s := "0.1";
    assert s[..1] == "0" && "0"[..0] == "";
    assert DecimalValue("0") == 0;
    FractionAmountValue(s, 1);
  }

  /** Signs and empty strings are refused: "" and "-10.00" do not parse. */
  lemma RejectSigned()
    ensures ParsePaise("").None?
    ensures ParsePaise("-10.00").None?
  {
    assert !IsDigitRun("-10.00") by { assert !IsDigit("-10.00"[0]); }
    assert !IsDigitRun("-10.00"[..3]) by { assert !IsDigit("-10.00"[..3][0]); }
  }

  /** At most one '.' and at most two decimals: "10.999" and "1.2.3" do not parse. */
  lemma RejectLongFractions()
    ensures ParsePaise("10.999").None?
    ensures ParsePaise("1.2.3").None?
  {
    assert !IsDigitRun("10.999") by { assert !IsDigit("10.999"[2]); }
    assert !IsDigitRun("1.2.3") by { assert !IsDigit("1.2.3"[1]); }
    assert !IsDigitRun("1.2.3"[..3]) by { assert !IsDigit("1.2.3"[..3][1]); }
  }

  /** Letters, exponents and a bare '.' on either side are refused: "abc", "1e5", ".5" and "5." do not parse. */
  lemma RejectNonDecimals()
    ensures ParsePaise("abc").None?
    ensures ParsePaise("1e5").None?
    ensures ParsePaise(".5").None?
    ensures ParsePaise("5.").None?
  {
    assert !IsDigitRun("abc") by { assert !IsDigit("abc"[0]); }
    assert !IsDigitRun("1e5") by { assert !IsDigit("1e5"[1]); }
    assert !IsDigitRun(".5") by { assert !IsDigit(".5"[0]); }
    assert !IsDigitRun("5.") by { assert !IsDigit("5."[1]); }
  }
}
