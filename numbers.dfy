/** Number tokens as the sensor parser's regular expressions see them, and the
    decimal strings Python's `float()` turns into numbers. */
module Numbers {
  import opened Wrappers
  import Text

  predicate IsDigit(c: char) { '0' <= c <= '9' }

  predicate IsSign(c: char) { c == '+' || c == '-' }

  predicate AllDigits(s: string) {
    forall k :: 0 <= k < |s| ==> IsDigit(s[k])
  }

  /** Length of the run of digits that starts at `i`. */
  function DigitRun(s: string, i: nat): (n: nat)
    requires i <= |s|
    ensures i + n <= |s|
    ensures forall k :: i <= k < i + n ==> IsDigit(s[k])
    ensures i + n == |s| || !IsDigit(s[i + n])
    decreases |s| - i
  {
    if i < |s| && IsDigit(s[i]) then 1 + DigitRun(s, i + 1) else 0
  }

  /** The shape `sign? digits ('.' digits)?` read greedily from some index: the
      length of each of its four parts. */
  datatype Scan = Scan(sign: nat, whole: nat, dot: bool, frac: nat) {
    function Len(): nat {
      sign + whole + (if dot then 1 else 0) + frac
    }
  }

  /** Reads `[+-]? \d* (\. \d*)?` greedily from `i`; the sign is read only when
      `signed`. */
  function ScanAt(s: string, i: nat, signed: bool): (sc: Scan)
    requires i <= |s|
    ensures i + sc.Len() <= |s|
    ensures sc.sign <= 1 && (sc.sign == 1 <==> signed && i < |s| && IsSign(s[i]))
    ensures !sc.dot ==> sc.frac == 0
  {
    var sg := if signed && i < |s| && IsSign(s[i]) then 1 else 0;
    var w := DigitRun(s, i + sg);
    var dot := i + sg + w < |s| && s[i + sg + w] == '.';
    var f := if dot then DigitRun(s, i + sg + w + 1) else 0;
    Scan(sg, w, dot, f)
  }

  /** The number pattern `[+-]?\d+\.?\d*` (signed) or `[0-9]+\.?[0-9]*` (unsigned)
      matches at `i`: a digit follows the optional sign. A greedy match is then
      `ScanAt(s, i, signed).Len()` characters long. */
  predicate MatchesAt(s: string, i: nat, signed: bool)
    requires i <= |s|
  {
    ScanAt(s, i, signed).whole > 0
  }

  /** A match needs a digit at `i`, or (signed) a sign and then a digit. */
  lemma MatchesAtIff(s: string, i: nat, signed: bool)
    requires i <= |s|
    ensures MatchesAt(s, i, signed) <==>
              || (i < |s| && IsDigit(s[i]))
              || (signed && i + 1 < |s| && IsSign(s[i]) && IsDigit(s[i + 1]))
  {
  }

  /** The whole of `t` is one match of the number pattern (`re.fullmatch`). */
  predicate IsNumeral(t: string, signed: bool) {
    var sc := ScanAt(t, 0, signed);
    sc.whole > 0 && sc.Len() == |t|
  }

  /** The plain decimal notation `float()` accepts once whitespace is stripped:
      an optional sign, digits, an optional '.', digits; at least one digit. */
  predicate IsDecimal(t: string) {
    var sc := ScanAt(t, 0, true);
    sc.whole + sc.frac > 0 && sc.Len() == |t|
  }

  /** A run of digits read in a copy `t` of the text at `i` is the same run,
      when it ends inside the copy. */
  lemma {:induction false} DigitRunInCopy(s: string, i: nat, t: string, j: nat)
    requires i + |t| <= |s| && j <= |t|
    requires forall k :: 0 <= k < |t| ==> t[k] == s[i + k]
    requires j + DigitRun(s, i + j) <= |t|
    ensures DigitRun(t, j) == DigitRun(s, i + j)
    decreases |t| - j
  {
    if j < |t| && IsDigit(t[j]) {
      DigitRunInCopy(s, i, t, j + 1);
    }
  }

  /** What a greedy match reads is a numeral in its own right. */
  lemma MatchIsNumeral(s: string, i: nat, signed: bool)
    requires i <= |s| && MatchesAt(s, i, signed)
    ensures IsNumeral(s[i..i + ScanAt(s, i, signed).Len()], signed)
  {
    ScanOfCopy(s, i, s[i..i + ScanAt(s, i, signed).Len()], signed);
  }

  /** Scanning a copy of the text a scan read reads it the same way. */
  lemma ScanOfCopy(s: string, i: nat, t: string, signed: bool)
    requires i <= |s| && |t| == ScanAt(s, i, signed).Len()
    requires forall k :: 0 <= k < |t| ==> t[k] == s[i + k]
    ensures ScanAt(t, 0, signed) == ScanAt(s, i, signed)
  {
    CopyScansLead(s, i, t, signed);
    CopyScansTail(s, i, t, signed);
  }

  /** The copy has the same sign and integer part. */
  lemma CopyScansLead(s: string, i: nat, t: string, signed: bool)
    requires i <= |s| && |t| == ScanAt(s, i, signed).Len()
    requires forall k :: 0 <= k < |t| ==> t[k] == s[i + k]
    ensures ScanAt(t, 0, signed).sign == ScanAt(s, i, signed).sign
    ensures ScanAt(t, 0, signed).whole == ScanAt(s, i, signed).whole
  {
    var sg := ScanAt(s, i, signed).sign;
    assert |t| > 0 ==> t[0] == s[i];
    DigitRunInCopy(s, i, t, sg);
  }

  /** The copy has the same fractional part. */
  lemma CopyScansTail(s: string, i: nat, t: string, signed: bool)
    requires i <= |s| && |t| == ScanAt(s, i, signed).Len()
    requires forall k :: 0 <= k < |t| ==> t[k] == s[i + k]
    requires ScanAt(t, 0, signed).sign == ScanAt(s, i, signed).sign
    requires ScanAt(t, 0, signed).whole == ScanAt(s, i, signed).whole
    ensures ScanAt(t, 0, signed).dot == ScanAt(s, i, signed).dot
    ensures ScanAt(t, 0, signed).frac == ScanAt(s, i, signed).frac
  {
    var sc := ScanAt(s, i, signed);
    var n := sc.sign + sc.whole;
    if sc.dot {
      assert t[n] == s[i + n];
      DigitRunInCopy(s, i, t, n + 1);
    } else {
      assert |t| == n;
    }
  }

  /** A numeral starts with a sign or a digit and ends with a digit or '.'. */
  lemma NumeralEnds(t: string, signed: bool)
    requires IsNumeral(t, signed)
    ensures |t| > 0
    ensures IsSign(t[0]) || IsDigit(t[0])
    ensures IsDigit(t[|t| - 1]) || t[|t| - 1] == '.'
  {
    var sc := ScanAt(t, 0, signed);
    var sg := sc.sign;
    assert AllDigits(t[sg..sg + sc.whole]);
    assert t[sg..sg + sc.whole][0] == t[sg];
    if sc.dot && sc.frac > 0 {
      var f0 := sg + sc.whole + 1;
      assert AllDigits(t[f0..f0 + sc.frac]);
      assert t[f0..f0 + sc.frac][sc.frac - 1] == t[|t| - 1];
    } else if !sc.dot {
      assert t[sg..sg + sc.whole][sc.whole - 1] == t[|t| - 1];
    }
  }

  /** Python's `re.search` with the number pattern, from index `i` on: the
      leftmost index where it matches, or -1. */
  function SearchFrom(s: string, signed: bool, i: nat): (k: int)
    requires i <= |s|
    ensures k == -1 || (i <= k <= |s| && MatchesAt(s, k, signed))
    ensures k != -1 ==> forall j :: i <= j < k ==> !MatchesAt(s, j, signed)
    ensures k == -1 ==> forall j :: i <= j <= |s| ==> !MatchesAt(s, j, signed)
    decreases |s| - i
  {
    if MatchesAt(s, i, signed) then i
    else if i == |s| then -1
    else SearchFrom(s, signed, i + 1)
  }

  /** The text of the leftmost match (group 1), if any. */
  function SearchNumber(s: string, signed: bool): Option<string> {
    var k := SearchFrom(s, signed, 0);
    if k == -1 then None else Some(s[k..k + ScanAt(s, k, signed).Len()])
  }

  /** What a search finds is always a numeral. */
  lemma SearchFindsNumeral(s: string, signed: bool)
    requires SearchNumber(s, signed).Some?
    ensures IsNumeral(SearchNumber(s, signed).value, signed)
  {
    MatchIsNumeral(s, SearchFrom(s, signed, 0), signed);
  }

  /** An unsigned numeral is also a signed one. */
  lemma UnsignedNumeralIsSigned(t: string)
    requires IsNumeral(t, false)
    ensures IsNumeral(t, true)
  {
    NumeralEnds(t, false);
  }

  /** Every signed numeral is a decimal, with no whitespace around it. */
  lemma NumeralIsDecimal(t: string)
    requires IsNumeral(t, true)
    ensures IsDecimal(t) && Text.Strip(t) == t
  {
    NumeralEnds(t, true);
    Text.StripOfUnpadded(t);
  }

  function Pow10(n: nat): (p: nat)
    ensures p >= 1
  {
    if n == 0 then 1 else 10 * Pow10(n - 1)
  }

  /** The value of a string of decimal digits ("" is 0). */
  function DigitsValue(ds: string): nat
    requires AllDigits(ds)
  {
    if |ds| == 0 then 0 else 10 * DigitsValue(ds[..|ds| - 1]) + (ds[|ds| - 1] as int - '0' as int)
  }

  /** The number `ws.fs` denotes: `ws` plus `fs` tenths, hundredths, and so on. */
  function PointValue(ws: string, fs: string): real
    requires AllDigits(ws) && AllDigits(fs)
  {
    DigitsValue(ws) as real + DigitsValue(fs) as real / Pow10(|fs|) as real
  }

  /** The digits before the point, as a scan from the start reads them. */
  function WholeDigits(t: string): string {
    var sc := ScanAt(t, 0, true);
    t[sc.sign..sc.sign + sc.whole]
  }

  /** The digits after the point ("" without a point). */
  function FracDigits(t: string): string {
    var sc := ScanAt(t, 0, true);
    var f0 := sc.sign + sc.whole + 1;
    if sc.dot then t[f0..f0 + sc.frac] else ""
  }

  lemma PartsAreDigits(t: string)
    ensures AllDigits(WholeDigits(t)) && AllDigits(FracDigits(t))
  {
  }

  /** The number a decimal string denotes: whole part plus fraction, negated
      after a '-'. */
  function DecimalValue(t: string): real
    requires IsDecimal(t)
  {
    PartsAreDigits(t);
    var magnitude := PointValue(WholeDigits(t), FracDigits(t));
    if ScanAt(t, 0, true).sign == 1 && t[0] == '-' then -magnitude else magnitude
  }

  /** Python's `float(s)` on the plain decimal notation: surrounding whitespace is
      ignored, anything else is rejected (None stands for the ValueError). The
      two ensures only unfold the definition for callers; what `float()`
      promises is stated by the lemmas below. */
  function PyFloat(s: string): (r: Option<real>)
    ensures r.Some? <==> IsDecimal(Text.Strip(s))
    ensures r.Some? ==> r.value == DecimalValue(Text.Strip(s))
  {
    var t := Text.Strip(s);
    if IsDecimal(t) then Some(DecimalValue(t)) else None
  }

  /** `float()` ignores whitespace around its argument. */
  lemma PyFloatIgnoresPadding(w: string, t: string, w': string)
    requires Text.AllSpaces(w) && Text.AllSpaces(w')
    ensures PyFloat(w + t + w') == PyFloat(t)
  {
    Text.StripOfPadded(w, t, w');
  }

  /** A decimal is made of signs, digits and '.' only. */
  lemma DecimalCharacters(t: string)
    requires IsDecimal(t)
    ensures forall k :: 0 <= k < |t| ==> IsSign(t[k]) || IsDigit(t[k]) || t[k] == '.'
  {
  }

  /** A decimal has no whitespace around it. */
  lemma DecimalIsStripped(t: string)
    requires IsDecimal(t)
    ensures Text.Strip(t) == t
  {
    DecimalCharacters(t);
    Text.StripOfUnpadded(t);
  }

  /** A run of digits read after a prefix `c` is the run read in `t`. */
  lemma {:induction false} DigitRunShift(c: string, t: string, j: nat)
    requires j <= |t|
    ensures DigitRun(c + t, |c| + j) == DigitRun(t, j)
    decreases |t| - j
  {
    if j < |t| {
      assert (c + t)[|c| + j] == t[j];
      DigitRunShift(c, t, j + 1);
    }
  }

  /** A sign in front of an unsigned text is read as the sign, and the rest is
      read as before. */
  lemma ScanAfterSign(c: char, t: string)
    requires IsSign(c) && t != [] && !IsSign(t[0])
    ensures var su := ScanAt(t, 0, true);
            ScanAt([c] + t, 0, true) == Scan(1, su.whole, su.dot, su.frac)
  {
    var s := [c] + t;
    var su := ScanAt(t, 0, true);
    assert s[0] == c && su.sign == 0;
    DigitRunShift([c], t, 0);
    var w := su.whole;
    assert DigitRun(s, 1) == w;
    if w < |t| {
      assert s[1 + w] == t[w];
      if t[w] == '.' {
        DigitRunShift([c], t, w + 1);
        assert DigitRun(s, w + 2) == su.frac;
      }
    }
  }

  /** A slice of `t` is the same slice of `c + t`, shifted by `|c|`. */
  lemma SliceAfterPrefix(c: string, t: string, a: nat, b: nat)
    requires a <= b <= |t|
    ensures (c + t)[|c| + a..|c| + b] == t[a..b]
  {
    assert forall k :: a <= k < b ==> (c + t)[|c| + k] == t[k];
  }

  /** The whole digits of a signed text are those of the text after the sign. */
  lemma SignedWhole(c: char, t: string)
    requires IsSign(c) && t != [] && !IsSign(t[0])
    ensures WholeDigits([c] + t) == WholeDigits(t)
  {
    ScanAfterSign(c, t);
    SliceAfterPrefix([c], t, 0, ScanAt(t, 0, true).whole);
  }

  /** The fraction digits, read off a known scan. */
  lemma FracOfScan(s: string, sc: Scan)
    requires ScanAt(s, 0, true) == sc
    ensures sc.sign + sc.whole + 1 + sc.frac <= |s| || !sc.dot
    ensures FracDigits(s) == if sc.dot then s[sc.sign + sc.whole + 1..sc.sign + sc.whole + 1 + sc.frac] else ""
  {
  }

  /** The fraction digits of a signed text are those of the text after the sign. */
  lemma SignedFrac(c: char, t: string)
    requires IsSign(c) && t != [] && !IsSign(t[0])
    ensures FracDigits([c] + t) == FracDigits(t)
  {
    var su := ScanAt(t, 0, true);
    ScanAfterSign(c, t);
    FracOfScan(t, su);
    FracOfScan([c] + t, Scan(1, su.whole, su.dot, su.frac));
    if su.dot {
      SliceAfterPrefix([c], t, su.whole + 1, su.whole + 1 + su.frac);
    }
  }

  /** The parts of a signed decimal are those of the unsigned one that follows
      the sign. */
  lemma SignedParts(c: char, t: string)
    requires IsSign(c) && IsDecimal(t) && !IsSign(t[0])
    ensures IsDecimal([c] + t)
    ensures DecimalValue([c] + t) == if c == '-' then -DecimalValue(t) else DecimalValue(t)
  {
    ScanAfterSign(c, t);
    SignedWhole(c, t);
    SignedFrac(c, t);
    assert ([c] + t)[0] == c;
  }

  /** `float("-" + t)` is minus `float(t)` and `float("+" + t)` is `float(t)`,
      for an unsigned decimal `t`. */
  lemma PyFloatOfSigned(t: string)
    requires IsDecimal(t) && !IsSign(t[0])
    ensures PyFloat(t) == Some(DecimalValue(t))
    ensures PyFloat("-" + t) == Some(-DecimalValue(t))
    ensures PyFloat("+" + t) == Some(DecimalValue(t))
  {
    DecimalIsStripped(t);
    SignedParts('-', t);
    SignedParts('+', t);
    DecimalIsStripped("-" + t);
    DecimalIsStripped("+" + t);
  }

  /** The digit run at `i` is `n` long when `n` digits start there and no
      digit follows them. */
  lemma {:induction false} DigitRunOver(s: string, i: nat, n: nat)
    requires i + n <= |s|
    requires forall k :: i <= k < i + n ==> IsDigit(s[k])
    requires i + n == |s| || !IsDigit(s[i + n])
    ensures DigitRun(s, i) == n
    decreases n
  {
    if n > 0 {
      DigitRunOver(s, i + 1, n - 1);
    }
  }

  /** Digits with a point among them are a decimal worth their point value. */
  lemma PointDecimal(ws: string, fs: string)
    requires AllDigits(ws) && AllDigits(fs) && |ws| + |fs| > 0
    ensures IsDecimal(ws + "." + fs)
    ensures DecimalValue(ws + "." + fs) == PointValue(ws, fs)
  {
    var t := ws + "." + fs;
    PointScan(ws, fs);
    assert t[0..|ws|] == ws;
    assert t[|ws| + 1..|ws| + 1 + |fs|] == fs;
  }

  /** `ws.fs` is read as digits `ws`, the point and digits `fs`. */
  lemma PointScan(ws: string, fs: string)
    requires AllDigits(ws) && AllDigits(fs)
    ensures ScanAt(ws + "." + fs, 0, true) == Scan(0, |ws|, true, |fs|)
  {
    var t := ws + "." + fs;
    assert forall k :: 0 <= k < |ws| ==> t[k] == ws[k];
    assert t[|ws|] == '.';
    assert forall k :: 0 <= k < |fs| ==> t[|ws| + 1 + k] == fs[k];
    assert !IsSign(t[0]);
    DigitRunOver(t, 0, |ws|);
    DigitRunOver(t, |ws| + 1, |fs|);
  }

  /** Digits alone are a decimal worth their value. */
  lemma WholeDecimal(ws: string)
    requires AllDigits(ws) && ws != []
    ensures IsDecimal(ws)
    ensures DecimalValue(ws) == DigitsValue(ws) as real
  {
    assert !IsSign(ws[0]);
    DigitRunOver(ws, 0, |ws|);
    assert ScanAt(ws, 0, true) == Scan(0, |ws|, false, 0);
    assert ws[0..|ws|] == ws;
    assert DigitsValue("") == 0 && Pow10(0) == 1;
  }

  /** `float()` of padded digits with a point gives their value. */
  lemma PyFloatOfPointDecimal(w: string, ws: string, fs: string, w': string)
    requires Text.AllSpaces(w) && Text.AllSpaces(w')
    requires AllDigits(ws) && AllDigits(fs) && |ws| + |fs| > 0
    ensures PyFloat(w + (ws + "." + fs) + w') == Some(PointValue(ws, fs))
  {
    PointDecimal(ws, fs);
    DecimalIsStripped(ws + "." + fs);
    PyFloatIgnoresPadding(w, ws + "." + fs, w');
  }

  /** `float()` of padded digits gives their value. */
  lemma PyFloatOfWholeDecimal(w: string, ws: string, w': string)
    requires Text.AllSpaces(w) && Text.AllSpaces(w')
    requires AllDigits(ws) && ws != []
    ensures PyFloat(w + ws + w') == Some(DigitsValue(ws) as real)
  {
    WholeDecimal(ws);
    DecimalIsStripped(ws);
    PyFloatIgnoresPadding(w, ws, w');
  }

  lemma BodyTemperatureValue()
    ensures PointValue("36", "5") == 36.5
  {
    assert "3"[..0] == "" && DigitsValue("3") == 3;
    assert "36"[..1] == "3" && DigitsValue("36") == 36;
    assert "5"[..0] == "" && DigitsValue("5") == 5;
    assert Pow10(|"5"|) == 10;
  }

  /** A body temperature as a line of text reads as its value. */
  lemma PyFloatOfBodyTemperature()
    ensures PyFloat(" 36.5\n") == Some(36.5)
  {
    BodyTemperatureValue();
    assert " " + ("36" + "." + "5") + "\n" == " 36.5\n";
    PyFloatOfPointDecimal(" ", "36", "5", "\n");
  }

  lemma MilliDegreesValue()
    ensures DigitsValue("23125") == 23125
  {
    assert "2"[..0] == "" && DigitsValue("2") == 2;
    assert "23"[..1] == "2" && DigitsValue("23") == 23;
    assert "231"[..2] == "23" && DigitsValue("231") == 231;
    assert "2312"[..3] == "231" && DigitsValue("2312") == 2312;
    assert "23125"[..4] == "2312";
  }

  /** The raw thermometer reading, in thousandths of a degree, reads as a whole
      number. */
  lemma PyFloatOfMilliDegrees()
    ensures PyFloat("23125\n") == Some(23125.0)
  {
    MilliDegreesValue();
    assert "" + "23125" + "\n" == "23125\n";
    PyFloatOfWholeDecimal("", "23125", "\n");
  }

  lemma QuarterValue()
    ensures PointValue("0", "25") == 0.25
  {
    assert "0"[..0] == "" && DigitsValue("0") == 0;
    assert "2"[..0] == "" && DigitsValue("2") == 2;
    assert "25"[..1] == "2" && DigitsValue("25") == 25;
    assert Pow10(|"25"|) == 100;
  }

  /** A negative fraction keeps its sign. */
  lemma PyFloatOfNegativeFraction()
    ensures PyFloat("-0.25") == Some(-0.25)
  {
    QuarterValue();
    PointDecimal("0", "25");
    assert "-" + ("0" + "." + "25") == "-0.25";
    PyFloatOfSigned("0" + "." + "25");
  }

  /** Text that is not a decimal is rejected. */
  lemma PyFloatRejectsWord()
    ensures PyFloat("abc") == None
  {
    Text.StripOfUnpadded("abc");
    DigitRunOver("abc", 0, 0);
  }

  /** The empty string is rejected. */
  lemma PyFloatRejectsEmpty()
    ensures PyFloat("") == None
  {
  }

  /** A '.' without digits is rejected. */
  lemma PyFloatRejectsBarePoint()
    ensures PyFloat(".") == None
  {
    Text.StripOfUnpadded(".");
    DigitRunOver(".", 0, 0);
    DigitRunOver(".", 1, 0);
  }

  /** A '.' without digits is rejected, however it is padded. */
  lemma PyFloatRejectsLonePoint(w: string, w': string)
    requires Text.AllSpaces(w) && Text.AllSpaces(w')
    ensures PyFloat(w + "." + w') == None
  {
    PyFloatIgnoresPadding(w, ".", w');
    PyFloatRejectsBarePoint();
  }

  lemma PyFloatRejectsPoint()
    ensures PyFloat(" . ") == None
  {
    assert " " + "." + " " == " . ";
    PyFloatRejectsLonePoint(" ", " ");
  }

  /** Every token the parser emits converts. */
  lemma NumeralConverts(t: string)
    requires IsNumeral(t, true)
    ensures PyFloat(t) == Some(DecimalValue(t))
  {
    NumeralIsDecimal(t);
  }
}
