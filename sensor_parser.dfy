/** `_parse_line` of the sensor manager: an ordered chain of rules that turns
    one line printed by a sensor script into zero to three (metric, number
    text) pairs. Number tokens are found with the scanner of `Numbers`. */
module SensorParser {
  import opened Wrappers
  import opened Text
  import opened Numbers
  import Taxonomy
  import Lists

  datatype Pair = Pair(metric: string, value: string)

  // ---------------------------------------------------------------------
  // The axis patterns `X=\s*NUMBERg` and `X=\s*NUMBER°/s`
  // ---------------------------------------------------------------------

  /** The end of the run of whitespace starting at i. */
  function SkipSpaces(s: string, i: nat): (j: nat)
    requires i <= |s|
    ensures i <= j <= |s|
    ensures forall k :: i <= k < j ==> IsSpace(s[k])
    ensures j == |s| || !IsSpace(s[j])
    decreases |s| - i
  {
    if i < |s| && IsSpace(s[i]) then SkipSpaces(s, i + 1) else i
  }

  /** Where the number of an axis match at p starts. */
  function AxisNumberStart(s: string, p: nat): nat
    requires p + 2 <= |s|
  {
    SkipSpaces(s, p + 2)
  }

  /** The axis pattern matches at p: the axis letter, '=', whitespace, a number
      and the unit. No backtracking is needed: a shorter number would be
      followed by a digit or '.', never by the unit's first character, and a
      shorter run of whitespace leaves a blank where the number must start. */
  predicate AxisMatchAt(s: string, p: nat, axis: char, unit: string) {
    && p + 2 <= |s| && s[p] == axis && s[p + 1] == '='
    && var j := AxisNumberStart(s, p);
       MatchesAt(s, j, true) && OccursAt(s, unit, j + ScanAt(s, j, true).Len())
  }

  /** The leftmost p at or after i where the axis pattern matches, or -1. */
  function AxisSearchFrom(s: string, axis: char, unit: string, i: nat): (k: int)
    requires i <= |s|
    ensures k == -1 || (i <= k < |s| && AxisMatchAt(s, k, axis, unit))
    ensures k != -1 ==> forall j :: i <= j < k ==> !AxisMatchAt(s, j, axis, unit)
    ensures k == -1 ==> forall j :: i <= j <= |s| ==> !AxisMatchAt(s, j, axis, unit)
    decreases |s| - i
  {
    if AxisMatchAt(s, i, axis, unit) then i
    else if i == |s| then -1
    else AxisSearchFrom(s, axis, unit, i + 1)
  }

  /** The number of the leftmost axis match (group 1), if any. */
  function AxisValue(s: string, axis: char, unit: string): Option<string> {
    var p := AxisSearchFrom(s, axis, unit, 0);
    if p == -1 then None
    else
      var j := AxisNumberStart(s, p);
      Some(s[j..j + ScanAt(s, j, true).Len()])
  }

  /** The value of an axis match is a signed numeral. */
  lemma AxisValueIsNumeral(s: string, axis: char, unit: string)
    requires AxisValue(s, axis, unit).Some?
    ensures IsNumeral(AxisValue(s, axis, unit).value, true)
  {
    AxisNumeralAt(s, AxisSearchFrom(s, axis, unit, 0), axis, unit);
  }

  /** The number of an axis match at p is a signed numeral. */
  lemma AxisNumeralAt(s: string, p: nat, axis: char, unit: string)
    requires AxisMatchAt(s, p, axis, unit)
    ensures var j := AxisNumberStart(s, p); IsNumeral(s[j..j + ScanAt(s, j, true).Len()], true)
  {
    MatchIsNumeral(s, AxisNumberStart(s, p), true);
  }

  function AxisPair(s: string, axis: char, metric: string, unit: string): (r: seq<Pair>)
    ensures |r| <= 1
    ensures r != [] <==> AxisValue(s, axis, unit).Some?
    ensures r != [] ==> r[0] == Pair(metric, AxisValue(s, axis, unit).value)
  {
    match AxisValue(s, axis, unit)
    case None => []
    case Some(v) => [Pair(metric, v)]
  }

  /** The metric names of the X, Y, Z axes. */
  const AccelMetrics: seq<string> := ["accel_x", "accel_y", "accel_z"]
  const GyroMetrics: seq<string> := ["gyro_x", "gyro_y", "gyro_z"]

  /** The axis metrics are distinct features. */
  lemma AxisMetricsAreFeatures()
    ensures |AccelMetrics| == 3 && forall k :: 0 <= k < 3 ==> Taxonomy.IsFeature(AccelMetrics[k])
    ensures |GyroMetrics| == 3 && forall k :: 0 <= k < 3 ==> Taxonomy.IsFeature(GyroMetrics[k])
    ensures Lists.NoDup(AccelMetrics) && Lists.NoDup(GyroMetrics)
  {
  }

  /** The axis loop: X, Y, Z, each contributing a pair under its metric name
      when its pattern matches. */
  function AxisPairs(s: string, metrics: seq<string>, unit: string): seq<Pair>
    requires |metrics| == 3
  {
    AxisPair(s, 'X', metrics[0], unit) + AxisPair(s, 'Y', metrics[1], unit)
    + AxisPair(s, 'Z', metrics[2], unit)
  }

  // ---------------------------------------------------------------------
  // The rule chain
  // ---------------------------------------------------------------------

  /** The rules of `_parse_line`, in the order they are tried. */
  datatype Rule = BodyTemp | Ambient | Pressure | Humidity | AccelAxes | GyroAxes | HeartRate | SpO2 | NoRule

  /** The first rule that claims the stripped line `l`. A rule whose number
      search fails does not claim the line, except the two axis rules, which
      claim every line with their prefix. */
  function RuleFor(sensor: string, l: string): Rule {
    if sensor == "ds18b20" && IsNumeral(l, true) then BodyTemp
    else if Contains(l, "Temperature:") && Contains(l, "°C") && SearchNumber(l, true).Some? then Ambient
    else if StartsWith(l, "Pressure:") && SearchNumber(l, true).Some? then Pressure
    else if Contains(l, "Humidity:") && SearchNumber(l, true).Some? then Humidity
    else if StartsWith(l, "Accel:") then AccelAxes
    else if StartsWith(l, "Gyro:") then GyroAxes
    else if Contains(l, "Heart Rate") && SearchNumber(l, false).Some? then HeartRate
    else if (Contains(l, "SpO2") || Contains(l, "SpO2 Level")) && SearchNumber(l, false).Some? then SpO2
    else NoRule
  }

  /** One pair for a found number. */
  function Found(metric: string, v: Option<string>): (r: seq<Pair>)
    ensures |r| <= 1
  {
    match v
    case None => []
    case Some(x) => [Pair(metric, x)]
  }

  /** What a rule yields for the stripped line `l`. */
  function Apply(rule: Rule, l: string): seq<Pair> {
    match rule
    case BodyTemp => [Pair("body_temp", l)]
    case Ambient => Found("ambient_temp", SearchNumber(l, true))
    case Pressure => Found("pressure_hpa", SearchNumber(l, true))
    case Humidity => Found("humidity_pct", SearchNumber(l, true))
    case AccelAxes => AxisPairs(l, AccelMetrics, "g")
    case GyroAxes => AxisPairs(l, GyroMetrics, "°/s")
    case HeartRate => Found("heart_rate_bpm", SearchNumber(l, false))
    case SpO2 => Found("spo2_pct", SearchNumber(l, false))
    case NoRule => []
  }

  /** `_parse_line(sensor, line)`: the first claiming rule applied to the
      stripped line. */
  function ParseLine(sensor: string, line: string): seq<Pair> {
    var l := Strip(line);
    Apply(RuleFor(sensor, l), l)
  }

  // ---------------------------------------------------------------------
  // Properties of the parser
  // ---------------------------------------------------------------------

  /** For the DS18B20 script, a line that is one signed number (after
      stripping) is the body temperature, verbatim. */
  lemma BodyTemperatureLine(line: string)
    requires IsNumeral(Strip(line), true)
    ensures ParseLine("ds18b20", line) == [Pair("body_temp", Strip(line))]
  {
  }

  /** Every metric emitted is one of the 12 features, every value is a signed
      numeral, and so every value converts to a number. */
  lemma ParsedPairsAreFeatures(sensor: string, line: string)
    ensures forall i :: 0 <= i < |ParseLine(sensor, line)| ==>
              && Taxonomy.IsFeature(ParseLine(sensor, line)[i].metric)
              && IsNumeral(ParseLine(sensor, line)[i].value, true)
              && PyFloat(ParseLine(sensor, line)[i].value).Some?
  {
    var l := Strip(line);
    var rule := RuleFor(sensor, l);
    assert rule == BodyTemp ==> IsNumeral(l, true);
    RuleYieldsFeatures(rule, l);
  }

  lemma RuleYieldsFeatures(rule: Rule, l: string)
    requires rule == BodyTemp ==> IsNumeral(l, true)
    ensures forall i :: 0 <= i < |Apply(rule, l)| ==>
              && Taxonomy.IsFeature(Apply(rule, l)[i].metric)
              && IsNumeral(Apply(rule, l)[i].value, true)
              && PyFloat(Apply(rule, l)[i].value).Some?
  {
    var r := Apply(rule, l);
    forall i | 0 <= i < |r|
      ensures Taxonomy.IsFeature(r[i].metric) && IsNumeral(r[i].value, true) && PyFloat(r[i].value).Some?
    {
      match rule {
        case BodyTemp =>
        case Ambient => FoundIsNumeral("ambient_temp", l, true, i);
        case Pressure => FoundIsNumeral("pressure_hpa", l, true, i);
        case Humidity => FoundIsNumeral("humidity_pct", l, true, i);
        case AccelAxes =>
          AxisMetricsAreFeatures();
          AxisPairsAreNumerals(l, AccelMetrics, "g", i);
        case GyroAxes =>
          AxisMetricsAreFeatures();
          AxisPairsAreNumerals(l, GyroMetrics, "°/s", i);
        case HeartRate => FoundIsNumeral("heart_rate_bpm", l, false, i);
        case SpO2 => FoundIsNumeral("spo2_pct", l, false, i);
      }
      NumeralIsDecimal(r[i].value);
    }
  }

  lemma FoundIsNumeral(metric: string, s: string, signed: bool, i: nat)
    requires i < |Found(metric, SearchNumber(s, signed))|
    ensures var p := Found(metric, SearchNumber(s, signed))[i];
            p.metric == metric && IsNumeral(p.value, true)
  {
    SearchFindsNumeral(s, signed);
    if !signed {
      UnsignedNumeralIsSigned(SearchNumber(s, signed).value);
    }
  }

  lemma AxisPairsAreNumerals(s: string, metrics: seq<string>, unit: string, i: nat)
    requires |metrics| == 3 && forall k :: 0 <= k < 3 ==> Taxonomy.IsFeature(metrics[k])
    requires i < |AxisPairs(s, metrics, unit)|
    ensures var p := AxisPairs(s, metrics, unit)[i];
            Taxonomy.IsFeature(p.metric) && IsNumeral(p.value, true)
  {
    var x, y, z := AxisPair(s, 'X', metrics[0], unit), AxisPair(s, 'Y', metrics[1], unit),
                   AxisPair(s, 'Z', metrics[2], unit);
    if x != [] { AxisValueIsNumeral(s, 'X', unit); }
    if y != [] { AxisValueIsNumeral(s, 'Y', unit); }
    if z != [] { AxisValueIsNumeral(s, 'Z', unit); }
    SlotPick(x, y, z, i);
  }

  /** An entry of three concatenated slots of at most one pair is one of
      their pairs. */
  lemma SlotPick(x: seq<Pair>, y: seq<Pair>, z: seq<Pair>, i: nat)
    requires |x| <= 1 && |y| <= 1 && |z| <= 1 && i < |x + y + z|
    ensures || (x != [] && (x + y + z)[i] == x[0])
            || (y != [] && (x + y + z)[i] == y[0])
            || (z != [] && (x + y + z)[i] == z[0])
  {
    var r := x + y + z;
    if i < |x| {
      assert r[i] == x[0];
    } else if i < |x| + |y| {
      assert r[i] == y[0];
    } else {
      assert r[i] == z[0];
    }
  }

  /** At most three pairs; only the axis rules give more than one. */
  lemma ParseLineCount(sensor: string, line: string)
    ensures |ParseLine(sensor, line)| <= 3
    ensures !StartsWith(Strip(line), "Accel:") && !StartsWith(Strip(line), "Gyro:") ==>
              |ParseLine(sensor, line)| <= 1
  {
    var l := Strip(line);
    AxisRulesNeedPrefix(sensor, l);
    ApplyCount(RuleFor(sensor, l), l);
  }

  /** The axis rules claim only lines with their prefix. */
  lemma AxisRulesNeedPrefix(sensor: string, l: string)
    ensures RuleFor(sensor, l) == AccelAxes ==> StartsWith(l, "Accel:")
    ensures RuleFor(sensor, l) == GyroAxes ==> StartsWith(l, "Gyro:")
  {
  }

  lemma ApplyCount(rule: Rule, l: string)
    ensures |Apply(rule, l)| <= 3
    ensures rule != AccelAxes && rule != GyroAxes ==> |Apply(rule, l)| <= 1
  {
    match rule {
      case AccelAxes => AxisPairsCount(l, AccelMetrics, "g");
      case GyroAxes => AxisPairsCount(l, GyroMetrics, "°/s");
      case _ =>
    }
  }

  lemma AxisPairsCount(s: string, metrics: seq<string>, unit: string)
    requires |metrics| == 3
    ensures |AxisPairs(s, metrics, unit)| <= 3
  {
    var x, y, z := AxisPair(s, 'X', metrics[0], unit), AxisPair(s, 'Y', metrics[1], unit),
                   AxisPair(s, 'Z', metrics[2], unit);
    assert |x + y + z| <= 3;
  }

  /** The axis loop yields its axes in X, Y, Z order, each under its own
      metric. */
  lemma AxisPairsOrder(s: string, metrics: seq<string>, unit: string)
    requires |metrics| == 3 && Lists.NoDup(metrics)
    ensures var r := AxisPairs(s, metrics, unit);
            && (forall i :: 0 <= i < |r| ==> r[i].metric in metrics)
            && (forall i, j :: 0 <= i < j < |r| ==>
                  Lists.FirstIndex(metrics, r[i].metric) < Lists.FirstIndex(metrics, r[j].metric))
  {
    SlotsOrder(AxisPair(s, 'X', metrics[0], unit), AxisPair(s, 'Y', metrics[1], unit),
               AxisPair(s, 'Z', metrics[2], unit), metrics);
  }

  /** Three slots of at most one pair each, under the metrics in order: their
      concatenation lists the metrics in that order. */
  lemma SlotsOrder(x: seq<Pair>, y: seq<Pair>, z: seq<Pair>, metrics: seq<string>)
    requires |metrics| == 3 && Lists.NoDup(metrics)
    requires |x| <= 1 && |y| <= 1 && |z| <= 1
    requires (x != [] ==> x[0].metric == metrics[0]) && (y != [] ==> y[0].metric == metrics[1])
    requires z != [] ==> z[0].metric == metrics[2]
    ensures var r := x + y + z;
            && (forall i :: 0 <= i < |r| ==> r[i].metric in metrics)
            && (forall i, j :: 0 <= i < j < |r| ==>
                  Lists.FirstIndex(metrics, r[i].metric) < Lists.FirstIndex(metrics, r[j].metric))
  {
    var r := x + y + z;
    assert Lists.FirstIndex(metrics, metrics[0]) == 0;
    assert Lists.FirstIndex(metrics, metrics[1]) == 1;
    assert Lists.FirstIndex(metrics, metrics[2]) == 2;
    forall i | 0 <= i < |r|
      ensures r[i].metric in metrics && Lists.FirstIndex(metrics, r[i].metric) == Slot(|x|, |y|, i)
    {
      if i < |x| {
        assert r[i] == x[0];
      } else if i < |x| + |y| {
        assert r[i] == y[0];
      } else {
        assert r[i] == z[0];
      }
    }
  }

  /** The axis whose pair sits at index i of the loop's output, given how
      many pairs the X and Y axes contributed. */
  function Slot(nx: nat, ny: nat, i: nat): nat {
    if i < nx then 0 else if i < nx + ny then 1 else 2
  }

  /** An axis contributes a pair exactly when its pattern matches. */
  lemma AxisPairsPresence(s: string, metrics: seq<string>, unit: string)
    requires |metrics| == 3 && Lists.NoDup(metrics)
    ensures var r := AxisPairs(s, metrics, unit);
            && (AxisValue(s, 'X', unit).Some? <==> metrics[0] in MetricsOf(r))
            && (AxisValue(s, 'Y', unit).Some? <==> metrics[1] in MetricsOf(r))
            && (AxisValue(s, 'Z', unit).Some? <==> metrics[2] in MetricsOf(r))
  {
    assert metrics[0] != metrics[1] && metrics[0] != metrics[2] && metrics[1] != metrics[2];
    SlotsPresence(AxisPair(s, 'X', metrics[0], unit), AxisPair(s, 'Y', metrics[1], unit),
                  AxisPair(s, 'Z', metrics[2], unit), metrics[0], metrics[1], metrics[2]);
  }

  /** Three slots of at most one pair each, under distinct metrics: a metric
      shows up in their concatenation exactly when its slot is filled. */
  lemma SlotsPresence(x: seq<Pair>, y: seq<Pair>, z: seq<Pair>, m0: string, m1: string, m2: string)
    requires |x| <= 1 && |y| <= 1 && |z| <= 1
    requires (x != [] ==> x[0].metric == m0) && (y != [] ==> y[0].metric == m1) && (z != [] ==> z[0].metric == m2)
    requires m0 != m1 && m0 != m2 && m1 != m2
    ensures var ms := MetricsOf(x + y + z);
            && (x != [] <==> m0 in ms) && (y != [] <==> m1 in ms) && (z != [] <==> m2 in ms)
  {
    var r := x + y + z;
    var ms := MetricsOf(r);
    forall i | 0 <= i < |r|
      ensures (r[i].metric == m0 ==> x != []) && (r[i].metric == m1 ==> y != []) && (r[i].metric == m2 ==> z != [])
    {
      if i < |x| {
        assert r[i] == x[0];
      } else if i < |x| + |y| {
        assert r[i] == y[0];
      } else {
        assert r[i] == z[0];
      }
    }
    if x != [] { assert ms[0] == m0; }
    if y != [] { assert r[|x|] == y[0]; assert ms[|x|] == m1; }
    if z != [] { assert r[|x| + |y|] == z[0]; assert ms[|x| + |y|] == m2; }
  }

  function MetricsOf(r: seq<Pair>): (ms: seq<string>)
    ensures |ms| == |r| && forall i :: 0 <= i < |r| ==> ms[i] == r[i].metric
  {
    seq(|r|, i requires 0 <= i < |r| => r[i].metric)
  }

  /** An `Accel:` or `Gyro:` line that no earlier rule claims is answered by the
      axis loop alone, even when no axis matches: later rules are not tried. */
  lemma AxisLinesReturn(sensor: string, line: string)
    requires var l := Strip(line);
             && !(sensor == "ds18b20" && IsNumeral(l, true))
             && !(Contains(l, "Temperature:") && Contains(l, "°C") && SearchNumber(l, true).Some?)
             && !(Contains(l, "Humidity:") && SearchNumber(l, true).Some?)
    ensures StartsWith(Strip(line), "Accel:") ==> ParseLine(sensor, line) == AxisPairs(Strip(line), AccelMetrics, "g")
    ensures StartsWith(Strip(line), "Gyro:") ==> ParseLine(sensor, line) == AxisPairs(Strip(line), GyroMetrics, "°/s")
  {
    AxisRuleOf(sensor, Strip(line));
  }

  /** Past the three rules before them, the axis prefixes decide the rule. */
  lemma AxisRuleOf(sensor: string, l: string)
    requires !(sensor == "ds18b20" && IsNumeral(l, true))
    requires !(Contains(l, "Temperature:") && Contains(l, "°C") && SearchNumber(l, true).Some?)
    requires !(Contains(l, "Humidity:") && SearchNumber(l, true).Some?)
    ensures StartsWith(l, "Accel:") ==> RuleFor(sensor, l) == AccelAxes
    ensures StartsWith(l, "Gyro:") ==> RuleFor(sensor, l) == GyroAxes
  {
    if StartsWith(l, "Accel:") || StartsWith(l, "Gyro:") {
      assert !StartsWith(l, "Pressure:") by {
        assert l[0] == 'A' || l[0] == 'G';
      }
      assert !StartsWith(l, "Accel:") || !StartsWith(l, "Gyro:") by {
        assert l[0] == 'A' || l[0] == 'G';
      }
    }
  }

  /** No rule keyword is all lower case: outside the DS18B20 rule a line
      without an upper-case ASCII letter yields nothing. This covers the JSON
      lines of the MAX30102 script, whose keys are `heart_rate` and `spo2`. */
  lemma LowerCaseLinesYieldNothing(sensor: string, line: string)
    requires sensor != "ds18b20"
    requires forall i :: 0 <= i < |line| ==> !('A' <= line[i] <= 'Z')
    ensures ParseLine(sensor, line) == []
  {
    var l := Strip(line);
    assert forall c :: c in l ==> !('A' <= c <= 'Z') by {
      forall c | c in l ensures !('A' <= c <= 'Z') {
        StripKeepsCharacters(line, c);
      }
    }
    if Contains(l, "Temperature:") { ContainsCharacters(l, "Temperature:", 0); }
    if StartsWith(l, "Pressure:") { StartsWithCharacters(l, "Pressure:", 0); }
    if Contains(l, "Humidity:") { ContainsCharacters(l, "Humidity:", 0); }
    if StartsWith(l, "Accel:") { StartsWithCharacters(l, "Accel:", 0); }
    if StartsWith(l, "Gyro:") { StartsWithCharacters(l, "Gyro:", 0); }
    if Contains(l, "Heart Rate") { ContainsCharacters(l, "Heart Rate", 0); }
    if Contains(l, "SpO2") { ContainsCharacters(l, "SpO2", 0); }
    if Contains(l, "SpO2 Level") { ContainsCharacters(l, "SpO2 Level", 0); }
  }

  /** The second test of the SpO2 rule adds nothing: a line containing
      "SpO2 Level" contains "SpO2". */
  lemma SpO2LevelIsSpO2(l: string)
    requires Contains(l, "SpO2 Level")
    ensures Contains(l, "SpO2")
  {
    ContainsIff(l, "SpO2 Level");
    var k: nat :| OccursAt(l, "SpO2 Level", k);
    assert l[k..k + 4] == l[k..k + 10][..4];
    assert OccursAt(l, "SpO2", k);
    ContainsIff(l, "SpO2");
  }
}
