/** The activity monitor: validates one record of readings, normalises the
    model's raw output into a 24-entry label vector, selects the active labels,
    asks the recommendation engine for an interpretation, and lays out the CSV
    row. The model, the scaler, the clock and the console are not modelled: the
    raw output and the timestamp are inputs. */
module ActivityMonitor {
  import opened Wrappers
  import opened Taxonomy
  import Lists
  import Text
  import RecommendationEngine
  import RecommendationTables

  /** A JSON record's readings. */
  type Readings = map<string, real>

  // ---------------------------------------------------------------------
  // Validation (`_validate_sensor_data`)
  // ---------------------------------------------------------------------

  /** The feature names absent from `data`, in feature order. */
  function MissingFrom(names: seq<string>, data: Readings): (r: seq<string>)
    ensures forall i :: 0 <= i < |r| ==> r[i] in names && r[i] !in data
    ensures forall i :: 0 <= i < |names| && names[i] !in data ==> names[i] in r
  {
    if names == [] then []
    else (if names[0] !in data then [names[0]] else []) + MissingFrom(names[1..], data)
  }

  function MissingFeatures(data: Readings): seq<string> {
    MissingFrom(FeatureNames, data)
  }

  /** `_validate_sensor_data`: fails, naming the missing keys, exactly when some
      feature is absent. */
  function ValidateSensorData(data: Readings): (r: Result<()>)
    ensures r.Failure? <==> exists i :: 0 <= i < |FeatureNames| && FeatureNames[i] !in data
  {
    var missing := MissingFeatures(data);
    if missing != [] then Failure("Missing sensor keys: " + Text.Join(missing, ", "))
    else Success(())
  }

  // ---------------------------------------------------------------------
  // Normalising the raw output
  // ---------------------------------------------------------------------

  /** An entry of the model output: a number, or something that does not
      convert to one. */
  datatype Elem = Num(x: real) | Junk

  /** The shapes `model.predict` can return. */
  datatype RawOutput =
    | Matrix(rows: seq<seq<Elem>>)   // a 2-D array
    | Vector(items: seq<Elem>)       // a 1-D array
    | Scalar(item: Elem)             // not an array

  function Concat(rows: seq<seq<Elem>>): seq<Elem> {
    if rows == [] then [] else rows[0] + Concat(rows[1..])
  }

  /** The flattening step of `predict`. */
  function Flatten(raw: RawOutput): seq<Elem> {
    match raw
    case Matrix(rows) => if |rows| == 1 then rows[0] else Concat(rows)
    case Vector(items) => items
    case Scalar(item) => [item]
  }

  /** Every branch of the flattening agrees with a row-major ravel: a single row
      is that row, a vector is unchanged, a scalar is a one-element vector. */
  lemma FlattenIsRavel(raw: RawOutput)
    ensures raw.Matrix? ==> Flatten(raw) == Concat(raw.rows)
    ensures raw.Matrix? && |raw.rows| == 1 ==> Flatten(raw) == raw.rows[0]
    ensures raw.Vector? ==> Flatten(raw) == raw.items
    ensures raw.Scalar? ==> Flatten(raw) == [raw.item]
  {
    if raw.Matrix? && |raw.rows| == 1 {
      assert Concat(raw.rows) == raw.rows[0] + Concat([]);
    }
  }

  /** `astype(float)`: None when some entry does not convert. */
  function ToReals(preds: seq<Elem>): (r: Option<seq<real>>)
    ensures r.None? <==> exists i :: 0 <= i < |preds| && preds[i].Junk?
    ensures r.Some? ==> |r.value| == |preds| && forall i :: 0 <= i < |preds| ==> preds[i] == Num(r.value[i])
  {
    if preds == [] then Some([])
    else
      match ToReals(preds[1..])
      case None => None
      case Some(rest) => if preds[0].Junk? then None else Some([preds[0].x] + rest)
  }

  /** `astype(int)` on one value: truncation toward zero. */
  function Trunc(x: real): int {
    if x >= 0.0 then x.Floor else -((-x).Floor)
  }

  /** Truncation moves toward zero by less than one. */
  lemma TruncTowardZero(x: real)
    ensures x >= 0.0 ==> 0 <= Trunc(x) && Trunc(x) as real <= x < Trunc(x) as real + 1.0
    ensures x < 0.0 ==> Trunc(x) <= 0 && Trunc(x) as real - 1.0 < x <= Trunc(x) as real
  {
  }

  predicate SomeProbability(xs: seq<real>) {
    exists i :: 0 <= i < |xs| && 0.0 <= xs[i] <= 1.0
  }

  /** The binarising step: the 0.5 threshold when some value lies in [0, 1],
      otherwise an integer cast. */
  function Binarize(xs: seq<real>): (r: seq<int>)
    ensures |r| == |xs|
  {
    if SomeProbability(xs) then seq(|xs|, i requires 0 <= i < |xs| => if xs[i] >= 0.5 then 1 else 0)
    else seq(|xs|, i requires 0 <= i < |xs| => Trunc(xs[i]))
  }

  /** The threshold path yields only 0 and 1; the cast path keeps every integral
      value, so entries other than 0 and 1 survive it. */
  lemma BinarizePaths(xs: seq<real>)
    ensures SomeProbability(xs) ==>
              forall i :: 0 <= i < |xs| ==> Binarize(xs)[i] == (if xs[i] >= 0.5 then 1 else 0)
    ensures !SomeProbability(xs) ==>
              forall i :: 0 <= i < |xs| ==> Binarize(xs)[i] == Trunc(xs[i])
    ensures !SomeProbability(xs) ==>
              forall i :: 0 <= i < |xs| && xs[i] == xs[i].Floor as real ==> Binarize(xs)[i] as real == xs[i]
  {
    if !SomeProbability(xs) {
      forall i | 0 <= i < |xs| && xs[i] == xs[i].Floor as real ensures Trunc(xs[i]) as real == xs[i] {
        TruncOfIntegral(xs[i]);
      }
    }
  }

  /** Casting an integral value keeps it. */
  lemma TruncOfIntegral(x: real)
    requires x == x.Floor as real
    ensures Trunc(x) as real == x
  {
    if x < 0.0 {
      assert (-x).Floor == -x.Floor;
    }
  }

  /** A single value inside [0, 1] sends every entry through the threshold:
      [2, 0, 1] becomes [1, 0, 1]. */
  lemma BinarizeMixedExample()
    ensures Binarize([2.0, 0.0, 1.0]) == [1, 0, 1]
  {
    assert SomeProbability([2.0, 0.0, 1.0]) by {
      assert [2.0, 0.0, 1.0][1] == 0.0;
    }
  }

  /** With no value in [0, 1] entries are cast: [2, -3, 5, -1.5, 2.7] becomes
      [2, -3, 5, -1, 2]. */
  lemma BinarizeCastExample()
    ensures Binarize([2.0, -3.0, 5.0, -1.5, 2.7]) == [2, -3, 5, -1, 2]
  {
    var xs := [2.0, -3.0, 5.0, -1.5, 2.7];
    assert !SomeProbability(xs) by {
      forall i | 0 <= i < |xs| ensures !(0.0 <= xs[i] <= 1.0) {
        assert xs[i] in {2.0, -3.0, 5.0, -1.5, 2.7};
      }
    }
    assert Trunc(-1.5) == -1 && Trunc(2.7) == 2;
  }

  /** `binary_preds` before the length check: the zero vector when some entry
      does not convert. */
  function Binarized(raw: RawOutput): seq<int> {
    match ToReals(Flatten(raw))
    case None => seq(|LabelNames|, _ => 0)
    case Some(xs) => Binarize(xs)
  }

  /** `b` right-padded with zeros or truncated to length n. */
  function Fit(b: seq<int>, n: nat): (r: seq<int>)
    ensures |r| == n
  {
    seq(n, i requires 0 <= i < n => if i < |b| then b[i] else 0)
  }

  /** Fitting keeps the common prefix, zero-fills the rest, and leaves a vector
      of the right length unchanged. */
  lemma FitProperties(b: seq<int>, n: nat)
    ensures |b| >= n ==> Fit(b, n) == b[..n]
    ensures |b| <= n ==> Fit(b, n)[..|b|] == b
    ensures forall i :: |b| <= i < n ==> Fit(b, n)[i] == 0
    ensures |b| == n ==> Fit(b, n) == b
  {
  }

  /** The normalisation steps of `predict`: flatten, binarise, then pad or
      truncate to one entry per label. */
  method Normalize(raw: RawOutput) returns (bits: seq<int>)
    ensures bits == Fit(Binarized(raw), |LabelNames|)
  {
    var preds := Flatten(raw);
    match ToReals(preds) {
      case None =>
        bits := seq(|LabelNames|, _ => 0);
      case Some(xs) =>
        bits := Binarize(xs);
    }
    if |bits| != |LabelNames| {
      if |bits| < |LabelNames| {
        bits := bits + seq(|LabelNames| - |bits|, _ => 0);
      } else {
        bits := bits[..|LabelNames|];
      }
    }
  }

  // ---------------------------------------------------------------------
  // Active labels
  // ---------------------------------------------------------------------

  /** The positions among the first n whose entry is 1, in increasing order. */
  function OnesAmong(bits: seq<int>, n: nat): (r: seq<nat>)
    requires n <= |bits|
    ensures forall i :: 0 <= i < |r| ==> r[i] < n && bits[r[i]] == 1
    ensures forall i, j :: 0 <= i < j < |r| ==> r[i] < r[j]
    ensures forall k :: 0 <= k < n && bits[k] == 1 ==> k in r
  {
    if n == 0 then []
    else OnesAmong(bits, n - 1) + (if bits[n - 1] == 1 then [n - 1] else [])
  }

  /** `active_labels`: the names at the positions whose entry is 1. */
  function ActiveLabels(bits: seq<int>): (r: seq<string>)
    requires |bits| == |LabelNames|
    ensures |r| == |OnesAmong(bits, |bits|)|
  {
    var ones := OnesAmong(bits, |bits|);
    seq(|ones|, i requires 0 <= i < |ones| => LabelNames[ones[i]])
  }

  /** The number of entries among the first n equal to 1. */
  function CountOnes(bits: seq<int>, n: nat): nat
    requires n <= |bits|
  {
    if n == 0 then 0 else CountOnes(bits, n - 1) + (if bits[n - 1] == 1 then 1 else 0)
  }

  lemma {:induction false} OnesAmongCount(bits: seq<int>, n: nat)
    requires n <= |bits|
    ensures |OnesAmong(bits, n)| == CountOnes(bits, n)
  {
    if n > 0 {
      OnesAmongCount(bits, n - 1);
    }
  }

  /** No label name occurs twice; the two halves of the list are checked
      separately and then against each other. */
  lemma LabelNamesDistinct()
    ensures Lists.NoDup(LabelNames)
  {
    LabelNamesDistinctBelow();
    LabelNamesDistinctAbove();
    LabelNamesHalvesDisjoint();
  }

  lemma LabelNamesDistinctBelow()
    ensures forall i, j :: 0 <= i < j < 12 ==> LabelNames[i] != LabelNames[j]
  {
  }

  lemma LabelNamesDistinctAbove()
    ensures forall i, j :: 12 <= i < j < |LabelNames| ==> LabelNames[i] != LabelNames[j]
  {
  }

  lemma LabelNamesHalvesDisjoint()
    ensures forall i, j :: 0 <= i < 12 <= j < |LabelNames| ==> LabelNames[i] != LabelNames[j]
  {
  }

  /** A label is active exactly when its entry is 1, the active labels follow
      label order (position i of the list is label ones[i], the positions
      increasing), and `num_active` is the number of 1s. */
  lemma ActiveLabelsSpec(bits: seq<int>)
    requires |bits| == |LabelNames|
    ensures |ActiveLabels(bits)| == CountOnes(bits, |bits|)
    ensures forall k :: 0 <= k < |bits| ==> (LabelNames[k] in ActiveLabels(bits) <==> bits[k] == 1)
    ensures var ones := OnesAmong(bits, |bits|);
            forall i, j :: 0 <= i < j < |ones| ==>
              ActiveLabels(bits)[i] == LabelNames[ones[i]] && ones[i] < ones[j]
  {
    OnesAmongCount(bits, |bits|);
    forall k | 0 <= k < |bits| ensures LabelNames[k] in ActiveLabels(bits) <==> bits[k] == 1 {
      ActiveLabelAt(bits, k);
    }
  }

  lemma ActiveLabelAt(bits: seq<int>, k: nat)
    requires |bits| == |LabelNames| && k < |bits|
    ensures LabelNames[k] in ActiveLabels(bits) <==> bits[k] == 1
  {
    LabelNamesDistinct();
    PickedNameAt(LabelNames, OnesAmong(bits, |bits|), ActiveLabels(bits), k);
  }

  /** Over distinct names, the name at position k is among those picked at the
      positions `ones` exactly when k is one of them. */
  lemma PickedNameAt(names: seq<string>, ones: seq<nat>, picked: seq<string>, k: nat)
    requires Lists.NoDup(names) && k < |names|
    requires |picked| == |ones|
    requires forall i :: 0 <= i < |ones| ==> ones[i] < |names| && picked[i] == names[ones[i]]
    ensures names[k] in picked <==> k in ones
  {
    if k in ones {
      var i :| 0 <= i < |ones| && ones[i] == k;
      assert picked[i] == names[k];
    }
    if names[k] in picked {
      var i :| 0 <= i < |picked| && picked[i] == names[k];
      assert names[ones[i]] == names[k];
    }
  }

  /** `dict(zip(names, values))`: a later key overwrites an earlier one. */
  function ZipMap(names: seq<string>, values: seq<int>): (m: map<string, int>)
    requires |names| == |values|
    ensures m.Keys == set i | 0 <= i < |names| :: names[i]
  {
    if names == [] then map[]
    else ZipMap(names[..|names| - 1], values[..|values| - 1])[names[|names| - 1] := values[|values| - 1]]
  }

  /** On distinct names the map sends each name to its own value. */
  lemma {:induction false} ZipMapOfDistinct(names: seq<string>, values: seq<int>, k: nat)
    requires |names| == |values| && Lists.NoDup(names) && k < |names|
    ensures ZipMap(names, values)[names[k]] == values[k]
  {
    if k < |names| - 1 {
      var n := |names| - 1;
      assert names[k] != names[n];
      ZipMapOfDistinct(names[..n], values[..n], k);
    }
  }

  /** `all_predictions`: every label's entry. */
  function AllPredictions(bits: seq<int>): (m: map<string, int>)
    requires |bits| == |LabelNames|
    ensures m.Keys == set i | 0 <= i < |LabelNames| :: LabelNames[i]
    ensures forall k :: 0 <= k < |LabelNames| ==> m[LabelNames[k]] == bits[k]
  {
    LabelNamesDistinct();
    var m := ZipMap(LabelNames, bits);
    assert forall k :: 0 <= k < |LabelNames| ==> m[LabelNames[k]] == bits[k] by {
      forall k | 0 <= k < |LabelNames| ensures m[LabelNames[k]] == bits[k] {
        ZipMapOfDistinct(LabelNames, bits, k);
      }
    }
    m
  }

  // ---------------------------------------------------------------------
  // The prediction result
  // ---------------------------------------------------------------------

  /** What `predict` returns, without the timestamp and the echoed readings. */
  datatype Prediction = Prediction(
    activeLabels: seq<string>,
    numActive: nat,
    allPredictions: map<string, int>,
    recommendation: RecommendationEngine.Recommendation)

  /** The recommendation stored when the engine fails: priority normal, empty
      summary and recommendation, and the failure in the message. */
  function RecommendationOrFallback(r: Result<RecommendationEngine.Recommendation>)
    : (rec: RecommendationEngine.Recommendation)
    ensures r.Success? ==> rec == r.value
    ensures r.Failure? ==>
              && rec.priority == RecommendationEngine.Normal
              && rec.summary == "" && rec.recommendation == ""
              && Text.StartsWith(rec.fullMessage, "Recommendation generation failed: ")
  {
    match r
    case Success(v) => v
    case Failure(e) =>
      var msg := "Recommendation generation failed: " + e;
      assert msg[..|"Recommendation generation failed: "|] == "Recommendation generation failed: ";
      RecommendationEngine.Recommendation("", "", RecommendationEngine.Normal, msg)
  }

  /** The prediction for given readings and raw output; `shown` stands for the
      readings as the engine formats them and `intro` for its random phrase. */
  function PredictionOf(bits: seq<int>, shown: map<string, string>, intro: string): Prediction
    requires |bits| == |LabelNames|
  {
    var active := ActiveLabels(bits);
    Prediction(active, |active|, AllPredictions(bits),
               RecommendationEngine.Compose(active, shown, map[], "detailed", intro))
  }

  /** `predict`: validation, normalisation, label selection and interpretation
      in the engine's default `detailed` mode. */
  method Predict(data: Readings, raw: RawOutput, shown: map<string, string>, intro: string)
    returns (r: Result<Prediction>)
    requires intro in RecommendationTables.IntroPhrases
    ensures ValidateSensorData(data).Failure? <==> r.Failure?
    ensures r.Success? ==> r.value == PredictionOf(Fit(Binarized(raw), |LabelNames|), shown, intro)
  {
    var valid := ValidateSensorData(data);
    if valid.Failure? {
      return Failure(valid.error);
    }
    var bits := Normalize(raw);
    var active := ActiveLabels(bits);
    var rec := RecommendationEngine.Interpret(active, shown, map[], "detailed", intro);
    r := Success(Prediction(active, |active|, AllPredictions(bits), RecommendationOrFallback(Success(rec))));
  }

  // ---------------------------------------------------------------------
  // Cycling through the records (`read_sensors`)
  // ---------------------------------------------------------------------

  /** The record read when the index is i: back to the first once past the end. */
  function Position(i: nat, n: nat): nat {
    if i >= n then 0 else i
  }

  /** The index after k reads from a fresh monitor over n records. */
  function IndexAfter(k: nat, n: nat): nat {
    if k == 0 then 0 else Position(IndexAfter(k - 1, n), n) + 1
  }

  /** Read k (counting from 0) returns record k mod n, and the index then
      stays between 1 and n. */
  lemma {:induction false} ReadsCycle(k: nat, n: nat)
    requires n > 0
    ensures Position(IndexAfter(k, n), n) == k % n
    ensures k > 0 ==> 1 <= IndexAfter(k, n) <= n
  {
    if k > 0 {
      ReadsCycle(k - 1, n);
      ModSucc(k - 1, n);
    }
  }

  /** The remainder of a successor: one more, or back to 0 at n. */
  lemma ModSucc(a: nat, n: nat)
    requires n > 0
    ensures (a + 1) % n == if a % n + 1 < n then a % n + 1 else 0
  {
    var q, r := a / n, a % n;
    assert a == q * n + r;
    if r + 1 < n {
      ModUnique(a + 1, n, q, r + 1);
    } else {
      assert (q + 1) * n == q * n + n;
      ModUnique(a + 1, n, q + 1, 0);
    }
  }

  lemma MulAtLeast(d: int, n: int)
    requires d >= 1 && n > 0
    ensures d * n >= n
  {
  }

  /** The remainder is determined by any quotient-remainder decomposition. */
  lemma ModUnique(a: int, n: int, q: int, r: int)
    requires n > 0 && 0 <= r < n && a == q * n + r
    ensures a % n == r
  {
    var q' := a / n;
    var r' := a % n;
    assert a == q' * n + r';
    assert (q - q') * n == r' - r by {
      assert q * n - q' * n == (q - q') * n;
    }
    if q > q' {
      MulAtLeast(q - q', n);
    } else if q < q' {
      MulAtLeast(q' - q, n);
    }
  }

  /** A monitor over the loaded JSON records; a record without `readings` is None. */
  class Monitor {
    const records: seq<Option<Readings>>
    var jsonIndex: nat

    constructor(records: seq<Option<Readings>>)
      ensures this.records == records && jsonIndex == 0
    {
      this.records := records;
      jsonIndex := 0;
    }

    /** `read_sensors`: reads the record at the (wrapped) index and moves the
        index past it, even when the record has no readings; with no records
        at all it fails and the index is 0. */
    method ReadSensors() returns (r: Result<Readings>)
      modifies this
      ensures |records| == 0 ==> r.Failure? && jsonIndex == 0
      ensures |records| > 0 ==>
                && jsonIndex == Position(old(jsonIndex), |records|) + 1
                && 1 <= jsonIndex <= |records|
                && var rec := records[Position(old(jsonIndex), |records|)];
                   (r.Success? <==> rec.Some?) && (rec.Some? ==> r.value == rec.value)
    {
      if jsonIndex >= |records| {
        jsonIndex := 0;
      }
      if jsonIndex >= |records| {
        return Failure("list index out of range");
      }
      var rec := records[jsonIndex];
      jsonIndex := jsonIndex + 1;
      if rec.None? {
        return Failure("readings");
      }
      r := Success(rec.value);
    }
  }

  // ---------------------------------------------------------------------
  // The CSV log
  // ---------------------------------------------------------------------

  /** A CSV cell: text, or a reading written as a number. */
  datatype Cell = TextCell(s: string) | Number(x: real)

  /** The header of the log. */
  function Header(): (h: seq<Cell>)
    ensures |h| == 1 + |FeatureNames| + 3
  {
    [TextCell("timestamp")] + seq(|FeatureNames|, i requires 0 <= i < |FeatureNames| => TextCell(FeatureNames[i]))
    + [TextCell("active_labels"), TextCell("recommendation"), TextCell("priority")]
  }

  /** The row logged for one cycle. */
  function Row(timestamp: string, data: Readings, p: Prediction): seq<Cell>
    requires forall i :: 0 <= i < |FeatureNames| ==> FeatureNames[i] in data
  {
    [TextCell(timestamp)]
    + seq(|FeatureNames|, i requires 0 <= i < |FeatureNames| => Number(data[FeatureNames[i]]))
    + [TextCell(Text.Join(p.activeLabels, ", ")), TextCell(p.recommendation.summary),
       TextCell(p.recommendation.priority.Name())]
  }

  /** Each row lines up with the header: same width, the readings under their
      feature names in feature order, then labels, summary and priority. */
  lemma RowMatchesHeader(timestamp: string, data: Readings, p: Prediction)
    requires forall i :: 0 <= i < |FeatureNames| ==> FeatureNames[i] in data
    ensures |Row(timestamp, data, p)| == |Header()| == 16
    ensures forall i :: 0 <= i < |FeatureNames| ==>
              Header()[1 + i] == TextCell(FeatureNames[i]) && Row(timestamp, data, p)[1 + i] == Number(data[FeatureNames[i]])
    ensures Row(timestamp, data, p)[0] == TextCell(timestamp)
    ensures Row(timestamp, data, p)[15] == TextCell(p.recommendation.priority.Name())
  {
  }

  /** A validated record can always be logged. */
  lemma ValidatedRecordsLog(data: Readings)
    requires ValidateSensorData(data).Success?
    ensures forall i :: 0 <= i < |FeatureNames| ==> FeatureNames[i] in data
  {
  }
}
