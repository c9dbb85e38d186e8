/** The sensor manager's state: the last-write-wins buffer of the 12 features,
    its snapshot with static defaults, the availability report, and the choice
    of sensor scripts at start-up. Subprocesses, threads and the queue are not
    modelled: the buffer receives the parsed pairs one at a time. */
module SensorManager {
  import opened Wrappers
  import opened Taxonomy
  import Lists
  import Numbers
  import SensorParser

  type Buffer = map<string, Option<real>>

  /** The values reported for a feature with no reading yet. */
  const Defaults: map<string, real> := map[
    "body_temp" := 38.18543053481313,
    "ambient_temp" := 40.65328021937469,
    "pressure_hpa" := 1118.0779043417701,
    "humidity_pct" := 2.2290509612701151,
    "accel_x" := -2.9304472197953389,
    "accel_y" := 1.52609944889852,
    "accel_z" := -3.45767613961922,
    "gyro_x" := -192.49125756855392,
    "gyro_y" := 228.95306166720195,
    "gyro_z" := 104.31422945069176,
    "heart_rate_bpm" := 100.85761985373327,
    "spo2_pct" := 50.4721417330743
  ]

  /** The defaults are given for exactly the 12 features, so the fallback 0.0
      is never used for a feature. */
  lemma DefaultsCoverFeatures()
    ensures forall i :: 0 <= i < |FeatureNames| ==> FeatureNames[i] in Defaults
    ensures Defaults.Keys == set i | 0 <= i < |FeatureNames| :: FeatureNames[i]
  {
    var features := set i | 0 <= i < |FeatureNames| :: FeatureNames[i];
    forall k | k in Defaults
      ensures k in features
    {
      assert k in FeatureNames;
      var i :| 0 <= i < |FeatureNames| && FeatureNames[i] == k;
    }
  }

  /** `defaults.get(feature, 0.0)`. */
  function DefaultOf(f: string): real {
    if f in Defaults then Defaults[f] else 0.0
  }

  /** `sensor_buffer.get(feature)`. */
  function Buffered(buffer: Buffer, f: string): Option<real> {
    if f in buffer then buffer[f] else None
  }

  /** The buffer holds exactly the 12 features. */
  predicate WellFormed(buffer: Buffer) {
    buffer.Keys == set i | 0 <= i < |FeatureNames| :: FeatureNames[i]
  }

  /** The buffer at start-up: every feature without a reading. */
  function InitialBuffer(): (b: Buffer)
    ensures WellFormed(b)
    ensures forall f :: f in b ==> b[f] == None
  {
    map i | 0 <= i < |FeatureNames| :: FeatureNames[i] := None
  }

  // ---------------------------------------------------------------------
  // One update of the buffer
  // ---------------------------------------------------------------------

  /** The buffer after one queued item: overwritten when the metric is a
      feature and the value converts to a number, otherwise unchanged. */
  function Applied(buffer: Buffer, item: SensorParser.Pair): Buffer {
    if IsFeature(item.metric) then
      match Numbers.PyFloat(item.value)
      case Some(x) => buffer[item.metric := Some(x)]
      case None => buffer
    else buffer
  }

  /** The buffer after a sequence of items, in queue order. */
  function AppliedAll(buffer: Buffer, items: seq<SensorParser.Pair>): Buffer {
    if items == [] then buffer
    else Applied(AppliedAll(buffer, items[..|items| - 1]), items[|items| - 1])
  }

  /** The last reading of metric f among the items: its value, when it
      converts; None when no item carries one. */
  function LastReading(items: seq<SensorParser.Pair>, f: string): Option<real> {
    if items == [] then None
    else
      var last := items[|items| - 1];
      if last.metric == f && IsFeature(f) && Numbers.PyFloat(last.value).Some? then Numbers.PyFloat(last.value)
      else LastReading(items[..|items| - 1], f)
  }

  /** The buffer keeps its shape under any update. */
  lemma AppliedKeepsShape(buffer: Buffer, item: SensorParser.Pair)
    requires WellFormed(buffer)
    ensures WellFormed(Applied(buffer, item))
  {
    if IsFeature(item.metric) {
      var i :| 0 <= i < |FeatureNames| && FeatureNames[i] == item.metric;
    }
  }

  /** Last write wins: after a sequence of items each feature holds its last
      converting reading, or what it held before when there is none; the
      buffer keeps its 12 keys. */
  lemma {:induction false} LastWriteWins(buffer: Buffer, items: seq<SensorParser.Pair>, f: string)
    requires WellFormed(buffer) && f in buffer
    ensures WellFormed(AppliedAll(buffer, items))
    ensures AppliedAll(buffer, items)[f] ==
              if LastReading(items, f).Some? then LastReading(items, f) else buffer[f]
  {
    if items != [] {
      var init, last := items[..|items| - 1], items[|items| - 1];
      LastWriteWins(buffer, init, f);
      AppliedKeepsShape(AppliedAll(buffer, init), last);
    }
  }

  /** Once a feature has a reading it never loses it. */
  lemma ReadingsPersist(buffer: Buffer, items: seq<SensorParser.Pair>, f: string)
    requires WellFormed(buffer) && f in buffer && buffer[f].Some?
    ensures Buffered(AppliedAll(buffer, items), f).Some?
  {
    LastWriteWins(buffer, items, f);
  }

  /** Every pair the parser emits lands in the buffer as its numeric value. */
  lemma ParsedPairsUpdate(buffer: Buffer, sensor: string, line: string, i: nat)
    requires i < |SensorParser.ParseLine(sensor, line)|
    ensures var p := SensorParser.ParseLine(sensor, line)[i];
            Applied(buffer, p) == buffer[p.metric := Numbers.PyFloat(p.value)]
            && Numbers.PyFloat(p.value).Some?
  {
    SensorParser.ParsedPairsAreFeatures(sensor, line);
    var p := SensorParser.ParseLine(sensor, line)[i];
    assert IsFeature(p.metric) && Numbers.PyFloat(p.value).Some?;
    AppliedReading(buffer, p);
  }

  /** A feature's converting reading overwrites the buffered value. */
  lemma AppliedReading(buffer: Buffer, p: SensorParser.Pair)
    requires IsFeature(p.metric) && Numbers.PyFloat(p.value).Some?
    ensures Applied(buffer, p) == buffer[p.metric := Numbers.PyFloat(p.value)]
  {
  }

  // ---------------------------------------------------------------------
  // Snapshot and status
  // ---------------------------------------------------------------------

  /** The reported value of feature f: the buffered reading, or the default. */
  function ValueOf(buffer: Buffer, f: string): real {
    match Buffered(buffer, f)
    case Some(x) => x
    case None => DefaultOf(f)
  }

  /** The snapshot over the given feature names, built one name at a time. */
  function SnapshotOver(buffer: Buffer, names: seq<string>): (m: map<string, real>)
    ensures m.Keys == set i | 0 <= i < |names| :: names[i]
    ensures forall i :: 0 <= i < |names| ==> m[names[i]] == ValueOf(buffer, names[i])
  {
    if names == [] then map[]
    else
      var m := SnapshotOver(buffer, names[..|names| - 1]);
      m[names[|names| - 1] := ValueOf(buffer, names[|names| - 1])]
  }

  /** The availability report over the given feature names. */
  function StatusOver(buffer: Buffer, names: seq<string>): (m: map<string, bool>)
    ensures m.Keys == set i | 0 <= i < |names| :: names[i]
    ensures forall i :: 0 <= i < |names| ==> (m[names[i]] <==> Buffered(buffer, names[i]).Some?)
  {
    if names == [] then map[]
    else
      var m := StatusOver(buffer, names[..|names| - 1]);
      m[names[|names| - 1] := Buffered(buffer, names[|names| - 1]).Some?]
  }

  lemma SnapshotOverSnoc(buffer: Buffer, names: seq<string>, i: nat)
    requires i < |names|
    ensures SnapshotOver(buffer, names[..i + 1]) == SnapshotOver(buffer, names[..i])[names[i] := ValueOf(buffer, names[i])]
  {
    assert names[..i + 1][..i] == names[..i];
  }

  lemma StatusOverSnoc(buffer: Buffer, names: seq<string>, i: nat)
    requires i < |names|
    ensures StatusOver(buffer, names[..i + 1]) == StatusOver(buffer, names[..i])[names[i] := Buffered(buffer, names[i]).Some?]
  {
    assert names[..i + 1][..i] == names[..i];
  }

  /** A feature reported unavailable shows its default in the snapshot, and an
      available one shows its reading. */
  lemma StatusExplainsSnapshot(buffer: Buffer, i: nat)
    requires i < |FeatureNames|
    ensures var f := FeatureNames[i];
            && (!StatusOver(buffer, FeatureNames)[f] ==> SnapshotOver(buffer, FeatureNames)[f] == Defaults[f])
            && (StatusOver(buffer, FeatureNames)[f] ==> SnapshotOver(buffer, FeatureNames)[f] == buffer[f].value)
  {
    DefaultsCoverFeatures();
  }

  /** The buffer of the sensor manager. */
  class ReadingBuffer {
    var buffer: Buffer

    ghost predicate Valid()
      reads this
    {
      WellFormed(buffer)
    }

    /** The buffer starts with every feature `None`. */
    constructor()
      ensures Valid() && buffer == InitialBuffer()
    {
      buffer := InitialBuffer();
    }

    /** The single-item update of the buffer updater. */
    method Update(item: SensorParser.Pair)
      requires Valid()
      modifies this
      ensures Valid()
      ensures buffer == Applied(old(buffer), item)
    {
      AppliedKeepsShape(buffer, item);
      if IsFeature(item.metric) {
        var v := Numbers.PyFloat(item.value);
        if v.Some? {
          buffer := buffer[item.metric := v];
        }
      }
    }

    /** `read_all_sensors`: each of the 12 features, buffered or default. */
    method ReadAll() returns (data: map<string, real>)
      ensures data == SnapshotOver(buffer, FeatureNames)
    {
      data := map[];
      for i := 0 to |FeatureNames|
        invariant data == SnapshotOver(buffer, FeatureNames[..i])
      {
        var f := FeatureNames[i];
        var value := Buffered(buffer, f);
        var x: real;
        if value.None? {
          x := DefaultOf(f);
        } else {
          x := value.value;
        }
        SnapshotOverSnoc(buffer, FeatureNames, i);
        data := data[f := x];
      }
      assert FeatureNames[..|FeatureNames|] == FeatureNames;
    }

    /** `get_sensor_status`: whether each feature has a reading. */
    method Status() returns (status: map<string, bool>)
      ensures status == StatusOver(buffer, FeatureNames)
    {
      status := map[];
      for i := 0 to |FeatureNames|
        invariant status == StatusOver(buffer, FeatureNames[..i])
      {
        var f := FeatureNames[i];
        StatusOverSnoc(buffer, FeatureNames, i);
        status := status[f := Buffered(buffer, f).Some?];
      }
      assert FeatureNames[..|FeatureNames|] == FeatureNames;
    }
  }

  // ---------------------------------------------------------------------
  // Script selection at start-up
  // ---------------------------------------------------------------------

  /** The sensor scripts by name, in start-up order. */
  const Scripts: seq<string> := ["max30102", "ds18b20", "bme280", "mpu6050"]

  /** The elements of xs in `keep`, in order. */
  function Keep(xs: seq<string>, keep: set<string>): (r: seq<string>)
    ensures forall i :: 0 <= i < |r| ==> r[i] in xs && r[i] in keep
    ensures forall i :: 0 <= i < |xs| && xs[i] in keep ==> xs[i] in r
  {
    if xs == [] then []
    else
      var r := Keep(xs[..|xs| - 1], keep);
      assert forall i :: 0 <= i < |xs| - 1 ==> xs[..|xs| - 1][i] == xs[i];
      r + (if xs[|xs| - 1] in keep then [xs[|xs| - 1]] else [])
  }

  /** Keeping preserves the order of a duplicate-free list. */
  lemma {:induction false} KeepPreservesOrder(xs: seq<string>, keep: set<string>)
    requires Lists.NoDup(xs)
    ensures forall i, j :: 0 <= i < j < |Keep(xs, keep)| ==>
              Lists.FirstIndex(xs, Keep(xs, keep)[i]) < Lists.FirstIndex(xs, Keep(xs, keep)[j])
  {
    if xs != [] {
      var init, last := xs[..|xs| - 1], xs[|xs| - 1];
      assert xs == init + [last];
      KeepPreservesOrder(init, keep);
      var r := Keep(xs, keep);
      var r' := Keep(init, keep);
      forall i, j | 0 <= i < j < |r|
        ensures Lists.FirstIndex(xs, r[i]) < Lists.FirstIndex(xs, r[j])
      {
        assert r[i] == r'[i];
        Lists.FirstIndexOfPrefix(init, [last], r[i]);
        if j < |r'| {
          assert r[j] == r'[j];
          Lists.FirstIndexOfPrefix(init, [last], r[j]);
        } else {
          assert r[j] == last && last !in init;
          assert xs[|xs| - 1] == last;
          assert Lists.FirstIndex(xs, last) == |xs| - 1;
        }
      }
    }
  }

  /** The scripts to start: those named in `sensors`, or all of them when no
      sensor is named. */
  function SelectScripts(sensors: seq<string>): seq<string> {
    if sensors != [] then Keep(Scripts, set s | s in sensors) else Scripts
  }

  /** Script selection keeps `Scripts` order and keeps exactly the named
      scripts, or all when none is named. */
  lemma SelectScriptsSpec(sensors: seq<string>)
    ensures forall i, j :: 0 <= i < j < |SelectScripts(sensors)| ==>
              Lists.FirstIndex(Scripts, SelectScripts(sensors)[i]) < Lists.FirstIndex(Scripts, SelectScripts(sensors)[j])
    ensures forall i :: 0 <= i < |Scripts| ==>
              (Scripts[i] in SelectScripts(sensors) <==> sensors == [] || Scripts[i] in sensors)
  {
    if sensors != [] {
      KeepPreservesOrder(Scripts, set s | s in sensors);
    } else {
      forall i, j | 0 <= i < j < |Scripts| ensures Lists.FirstIndex(Scripts, Scripts[i]) < Lists.FirstIndex(Scripts, Scripts[j]) {
        assert Lists.FirstIndex(Scripts, Scripts[i]) == i;
        assert Lists.FirstIndex(Scripts, Scripts[j]) == j;
      }
    }
  }

  /** Start-up: the selected scripts whose process starts (`startable` stands
      for the script file existing and `Popen` succeeding); none is an error. */
  function StartProcesses(sensors: seq<string>, startable: set<string>): (r: Result<seq<string>>)
    ensures r.Failure? <==> forall i :: 0 <= i < |SelectScripts(sensors)| ==> SelectScripts(sensors)[i] !in startable
    ensures r.Success? ==> r.value == Keep(SelectScripts(sensors), startable) && r.value != []
  {
    var started := Keep(SelectScripts(sensors), startable);
    assert started != [] ==> started[0] in SelectScripts(sensors) && started[0] in startable;
    if started == [] then Failure("No sensor subprocesses started") else Success(started)
  }
}
