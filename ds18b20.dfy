/** The DS18B20 1-Wire thermometer script: parsing the kernel's `w1_slave`
    file, the bounded retry on a failed CRC, the choice of device folder, and
    the consecutive-error counter of the main loop. File tries are inputs: a
    sequence of successive results of reading the file, each the list of its
    lines or None when opening or reading failed. */
module Ds18b20 {
  import opened Wrappers
  import Text
  import Numbers

  /** One read of the device file. */
  type FileRead = Option<seq<string>>

  /** `not lines`: the read failed or the file was empty. */
  predicate Falsy(r: FileRead) {
    r.None? || r.value == []
  }

  /** Python's `s[-3:]`. */
  function LastThree(s: string): (r: string)
    ensures |r| == if |s| < 3 then |s| else 3
    ensures r == s[|s| - |r|..]
  {
    if |s| <= 3 then s else s[|s| - 3..]
  }

  /** The CRC check of the first line: without its trailing whitespace it
      ends in "YES". */
  predicate CrcOk(lines: seq<string>)
    requires |lines| > 0
  {
    Text.EndsWith(Text.StripRight(lines[0]), "YES")
  }

  /** Leading whitespace does not change whether a string ends in "YES". */
  lemma EndsInYes(lead: string, t: string)
    requires forall i :: 0 <= i < |lead| ==> Text.IsSpace(lead[i])
    ensures Text.EndsWith(lead + t, "YES") <==> LastThree(t) == "YES"
  {
    var u := lead + t;
    if |t| >= 3 {
      assert u[|u| - 3..] == t[|t| - 3..];
    } else {
      assert |LastThree(t)| < 3;
      if |u| >= 3 {
        var k := |u| - 3;
        assert u[k] == lead[k] && Text.IsSpace(u[k]);
        assert u[k..][0] == u[k];
      }
    }
  }

  /** The check is exactly `read_temp`'s test that the last three characters of
      the stripped first line are "YES". */
  lemma CrcOkIff(lines: seq<string>)
    requires |lines| > 0
    ensures CrcOk(lines) <==> LastThree(Text.Strip(lines[0])) == "YES"
  {
    var s := lines[0];
    var t := Text.Strip(s);
    Text.StripRightKeepsLead(s);
    if Text.StripLeft(s) != [] {
      var lead := s[..|s| - |Text.StripLeft(s)|];
      assert Text.StripRight(s) == lead + t;
      EndsInYes(lead, t);
    } else {
      assert Text.StripRight(s) == [] && t == [];
      assert !Text.EndsWith([], "YES");
    }
  }

  /** The text after the first "t=" of a line, if it has one. */
  function AfterMarker(line: string): (r: Option<string>)
    ensures r.Some? <==> Text.Contains(line, "t=")
  {
    var pos := Text.Find(line, "t=");
    if pos == -1 then None else Some(line[pos + 2..])
  }

  /** A reading in millidegrees converted to degrees; None when the text does
      not convert. */
  function Celsius(text: string): Option<real> {
    match Numbers.PyFloat(text)
    case Some(x) => Some(x / 1000.0)
    case None => None
  }

  /** The temperature in degrees from the second line: the text after the first
      "t=" read as a number of millidegrees. None when there is no second line,
      no "t=", or the text does not convert (the first and last raise inside
      `read_temp`'s `try`, the second is reported as None). */
  function ExtractTemp(lines: seq<string>): (r: Option<real>)
    ensures r.Some? ==> |lines| >= 2 && Text.Contains(lines[1], "t=")
  {
    if |lines| < 2 then None
    else
      match AfterMarker(lines[1])
      case Some(text) => Celsius(text)
      case None => None
  }

  /** The first "t=" of `prefix + "t=" + rest` is the one after the prefix when
      the prefix has none. */
  lemma AfterMarkerOf(prefix: string, rest: string)
    requires !Text.Contains(prefix, "t=")
    ensures AfterMarker(prefix + "t=" + rest) == Some(rest)
  {
    var s := prefix + "t=" + rest;
    assert s[|prefix|..|prefix| + 2] == "t=";
    assert Text.OccursAt(s, "t=", |prefix|);
    forall k: nat | k < |prefix|
      ensures !Text.OccursAt(s, "t=", k)
    {
      if k + 2 <= |prefix| {
        assert s[k..k + 2] == prefix[k..k + 2];
        assert !Text.OccursAt(prefix, "t=", k);
      } else {
        assert s[k + 1] == 't';
      }
    }
    assert Text.Find(s, "t=") == |prefix|;
    assert s[|prefix| + 2..] == rest;
  }

  /** A second line `... t=<millidegrees>` gives the text after the marker read
      as a number and divided by 1000, or None when that text does not
      convert; the first line plays no part. */
  lemma ExtractTempOf(first: string, prefix: string, rest: string)
    requires !Text.Contains(prefix, "t=")
    ensures ExtractTemp([first, prefix + "t=" + rest]) ==
              if Numbers.PyFloat(rest).Some? then Some(Numbers.PyFloat(rest).value / 1000.0) else None
  {
    AfterMarkerOf(prefix, rest);
    assert [first, prefix + "t=" + rest][1] == prefix + "t=" + rest;
  }

  /** A second line without "t=" gives no temperature. */
  lemma ExtractTempWithoutMarker(lines: seq<string>)
    requires |lines| >= 2 && !Text.Contains(lines[1], "t=")
    ensures ExtractTemp(lines) == None
  {
  }

  // ---------------------------------------------------------------------
  // read_temp
  // ---------------------------------------------------------------------

  /** Retries are given up once `retry_count` exceeds this. */
  const MaxRetries: nat := 10

  /** The i-th read; reads beyond the supplied sequence fail. */
  function ReadAt(tries: seq<FileRead>, i: nat): FileRead {
    if i < |tries| then tries[i] else None
  }

  /** The result of `read_temp` once the i-th read is in hand (i is
      `retry_count`). */
  function TempFrom(tries: seq<FileRead>, i: nat): Option<real>
    requires i <= MaxRetries + 1
    decreases MaxRetries + 1 - i
  {
    var r := ReadAt(tries, i);
    if Falsy(r) then None
    else if CrcOk(r.value) then ExtractTemp(r.value)
    else if i > MaxRetries then None
    else TempFrom(tries, i + 1)
  }

  /** How many tries `read_temp` makes once the i-th is in hand. */
  function ReadsFrom(tries: seq<FileRead>, i: nat): (n: nat)
    requires i <= MaxRetries + 1
    ensures i < n <= MaxRetries + 2
    decreases MaxRetries + 1 - i
  {
    var r := ReadAt(tries, i);
    if Falsy(r) || CrcOk(r.value) || i > MaxRetries then i + 1
    else ReadsFrom(tries, i + 1)
  }

  /** One step of `TempFrom` and `ReadsFrom`, case by case. */
  lemma TempFromStep(tries: seq<FileRead>, i: nat)
    requires i <= MaxRetries + 1
    ensures var r := ReadAt(tries, i);
            && (Falsy(r) ==> TempFrom(tries, i) == None && ReadsFrom(tries, i) == i + 1)
            && (!Falsy(r) && CrcOk(r.value) ==>
                  TempFrom(tries, i) == ExtractTemp(r.value) && ReadsFrom(tries, i) == i + 1)
            && (!Falsy(r) && !CrcOk(r.value) && i > MaxRetries ==>
                  TempFrom(tries, i) == None && ReadsFrom(tries, i) == i + 1)
            && (!Falsy(r) && !CrcOk(r.value) && i <= MaxRetries ==>
                  TempFrom(tries, i) == TempFrom(tries, i + 1) && ReadsFrom(tries, i) == ReadsFrom(tries, i + 1))
  {
  }

  /** The first n reads all succeeded but failed the CRC check. */
  predicate Stale(tries: seq<FileRead>, n: nat) {
    forall k :: 0 <= k < n ==> !Falsy(ReadAt(tries, k)) && !CrcOk(ReadAt(tries, k).value)
  }

  lemma {:induction false} TempFromStale(tries: seq<FileRead>, i: nat, n: nat)
    requires i <= n <= MaxRetries + 1 && Stale(tries, n)
    ensures TempFrom(tries, i) == TempFrom(tries, n)
    ensures ReadsFrom(tries, i) == ReadsFrom(tries, n)
    decreases n - i
  {
    if i < n {
      TempFromStep(tries, i);
      TempFromStale(tries, i + 1, n);
    }
  }

  /** What `read_temp` returns: after n stale reads (n <= 11) the next read
      decides it: a failed read gives None, a good CRC gives the parsed
      temperature; twelve stale tries give None. It tries at most 12 times,
      and never parses a file whose CRC check failed. */
  lemma ReadTempCases(tries: seq<FileRead>, n: nat)
    requires n <= MaxRetries + 2 && Stale(tries, n)
    ensures n <= MaxRetries + 1 && Falsy(ReadAt(tries, n)) ==> TempFrom(tries, 0) == None
    ensures n <= MaxRetries + 1 && !Falsy(ReadAt(tries, n)) && CrcOk(ReadAt(tries, n).value) ==>
              TempFrom(tries, 0) == ExtractTemp(ReadAt(tries, n).value)
    ensures n <= MaxRetries + 1 ==> ReadsFrom(tries, 0) > n
    ensures n == MaxRetries + 2 ==> TempFrom(tries, 0) == None && ReadsFrom(tries, 0) == 12
  {
    var m := if n == MaxRetries + 2 then MaxRetries + 1 else n;
    TempFromStale(tries, 0, m);
  }

  /** `read_temp` over the successive reads of the device file: the
      temperature, and how many reads it made. */
  method ReadTemp(tries: seq<FileRead>) returns (temp: Option<real>, used: nat)
    ensures temp == TempFrom(tries, 0)
    ensures used == ReadsFrom(tries, 0) && 1 <= used <= 12
  {
    var lines := ReadAt(tries, 0);
    used := 1;
    if Falsy(lines) {
      TempFromStep(tries, 0);
      return None, used;
    }
    var retryCount: nat := 0;
    while !CrcOk(lines.value)
      invariant retryCount <= MaxRetries + 1
      invariant lines == ReadAt(tries, retryCount) && !Falsy(lines)
      invariant used == retryCount + 1
      invariant Stale(tries, retryCount)
      decreases MaxRetries + 1 - retryCount
    {
      if retryCount > MaxRetries {
        ReadTempCases(tries, retryCount + 1);
        return None, used;
      }
      lines := ReadAt(tries, retryCount + 1);
      used := used + 1;
      if Falsy(lines) {
        ReadTempCases(tries, retryCount + 1);
        return None, used;
      }
      retryCount := retryCount + 1;
    }
    ReadTempCases(tries, retryCount);
    temp := ExtractTemp(lines.value);
  }

  // ---------------------------------------------------------------------
  // find_sensor
  // ---------------------------------------------------------------------

  const BaseDir: string := "/sys/bus/w1/devices/"

  /** The DS18B20 family code that device folder names start with. */
  predicate IsThermometer(name: string) {
    Text.StartsWith(name, "28")
  }

  /** The first thermometer folder of the listing. */
  function FirstThermometer(devices: seq<string>): (r: Option<nat>)
    ensures r.None? <==> forall i :: 0 <= i < |devices| ==> !IsThermometer(devices[i])
    ensures r.Some? ==> r.value < |devices| && IsThermometer(devices[r.value])
    ensures r.Some? ==> forall j :: 0 <= j < r.value ==> !IsThermometer(devices[j])
  {
    if devices == [] then None
    else if IsThermometer(devices[0]) then Some(0)
    else
      match FirstThermometer(devices[1..])
      case Some(k) => Some(k + 1)
      case None => None
  }

  /** `find_sensor` over the folder names of the bus directory, in the order
      the listing gives them: the first `28*` folder's `w1_slave` file, or
      None. */
  function FindSensor(devices: seq<string>): (r: Option<string>)
    ensures r.None? <==> forall i :: 0 <= i < |devices| ==> !IsThermometer(devices[i])
    ensures r.Some? ==>
              exists i :: (0 <= i < |devices| && IsThermometer(devices[i])
                           && (forall j :: 0 <= j < i ==> !IsThermometer(devices[j]))
                           && r.value == BaseDir + devices[i] + "/w1_slave")
  {
    match FirstThermometer(devices)
    case Some(k) => Some(BaseDir + devices[k] + "/w1_slave")
    case None => None
  }

  // ---------------------------------------------------------------------
  // The main loop's error counter
  // ---------------------------------------------------------------------

  /** After this many failed reads in a row the device is looked up again. */
  const MaxConsecutiveErrors: nat := 10

  datatype LoopState = LoopState(errors: nat, deviceFile: string)

  /** One iteration of the main loop, given this iteration's `read_temp`
      result and what a new `find_sensor` would return. None means the
      program exits. */
  function Step(s: LoopState, temp: Option<real>, refound: Option<string>): (r: Option<LoopState>)
    ensures temp.Some? ==> r == Some(LoopState(0, s.deviceFile))
    ensures r.None? <==> temp.None? && s.errors + 1 >= MaxConsecutiveErrors && refound.None?
    ensures s.errors < MaxConsecutiveErrors && r.Some? ==> r.value.errors < MaxConsecutiveErrors
    ensures temp.None? && s.errors + 1 < MaxConsecutiveErrors ==> r == Some(LoopState(s.errors + 1, s.deviceFile))
    ensures temp.None? && s.errors + 1 >= MaxConsecutiveErrors && refound.Some? ==>
              r == Some(LoopState(0, refound.value))
  {
    if temp.Some? then Some(LoopState(0, s.deviceFile))
    else if s.errors + 1 >= MaxConsecutiveErrors then
      match refound
      case Some(f) => Some(LoopState(0, f))
      case None => None
    else Some(LoopState(s.errors + 1, s.deviceFile))
  }

  /** Failed reads in a row, with the device found again each time the limit
      is reached, count modulo 10. */
  lemma {:induction false} FailuresCountModulo(s: LoopState, k: nat, f: string)
    requires s.errors < MaxConsecutiveErrors
    ensures Failures(s, k, f).errors == (s.errors + k) % MaxConsecutiveErrors
  {
    if k > 0 {
      FailuresCountModulo(s, k - 1, f);
      var e := (s.errors + k - 1) % MaxConsecutiveErrors;
      assert Failures(s, k, f) == Step(Failures(s, k - 1, f), None, Some(f)).value;
      NextModulo(s.errors + k - 1);
    }
  }

  /** Counting one more modulo 10 is adding one and wrapping at 10. */
  lemma NextModulo(a: nat)
    ensures (a + 1) % MaxConsecutiveErrors
            == if a % MaxConsecutiveErrors + 1 < MaxConsecutiveErrors then a % MaxConsecutiveErrors + 1 else 0
  {
    var q, r := a / MaxConsecutiveErrors, a % MaxConsecutiveErrors;
    assert a == MaxConsecutiveErrors * q + r;
    if r + 1 < MaxConsecutiveErrors {
      assert a + 1 == MaxConsecutiveErrors * q + (r + 1);
    } else {
      assert a + 1 == MaxConsecutiveErrors * (q + 1);
    }
  }

  /** The state after k failed reads, the device being found again as f. */
  function Failures(s: LoopState, k: nat, f: string): LoopState
    requires s.errors < MaxConsecutiveErrors
  {
    if k == 0 then s else Step(Failures(s, k - 1, f), None, Some(f)).value
  }

  /** The main loop's state. */
  class TempLoop {
    var consecutiveErrors: nat
    var deviceFile: string

    ghost predicate Valid()
      reads this
    {
      consecutiveErrors < MaxConsecutiveErrors
    }

    /** The loop starts with no errors, on the file found at start-up. */
    constructor(found: string)
      ensures Valid() && consecutiveErrors == 0 && deviceFile == found
    {
      consecutiveErrors := 0;
      deviceFile := found;
    }

    /** One iteration: `temp` is this iteration's reading, `refound` the
        result of looking the device up again; `exit` says the program ends.
        A reading is printed and resets the counter, a failure counts, and the
        tenth failure in a row switches to the refound file or exits. */
    method Iterate(temp: Option<real>, refound: Option<string>) returns (exit: bool)
      requires Valid()
      modifies this
      ensures exit <==> Step(LoopState(old(consecutiveErrors), old(deviceFile)), temp, refound).None?
      ensures !exit ==> Valid()
      ensures !exit ==> Step(LoopState(old(consecutiveErrors), old(deviceFile)), temp, refound)
                          == Some(LoopState(consecutiveErrors, deviceFile))
    {
      exit := false;
      if temp.Some? {
        consecutiveErrors := 0;
      } else {
        consecutiveErrors := consecutiveErrors + 1;
        if consecutiveErrors >= MaxConsecutiveErrors {
          if refound.None? {
            exit := true;
            return;
          }
          deviceFile := refound.value;
          consecutiveErrors := 0;
        }
      }
    }
  }
}
