# VitaBand core, modelled in Dafny

VitaBand is a wearable health monitor. Sensor helper scripts print one reading per
line. A sensor manager parses those lines into a buffer of 12 named features. A
classifier turns a feature vector into 24 labels (activity, health condition,
environment, status). A recommendation engine turns the labels into a prioritised,
human-readable advice message. This project models the deterministic core of that
pipeline and proves what it promises:

- `RecommendationEngine` and `RecommendationTables` (app/recommendation_engine.py):
  - the text tables;
  - list formatting and label classification;
  - top-label selection and the priority level;
  - the intensity-aware summary and the de-duplicated action list;
  - the `short` and `detailed` renderings.
- `ActivityMonitor` (app/main.py):
  - the required-feature validator;
  - prediction normalisation: flatten, binarise, pad or truncate, active labels and the prediction map;
  - the recommendation fallback;
  - the cyclic record reader (a class with a mutable `jsonIndex`);
  - the shape of the logged CSV row.
- `SensorParser` (app/sensor_manager.py `_parse_line`): the ordered rule chain over
  one output line. The number pattern `[+-]?\d+\.?\d*` is a greedy scanner in `Numbers`.
- `SensorManager` (app/sensor_manager.py):
  - the reading buffer as a class with a `map` field, with `Update`, `ReadAll` (the snapshot with defaults) and `Status`;
  - the choice of helper scripts;
  - the "nothing started" error.
- `Mpu6050` (sensors/mpu6050_sensor.py): register-byte combination, the signed conversion
  as written, the 14-byte block layout, and a corrected two's-complement decoder.
- `Ds18b20` (sensors/temp_ds18b20_sensor.py):
  - the CRC "YES" check and the `t=` temperature extraction;
  - the bounded retry loop of `read_temp`, over a supplied sequence of file reads;
  - `find_sensor` over a given device list;
  - the consecutive-error counter of `main`, as a state machine and as a class.
- Shared helpers: `Wrappers` (Option/Result), `Text` (Python's `strip`, `find`,
  `startswith`, `join`, `lower`, `capitalize`), `Lists` (order-preserving
  de-duplication) and `Taxonomy` (the 12 feature names and 24 label names).

The intro phrase of a summary, which `interpret` picks with `random.choice`, is a
parameter. Methods that require it demand that it is one of the three phrases.

`predict` binarises `[2, 0, 1]` through the probability path, because 0 and 1 lie in
[0, 1]. The result is `[1, 0, 1]`; the vector is not passed through unchanged
(`ActivityMonitor.BinarizeMixedExample`).

## Model

| member | source | states |
|---|---|---|
| RecommendationTables.IntensityTableComplete | app/recommendation_engine.py:48-96 | the conditions with an intensity table are exactly the described health conditions, and each has a non-empty mild, moderate and high message |
| RecommendationTables.IntensityKeysAreConditions | app/recommendation_engine.py:48-96 | the conditions with an intensity table are exactly the described health conditions |
| RecommendationTables.IntensityPhrasingsNonEmpty | app/recommendation_engine.py:48-96 | each intensity table has a non-empty mild, moderate and high message |
| RecommendationTables.CriticalOutranksAll | app/recommendation_engine.py:120-144 | "Critical" has priority 100 and every other listed label ranks below it |
| RecommendationTables.FallbackIsNoLabelAction | app/recommendation_engine.py:98-118 | the generic "Keep monitoring" advice is not the action of any label |
| RecommendationTables.NormalLabelsOnlyStatuses | app/recommendation_engine.py:19-46 | "Normal" and "Healthy" are statuses and belong to no other table |
| Lists.Dedupe | app/recommendation_engine.py:186 | de-duplication yields no repeats and keeps exactly the elements of its input |
| Lists.DedupeKeepsFirstOccurrenceOrder | app/recommendation_engine.py:186 | de-duplicated items appear in the order of their first occurrence |
| RecommendationEngine.FormatListIgnoresRepeats | app/recommendation_engine.py:184-186 | formatting a list equals formatting its de-duplicated list |
| RecommendationEngine.FormatListOfDistinct | app/recommendation_engine.py:184-193 | distinct items: "" for none, the item for one, "a connector b" for two, "a, b, connector c" for three or more |
| RecommendationEngine.FormatListEmptyIff | app/recommendation_engine.py:184-193 | the formatted list is "" exactly when every item is "" |
| RecommendationEngine.FormatListLeadsWithFirst | app/recommendation_engine.py:184-193 | a non-empty list's rendering starts with its first item |
| RecommendationEngine.SelectTopLabel | app/recommendation_engine.py:195-199 | None exactly for no labels; otherwise a member whose priority (unknown = 0) is at least every label's, and strictly above every earlier label's |
| RecommendationEngine.CriticalIsMainLabel | app/recommendation_engine.py:195-199 | whenever "Critical" is among the labels it is the main label |
| RecommendationEngine.FilterMembership | app/recommendation_engine.py:201-219 | a label is in a class's list exactly when it is an input label of that class |
| RecommendationEngine.ClassesCoverLabels | app/recommendation_engine.py:201-219 | the four list lengths sum to the number of input labels |
| RecommendationEngine.ClassesPartitionLabels | app/recommendation_engine.py:201-219 | the four lists together are a permutation of the input labels |
| RecommendationEngine.ClassifyLabels | app/recommendation_engine.py:201-219 | the append loop yields, per class, the input labels of that class in input order (activity, then condition, environment and status; unknown labels are conditions) |
| RecommendationEngine.CondMessageCases | app/recommendation_engine.py:221-231 | every condition has a phrase for mild, moderate and high, so a condition gets the phrase of its intensity when that is one of the three and the moderate phrase otherwise, never ""; any other label gives "" |
| RecommendationEngine.PhraseOfCompleteTable | app/recommendation_engine.py:224-230 | with a non-empty phrase for each of the three levels, the phrase chosen is the one for the given level when it is recognised and the moderate one otherwise |
| RecommendationEngine.PriorityLevelCases | app/recommendation_engine.py:263-270 | critical iff "Critical" is present; warning iff not critical and an urgent label is present; caution iff neither and a described health condition is present; normal otherwise |
| RecommendationEngine.PriorityLevelMonotone | app/recommendation_engine.py:263-270 | adding labels never lowers the priority level |
| RecommendationEngine.OtherThan | app/recommendation_engine.py:282 | the other conditions are exactly the input conditions different from the main label: nothing else is added and none of them is dropped |
| RecommendationEngine.SummaryStartsWithIntro | app/recommendation_engine.py:273-311 | the summary always begins with the intro phrase and a space |
| RecommendationEngine.SummaryOfNormalLabels | app/recommendation_engine.py:306-311 | labels that are all "Normal" or "Healthy", including none, give intro + " everything looks normal." |
| RecommendationEngine.SummaryLeadsWithMainCondition | app/recommendation_engine.py:276-280 | when the main label is a described condition, the summary opens with its capitalised intensity message |
| RecommendationEngine.ActionListProperties | app/recommendation_engine.py:314-326 | the actions are never empty and have no repeats; the main label's action comes first; every collected label with a non-empty action has it on the list; the fallback is used exactly when neither the main label nor any collected label has an action; otherwise every action is a table action |
| RecommendationEngine.ActionListCovers | app/recommendation_engine.py:314-326 | every collected label with a non-empty action has it on the list, and nothing is collected exactly when neither the main label nor any collected label has an action |
| RecommendationEngine.ActionsForCovers | app/recommendation_engine.py:319-322 | each label's non-empty action is collected, and nothing is collected exactly when no label has one |
| RecommendationEngine.BuildActions | app/recommendation_engine.py:314-326 | the membership-checked append loop computes the specified action list |
| RecommendationEngine.RecommendedActions | app/recommendation_engine.py:314-326 | the action list used for rendering is never empty |
| RecommendationEngine.ComposeReports | app/recommendation_engine.py:259-270 | the reported level is critical exactly when "Critical" is among the labels, and warning exactly when it is not but an urgent label is |
| RecommendationEngine.ComposeShort | app/recommendation_engine.py:313-331 | in short mode the recommendation is the main label's action when the table has one, and the generic advice exactly when no label has an action; the message is the summary, a space and the recommendation |
| RecommendationEngine.FirstRecommendedAction | app/recommendation_engine.py:313-326 | over any action table with non-empty texts whose only status key is "Critical": the first action is the main label's when it has one, and the generic advice exactly when no label has an action |
| RecommendationEngine.CollectedAreLabels | app/recommendation_engine.py:319 | the labels whose actions are collected after the main one all come from the input |
| RecommendationEngine.ActionLabelsAreCollected | app/recommendation_engine.py:316-319 | when the only status with an action is "Critical", every input label with an action other than the main label is among the collected labels |
| RecommendationEngine.LowOxygenExample | app/recommendation_engine.py:259-331 | low oxygen, heat and walking give level warning and, in short mode, the low-oxygen action |
| RecommendationTables.ActionTextsNonEmpty | app/recommendation_engine.py:98-117 | every action key and action text is non-empty |
| RecommendationTables.CriticalIsOnlyStatusAction | app/recommendation_engine.py:98-117 | "Critical" is the only status label with an action |
| RecommendationEngine.ComposeDetailed | app/recommendation_engine.py:332-352 | in any other mode the recommendation is all actions joined by spaces, and the message starts with the summary and ends with "Suggested next step: " and the first action |
| RecommendationEngine.Interpret | app/recommendation_engine.py:236-362 | the imperative pipeline (classify, build actions) returns the composed recommendation |
| ActivityMonitor.MissingFrom | app/main.py:196 | the missing list holds exactly the required names absent from the reading |
| ActivityMonitor.ValidateSensorData | app/main.py:194-198 | validation fails exactly when one of the 12 feature names is absent |
| ActivityMonitor.FlattenIsRavel | app/main.py:216-224 | a one-row matrix gives its row, a vector is unchanged, any matrix is flattened row-major, a scalar becomes a one-element vector |
| ActivityMonitor.ToReals | app/main.py:226-234 | conversion fails exactly when some entry is not a number and otherwise keeps every value in place |
| ActivityMonitor.TruncTowardZero | app/main.py:232 | the integer cast truncates toward zero for both signs |
| ActivityMonitor.BinarizePaths | app/main.py:226-232 | with some entry in [0, 1] every entry is thresholded at 0.5; otherwise entries are truncated, so integral values other than 0 and 1 survive |
| ActivityMonitor.BinarizeMixedExample | app/main.py:229-230 | a vector that mixes probabilities with larger values takes the threshold path |
| ActivityMonitor.BinarizeCastExample | app/main.py:231-232 | a vector with no entry in [0, 1] is cast entry by entry, keeping values such as 2, -3 and 5 |
| ActivityMonitor.FitProperties | app/main.py:236-242 | the vector gets exactly 24 entries: a longer one is truncated to its prefix, a shorter one is right-padded with zeros, one of the right length is unchanged |
| ActivityMonitor.Normalize | app/main.py:216-242 | the reassigning pad-or-truncate code computes the fitted, binarised prediction vector |
| ActivityMonitor.OnesAmong | app/main.py:244 | the selected indices are exactly the positions holding 1, ascending |
| ActivityMonitor.ActiveLabelsSpec | app/main.py:244-252 | the active labels are exactly the label names whose entry is 1, in taxonomy order, and their count is the number of ones |
| ActivityMonitor.ZipMapOfDistinct | app/main.py:253 | zipping distinct names with values maps each name to its value |
| ActivityMonitor.AllPredictions | app/main.py:253 | the prediction map has the 24 label names as keys and each maps to its entry |
| ActivityMonitor.RecommendationOrFallback | app/main.py:257-266 | a failing engine still yields a recommendation, with priority normal, empty summary and recommendation, and a "Recommendation generation failed: " message |
| ActivityMonitor.Predict | app/main.py:200-268 | prediction fails exactly when validation fails, and otherwise returns the prediction of the normalised vector |
| ActivityMonitor.ReadsCycle | app/main.py:185-192 | after k reads over n records the index lies in [1, n] and the next record read is number k mod n |
| ActivityMonitor.Monitor.constructor | app/main.py:61-65 | a monitor holds the loaded records and starts at record 0 |
| ActivityMonitor.Monitor.ReadSensors | app/main.py:183-192 | with no records the read fails; otherwise it reads the record at the index (wrapping to 0 at the end), and the index moves one past it into [1, n] |
| ActivityMonitor.Header | app/main.py:318 | the header has 1 + 12 + 3 columns |
| ActivityMonitor.RowMatchesHeader | app/main.py:371-375 | every row has as many cells as the header: the timestamp, the 12 features in feature order under their names, then the prediction columns ending with the priority |
| ActivityMonitor.ValidatedRecordsLog | app/main.py:194-198 | a validated reading has every feature a row needs |
| Numbers.MatchesAtIff | app/sensor_manager.py:151 | the number pattern matches at an index exactly when a digit, or a sign and then a digit, starts there |
| Numbers.SearchFindsNumeral | app/sensor_manager.py:151 | what `re.search` finds with the number pattern is a whole numeral |
| Text.StripOfPadded | app/sensor_manager.py:132 | `strip()` of a text surrounded by whitespace is `strip()` of the text itself |
| Numbers.PyFloatIgnoresPadding | app/sensor_manager.py:229 | `float()` gives the same result, or the same failure, whatever whitespace surrounds its argument |
| Numbers.PyFloatOfSigned | app/sensor_manager.py:229 | for an unsigned decimal, a leading '-' negates the value and a leading '+' keeps it |
| Numbers.PointDecimal | app/sensor_manager.py:229 | digits with a point are accepted and denote the whole digits plus the fraction digits over the matching power of ten |
| Numbers.WholeDecimal | app/sensor_manager.py:229 | a non-empty run of digits is accepted and denotes its integer value |
| Numbers.PyFloatOfPointDecimal | app/sensor_manager.py:229 | padded digits with a point convert to their value |
| Numbers.PyFloatOfWholeDecimal | sensors/temp_ds18b20_sensor.py:86 | padded digits convert to their integer value |
| Numbers.PyFloatOfBodyTemperature | app/sensor_manager.py:229 | `float(" 36.5\n")` is 36.5 |
| Numbers.PyFloatOfMilliDegrees | sensors/temp_ds18b20_sensor.py:86 | `float("23125\n")` is 23125.0 |
| Numbers.PyFloatOfNegativeFraction | app/sensor_manager.py:229 | `float("-0.25")` is -0.25 |
| Numbers.PyFloatRejectsWord | app/sensor_manager.py:229 | `float("abc")` fails |
| Numbers.PyFloatRejectsEmpty | app/sensor_manager.py:229 | `float("")` fails |
| Numbers.PyFloatRejectsLonePoint | app/sensor_manager.py:229 | a '.' without digits fails, whatever whitespace surrounds it |
| Numbers.PyFloatRejectsPoint | app/sensor_manager.py:229 | `float(" . ")` fails |
| Numbers.NumeralConverts | app/sensor_manager.py:229 | every token the parser emits converts to a number |
| SensorParser.AxisValueIsNumeral | app/sensor_manager.py:166 | an axis value found on an Accel or Gyro line is a numeral |
| SensorParser.AxisPair | app/sensor_manager.py:166-169 | an axis contributes at most one pair, exactly when its pattern matches, carrying the found value |
| SensorParser.AxisMetricsAreFeatures | app/sensor_manager.py:164-177 | the three accel and three gyro metric names are distinct features |
| SensorParser.BodyTemperatureLine | app/sensor_manager.py:137-140 | for "ds18b20", a stripped line that is one signed number yields exactly one body_temp pair with that number |
| SensorParser.ParsedPairsAreFeatures | app/sensor_manager.py:131-193 | every pair the parser emits names one of the 12 features and carries a numeral that converts |
| SensorParser.RuleYieldsFeatures | app/sensor_manager.py:131-193 | each rule of the chain emits only feature names with convertible numerals |
| SensorParser.ParseLineCount | app/sensor_manager.py:143-193 | a line yields at most three pairs, and at most one unless it is an Accel or Gyro line |
| SensorParser.AxisPairsOrder | app/sensor_manager.py:164-177 | axis pairs come in X, Y, Z order, named by the given accel or gyro metrics |
| SensorParser.AxisPairsPresence | app/sensor_manager.py:164-177 | an axis appears among the pairs exactly when its pattern matches |
| SensorParser.AxisLinesReturn | app/sensor_manager.py:164-177 | an Accel or Gyro line that no earlier rule takes yields just its axis pairs, even none |
| SensorParser.LowerCaseLinesYieldNothing | app/sensor_manager.py:143-193 | a line without capital letters, such as the lowercase JSON the max30102 helper prints, yields nothing except for "ds18b20" |
| SensorParser.SpO2LevelIsSpO2 | app/sensor_manager.py:187 | the "SpO2 Level" alternative of the SpO2 test adds nothing: every line containing it contains "SpO2" |
| SensorManager.DefaultsCoverFeatures | app/sensor_manager.py:267-281 | the defaults are keyed by exactly the 12 features, so each feature has one |
| SensorManager.InitialBuffer | app/sensor_manager.py:64-66 | the buffer starts with the 12 features, each with no reading |
| SensorManager.AppliedKeepsShape | app/sensor_manager.py:222-231 | an update keeps the buffer's keys the 12 features |
| SensorManager.LastWriteWins | app/sensor_manager.py:222-231 | after a sequence of items, each feature holds its last convertible reading, or its old value when it had none |
| SensorManager.ReadingsPersist | app/sensor_manager.py:222-231 | once a feature has a reading, later items never clear it |
| SensorManager.ParsedPairsUpdate | app/sensor_manager.py:222-231 | every pair the parser emits overwrites its feature with the number it denotes |
| SensorManager.SnapshotOver | app/sensor_manager.py:257-285 | the snapshot has exactly the named features, each the buffered value or the default |
| SensorManager.StatusOver | app/sensor_manager.py:294-298 | the status of a feature is true exactly when it has a buffered reading |
| SensorManager.StatusExplainsSnapshot | app/sensor_manager.py:257-298 | a false status means the snapshot shows the default, a true one the buffered value |
| SensorManager.ReadingBuffer.constructor | app/sensor_manager.py:64-66 | a new buffer is the initial buffer |
| SensorManager.ReadingBuffer.Update | app/sensor_manager.py:222-231 | an update changes only the buffer and leaves it as the specified single-item update |
| SensorManager.ReadingBuffer.ReadAll | app/sensor_manager.py:257-285 | the loop returns the snapshot over the 12 features and changes nothing |
| SensorManager.ReadingBuffer.Status | app/sensor_manager.py:294-298 | the loop returns the availability map over the 12 features and changes nothing |
| SensorManager.Keep | app/sensor_manager.py:69-71 | a script is kept exactly when it is one of the scripts and in the wanted set |
| SensorManager.KeepPreservesOrder | app/sensor_manager.py:69-71 | kept scripts stay in their original order |
| SensorManager.SelectScriptsSpec | app/sensor_manager.py:69-73 | the selection keeps the order of the four scripts, and a script is selected exactly when no sensors are named or it is named |
| SensorManager.StartProcesses | app/sensor_manager.py:76-79 | starting fails with "No sensor subprocesses started" exactly when no selected script starts; otherwise the started scripts, in order, none missing |
| Mpu6050.CombineIsArithmetic | sensors/mpu6050_sensor.py:126 | for bytes high and low, `(high << 8) \| low` equals high*256 + low and is below 65536 |
| Mpu6050.ConvertRawSpec | sensors/mpu6050_sensor.py:124-129 | a combined value up to 32768 is kept, a larger one has 65536 subtracted; the result lies in [-32767, 32768] |
| Mpu6050.ReadRawData | sensors/mpu6050_sensor.py:59-71 | reading succeeds exactly when both registers are present and agrees with the byte conversion |
| Mpu6050.ReadAllLayout | sensors/mpu6050_sensor.py:107-117 | a block needs 14 bytes; accel comes from byte pairs 0-5 and gyro from pairs 8-13, each scaled |
| Mpu6050.ReadAllIgnoresTemperature | sensors/mpu6050_sensor.py:107-117 | bytes 6 and 7 do not affect the result |
| Mpu6050.ConvertRawMinimumIsPositive | sensors/mpu6050_sensor.py:127-129 | as written, 0x80 0x00 decodes to +32768 and no input decodes to -32768 |
| Mpu6050.TwosComplementRoundTrip | sensors/mpu6050_sensor.py:124-129 | decoding the bytes of any 16-bit signed value gives the value back |
| Mpu6050.EncodeRoundTrip | sensors/mpu6050_sensor.py:124-129 | encoding what the corrected decoder makes of any byte pair, a value in [-32768, 32767], gives back the bytes |
| Mpu6050.ConvertersAgreeExceptMinimum | sensors/mpu6050_sensor.py:127-129 | the written and the corrected conversion agree on every byte pair except 0x80 0x00 |
| Mpu6050.ReadAllCorrectedSpec | sensors/mpu6050_sensor.py:107-117 | the corrected block keeps accel in [-2, 2) and equals the written one unless an axis reads 0x80 0x00 |
| Ds18b20.CrcOkIff | sensors/temp_ds18b20_sensor.py:72 | the CRC check passes exactly when the stripped first line ends with "YES" |
| Ds18b20.AfterMarker | sensors/temp_ds18b20_sensor.py:83-85 | there is a text after the marker exactly when the line contains "t=" |
| Ds18b20.ExtractTemp | sensors/temp_ds18b20_sensor.py:83-90 | a temperature needs two lines and a "t=" on the second |
| Ds18b20.AfterMarkerOf | sensors/temp_ds18b20_sensor.py:83-85 | the text taken is everything after the first "t=" |
| Ds18b20.ExtractTempOf | sensors/temp_ds18b20_sensor.py:83-87 | the temperature is the number after the first "t=", divided by 1000 |
| Ds18b20.ExtractTempWithoutMarker | sensors/temp_ds18b20_sensor.py:88-90 | without "t=" on the second line there is no temperature |
| Ds18b20.ReadsFrom | sensors/temp_ds18b20_sensor.py:71-80 | the loop performs at least one more read and never more than 12 in all |
| Ds18b20.ReadTempCases | sensors/temp_ds18b20_sensor.py:66-80 | a failed or empty read gives None; the first good CRC gives its temperature; after the initial read and 11 re-reads fail the CRC, None |
| Ds18b20.ReadTemp | sensors/temp_ds18b20_sensor.py:55-94 | the retry loop returns the specified temperature after between 1 and 12 reads |
| Ds18b20.FindSensor | sensors/temp_ds18b20_sensor.py:18-35 | the path is the first "28" device folder with "/w1_slave" appended, or None when there is none |
| Ds18b20.Step | sensors/temp_ds18b20_sensor.py:114-132 | success resets the error count and keeps the file; a failure below the limit adds one and keeps the file; at 10 the loop exits unless the sensor is found again, and then the count is 0 and the file is the one found; the count stays below 10 |
| Ds18b20.FailuresCountModulo | sensors/temp_ds18b20_sensor.py:121-132 | after k failures with the sensor always re-found, the count is the old count plus k, modulo 10 |
| Ds18b20.TempLoop.constructor | sensors/temp_ds18b20_sensor.py:110-111 | the loop starts with no errors and the found device file |
| Ds18b20.TempLoop.Iterate | sensors/temp_ds18b20_sensor.py:114-132 | one iteration exits exactly when the step does and otherwise keeps the count in [0, 9] and matches the step |

## Left out

- Threads, the queue and subprocesses in app/sensor_manager.py (`_reader_thread`, the timeout loop of `_buffer_updater_thread`, `close`): these are concurrency and process I/O. The model covers the single-item update and the snapshot. Whether `Popen` succeeds is the parameter `startable` of `SensorManager.StartProcesses`.
- Loading and calling the model and scaler (`joblib.load`, `scaler.transform`, `model.predict`) and ml_training/trainning.py are foreign library calls. The raw model output is an input datatype.
- app/mqtt_publisher.py, app/mdns_service.py and mqtt_config.py are network and configuration plumbing.
- sensors/bme280_sensor.py, sensors/testSorage.py, app/sensor_test.py and the max30102 helper are hardware, storage and console wrappers. The max30102 output is used only as the example in `SensorParser.LowerCaseLinesYieldNothing`.
- `_safe_format`, `display_result` and the f-string precision of the sensor scripts are float formatting. `predict` passes `interpret` the raw sensor record (app/main.py:258), and `interpret` formats it itself. In the model, the `shown` parameter of `ActivityMonitor.Predict` stands for the `_safe_format` results: a map from each reading that formats to its text. `shown` is not tied to `data`, so the model does not state that a validated record shows all four sensor lines.
- ActivityMonitor.Readings, ActivityMonitor.Predict: a record's values are reals. The failure of `np.array(features, dtype=float)` on a non-numeric value, after which `monitor_continuous` skips the cycle, is not modelled, and neither is `None` becoming NaN. "Prediction fails exactly when validation fails" holds for numeric records only.
- Numbers.PyFloat: models `float()` only on plain decimals with optional surrounding whitespace. Exponents, `inf`, `nan`, underscores and non-ASCII digits are treated as failures.
- Numbers.MatchesAt: `\d` is read as the ASCII digits only.
- Text.Lower, Text.Capitalize: `lower`, `upper` and `capitalize` act on ASCII letters only, so the capitalised summary phrases of `RecommendationEngine` are exact only for ASCII text.
- Reals are exact in the model. The divisions by 1000, 16384 and 131 are exact, not IEEE-754 doubles. `ActivityMonitor.Trunc` truncates without bound, while `astype(int)` on the cast path of `_normalize_prediction` wraps or saturates outside the int64 range and turns NaN or infinity into an undefined integer.
- `time.sleep`, `datetime.utcnow`, the `monitor_continuous` loop and KeyboardInterrupt handling are timing. The timestamp of a row is a parameter, and one cycle's data flow is modelled.
- `random.choice` of the intro phrase is a parameter.
- File reads are supplied data. `Ds18b20.ReadTemp` takes the sequence of successive `w1_slave` reads; a read beyond the supplied ones counts as failed. The `glob` result is the device list given to `Ds18b20.FindSensor`, in its given order.
- The printing of the temperature and the `sys.exit` of the ds18b20 `main` are I/O. The exit is the `exit` result of `Ds18b20.TempLoop.Iterate`.
- ActivityMonitor.ValidateSensorData: the failure message lists the missing names joined by ", ", not in the Python list notation of the `KeyError`.
- Reading the records' JSON file is I/O. `ActivityMonitor.Monitor` is built from the already loaded records.
- `_demo` in app/recommendation_engine.py passes its arguments in swapped order and is not a specification of `interpret`.

## Findings

| source | as written | input that shows it | evidently intended | confidence | as-written member | corrected member |
|---|---|---|---|---|---|---|
| sensors/mpu6050_sensor.py:127-128 | `if value > 32768: value -= 65536`, so the signed decoding keeps 0x8000 as +32768 (the same test is at lines 68-69) | high byte 0x80, low byte 0x00 | two's complement: `value >= 32768` gives -32768, so every value lies in [-32768, 32767] | not executed | Mpu6050.ConvertRawMinimumIsPositive | Mpu6050.TwosComplementRoundTrip |
