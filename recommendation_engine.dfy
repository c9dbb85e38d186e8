/** The recommendation engine: turns the active labels into a priority level, an
    intensity-aware summary, a de-duplicated ordered list of actions, and a
    `short` or `detailed` rendering. The introductory phrase, chosen at random
    by the engine, is a parameter here. */
module RecommendationEngine {
  import opened Wrappers
  import opened RecommendationTables
  import Text
  import Lists

  // ---------------------------------------------------------------------
  // Natural-language lists (`_format_list`)
  // ---------------------------------------------------------------------

  /** `_format_list`: de-duplicates, then "a", "a c b" or "a, b, c d". */
  function FormatList(items: seq<string>, connector: string): string {
    var d := Lists.Dedupe(items);
    if |d| == 0 then ""
    else if |d| == 1 then d[0]
    else if |d| == 2 then d[0] + " " + connector + " " + d[1]
    else Text.Join(d[..|d| - 1], ", ") + ", " + connector + " " + d[|d| - 1]
  }

  /** Only first occurrences matter: the list reads the same once de-duplicated. */
  lemma FormatListIgnoresRepeats(items: seq<string>, connector: string)
    ensures FormatList(items, connector) == FormatList(Lists.Dedupe(items), connector)
  {
    Lists.DedupeOfNoDup(Lists.Dedupe(items));
  }

  /** On distinct items: nothing, the item itself, "a c b", or "a, b, c d". */
  lemma FormatListOfDistinct(items: seq<string>, connector: string)
    requires Lists.NoDup(items)
    ensures var r := FormatList(items, connector);
            && (|items| == 0 ==> r == "")
            && (|items| == 1 ==> r == items[0])
            && (|items| == 2 ==> r == items[0] + " " + connector + " " + items[1])
            && (|items| >= 3 ==> r == Text.Join(items[..|items| - 1], ", ") + ", " + connector + " " + items[|items| - 1])
  {
    Lists.DedupeOfNoDup(items);
  }

  /** The list reads "" exactly when every item is "". */
  lemma FormatListEmptyIff(items: seq<string>, connector: string)
    ensures FormatList(items, connector) == "" <==> forall i :: 0 <= i < |items| ==> items[i] == ""
  {
    var d := Lists.Dedupe(items);
    if forall i :: 0 <= i < |items| ==> items[i] == "" {
    } else {
      var i :| 0 <= i < |items| && items[i] != "";
      assert items[i] in d;
      if |d| == 1 {
        assert d[0] == items[i];
      }
    }
  }

  /** The first item leads the list. */
  lemma FormatListLeadsWithFirst(items: seq<string>, connector: string)
    requires |items| > 0
    ensures Text.StartsWith(FormatList(items, connector), items[0])
  {
    var d := Lists.Dedupe(items);
    Lists.DedupeKeepsHead(items);
    if |d| >= 3 {
      JoinStartsWithFirst(d[..|d| - 1], ", ");
      var j := Text.Join(d[..|d| - 1], ", ");
      var rest := ", " + connector + " " + d[|d| - 1];
      assert (j + rest)[..|d[0]|] == j[..|d[0]|];
    } else if |d| == 2 {
      var rest := " " + connector + " " + d[1];
      assert (d[0] + rest)[..|d[0]|] == d[0];
    }
  }

  lemma JoinStartsWithFirst(parts: seq<string>, sep: string)
    requires |parts| > 0
    ensures Text.StartsWith(Text.Join(parts, sep), parts[0])
  {
    if |parts| > 1 {
      var rest := sep + Text.Join(parts[1..], sep);
      assert (parts[0] + rest)[..|parts[0]|] == parts[0];
    }
  }

  // ---------------------------------------------------------------------
  // Priorities and the main label (`_select_top_label`)
  // ---------------------------------------------------------------------

  /** `LABEL_PRIORITY.get(lab, 0)`. */
  function Priority(lab: string): int {
    if lab in LabelPriority then LabelPriority[lab] else 0
  }

  /** Index of the first label of maximal priority (Python's `max` keeps the
      first of equal keys). */
  function TopIndex(labels: seq<string>): (k: nat)
    requires |labels| > 0
    ensures k < |labels|
    ensures forall j :: 0 <= j < |labels| ==> Priority(labels[j]) <= Priority(labels[k])
    ensures forall j :: 0 <= j < k ==> Priority(labels[j]) < Priority(labels[k])
  {
    if |labels| == 1 then 0
    else
      var k := TopIndex(labels[..|labels| - 1]);
      if Priority(labels[|labels| - 1]) > Priority(labels[k]) then |labels| - 1 else k
  }

  /** `_select_top_label`: None exactly for no labels; otherwise a label whose
      priority no other label exceeds, and every label before its first
      occurrence has a strictly lower priority (ties go to the earliest). */
  function SelectTopLabel(labels: seq<string>): (r: Option<string>)
    ensures r.None? <==> labels == []
    ensures r.Some? ==> r.value in labels
    ensures r.Some? ==> forall j :: 0 <= j < |labels| ==> Priority(labels[j]) <= Priority(r.value)
    ensures r.Some? ==> forall j :: 0 <= j < Lists.FirstIndex(labels, r.value) ==> Priority(labels[j]) < Priority(r.value)
  {
    if labels == [] then None
    else
      var k := TopIndex(labels);
      assert Lists.FirstIndex(labels, labels[k]) == k;
      Some(labels[k])
  }

  /** "Critical" outranks every other label, so it is the main label whenever present. */
  lemma CriticalIsMainLabel(labels: seq<string>)
    requires "Critical" in labels
    ensures SelectTopLabel(labels) == Some("Critical")
  {
    var top := SelectTopLabel(labels).value;
    CriticalOutranksAll();
    assert Priority(top) >= 100 by {
      var i :| 0 <= i < |labels| && labels[i] == "Critical";
    }
  }

  // ---------------------------------------------------------------------
  // Label classes (`_classify_labels`)
  // ---------------------------------------------------------------------

  datatype Category = Activity | Condition | Environment | Status

  /** The class a label is filed under: activity, condition, environment, status
      are tried in that order; unknown labels count as conditions. */
  function CategoryOf(lab: string): Category {
    if lab in ActivityDescriptions then Activity
    else if lab in ConditionDescriptions then Condition
    else if lab in EnvironmentDescriptions then Environment
    else if lab in StatusDescriptions then Status
    else Condition
  }

  /** The labels of class `c`, in input order. */
  function Filter(labels: seq<string>, c: Category): seq<string> {
    if labels == [] then []
    else
      var last := labels[|labels| - 1];
      Filter(labels[..|labels| - 1], c) + (if CategoryOf(last) == c then [last] else [])
  }

  /** A label is in the list of its own class and in no other. */
  lemma {:induction false} FilterMembership(labels: seq<string>, c: Category, x: string)
    ensures x in Filter(labels, c) <==> x in labels && CategoryOf(x) == c
  {
    if labels != [] {
      var init := labels[..|labels| - 1];
      FilterMembership(init, c, x);
      assert labels == init + [labels[|labels| - 1]];
    }
  }

  /** The four classes partition the input: their lengths add up to its length. */
  lemma {:induction false} ClassesCoverLabels(labels: seq<string>)
    ensures |Filter(labels, Activity)| + |Filter(labels, Condition)|
            + |Filter(labels, Environment)| + |Filter(labels, Status)| == |labels|
  {
    if labels != [] {
      ClassesCoverLabels(labels[..|labels| - 1]);
    }
  }

  /** Together the four classes hold every label as often as the input does. */
  lemma ClassesPartitionLabels(labels: seq<string>)
    ensures multiset(Filter(labels, Activity)) + multiset(Filter(labels, Condition))
            + multiset(Filter(labels, Environment)) + multiset(Filter(labels, Status)) == multiset(labels)
  {
    var whole := multiset(Filter(labels, Activity)) + multiset(Filter(labels, Condition))
                 + multiset(Filter(labels, Environment)) + multiset(Filter(labels, Status));
    forall x ensures whole[x] == multiset(labels)[x] {
      FilterCount(labels, Activity, x);
      FilterCount(labels, Condition, x);
      FilterCount(labels, Environment, x);
      FilterCount(labels, Status, x);
    }
  }

  /** The list of class `c` holds each label of that class as often as the
      input does, and no other label. */
  lemma {:induction false} FilterCount(labels: seq<string>, c: Category, x: string)
    ensures multiset(Filter(labels, c))[x] == if CategoryOf(x) == c then multiset(labels)[x] else 0
  {
    if labels != [] {
      var init, last := labels[..|labels| - 1], labels[|labels| - 1];
      FilterCount(init, c, x);
      assert labels == init + [last];
      var tail := if CategoryOf(last) == c then [last] else [];
      assert Filter(labels, c) == Filter(init, c) + tail;
      assert multiset(Filter(labels, c)) == multiset(Filter(init, c)) + multiset(tail);
      assert multiset(tail)[x] == if CategoryOf(x) == c && last == x then 1 else 0;
      assert multiset(labels)[x] == multiset(init)[x] + (if last == x then 1 else 0);
    }
  }

  /** `_classify_labels`: one pass, appending each label to its class's list. */
  method ClassifyLabels(labels: seq<string>)
    returns (activity: seq<string>, conditions: seq<string>, environment: seq<string>, status: seq<string>)
    ensures activity == Filter(labels, Activity)
    ensures conditions == Filter(labels, Condition)
    ensures environment == Filter(labels, Environment)
    ensures status == Filter(labels, Status)
  {
    activity, conditions, environment, status := [], [], [], [];
    for i := 0 to |labels|
      invariant activity == Filter(labels[..i], Activity)
      invariant conditions == Filter(labels[..i], Condition)
      invariant environment == Filter(labels[..i], Environment)
      invariant status == Filter(labels[..i], Status)
    {
      var l := labels[i];
      assert labels[..i + 1][..i] == labels[..i];
      if l in ActivityDescriptions {
        activity := activity + [l];
      } else if l in ConditionDescriptions {
        conditions := conditions + [l];
      } else if l in EnvironmentDescriptions {
        environment := environment + [l];
      } else if l in StatusDescriptions {
        status := status + [l];
      } else {
        conditions := conditions + [l];
      }
    }
    assert labels[..|labels|] == labels;
  }

  // ---------------------------------------------------------------------
  // Intensity-aware condition messages (`_cond_message`)
  // ---------------------------------------------------------------------

  /** `HEALTH_CONDITION_DESCRIPTIONS.get(lab, "")`. */
  function BaseDescription(lab: string): string {
    if lab in ConditionDescriptions then ConditionDescriptions[lab] else ""
  }

  /** `intensity_map.get(lab)`. */
  function IntensityOf(intensity: map<string, string>, lab: string): Option<string> {
    if lab in intensity then Some(intensity[lab]) else None
  }

  /** `_cond_message`. */
  function CondMessage(lab: string, intensity: Option<string>): string {
    if lab == "" then ""
    else if lab in IntensityMessages then Phrase(IntensityMessages[lab], intensity, BaseDescription(lab))
    else BaseDescription(lab)
  }

  /** The choice among the phrasings `msgs` of one condition, `base` standing
      in for a missing or empty one. */
  function Phrase(msgs: map<string, string>, intensity: Option<string>, base: string): string {
    if intensity.Some? && intensity.value in IntensityLevels then
      if intensity.value in msgs && msgs[intensity.value] != "" then msgs[intensity.value]
      else base
    else if "moderate" in msgs then msgs["moderate"]
    else base
  }

  /** The intensity whose phrasing a condition gets: the given one when it is
      mild, moderate or high, else moderate. */
  function PhrasingLevel(intensity: Option<string>): (lv: string)
    ensures lv in IntensityLevels
    ensures intensity.Some? && intensity.value in IntensityLevels ==> lv == intensity.value
    ensures !(intensity.Some? && intensity.value in IntensityLevels) ==> lv == "moderate"
  {
    if intensity.Some? && intensity.value in IntensityLevels then intensity.value else "moderate"
  }

  /** With a non-empty phrasing for every level, the phrasing of the level
      `PhrasingLevel` picks is chosen. */
  lemma PhraseOfCompleteTable(msgs: map<string, string>, intensity: Option<string>, base: string)
    requires forall lv :: lv in IntensityLevels ==> lv in msgs && msgs[lv] != ""
    ensures Phrase(msgs, intensity, base) == msgs[PhrasingLevel(intensity)]
  {
    assert "moderate" in IntensityLevels;
  }

  /** A condition gets the phrasing of its intensity, or the `moderate` phrasing
      for a missing or unrecognised intensity; anything else gets "" . */
  lemma CondMessageCases(lab: string, intensity: Option<string>)
    ensures lab in ConditionDescriptions ==>
              (IntensityTableComplete();
               CondMessage(lab, intensity) == IntensityMessages[lab][PhrasingLevel(intensity)])
    ensures lab !in ConditionDescriptions ==> CondMessage(lab, intensity) == ""
    ensures CondMessage(lab, intensity) != "" <==> lab in ConditionDescriptions
  {
    IntensityTableComplete();
    if lab in ConditionDescriptions {
      var msgs := IntensityMessages[lab];
      assert forall lv :: lv in IntensityLevels ==> lv in msgs && msgs[lv] != "";
      PhraseOfCompleteTable(msgs, intensity, BaseDescription(lab));
      assert msgs[PhrasingLevel(intensity)] != "";
    }
  }

  // ---------------------------------------------------------------------
  // Priority level
  // ---------------------------------------------------------------------

  datatype Level = Normal | Caution | Warning | Critical {
    /** The string the engine reports. */
    function Name(): string {
      match this
      case Normal => "normal"
      case Caution => "caution"
      case Warning => "warning"
      case Critical => "critical"
    }

    /** normal < caution < warning < critical. */
    function Rank(): nat {
      match this
      case Normal => 0
      case Caution => 1
      case Warning => 2
      case Critical => 3
    }
  }

  /** Labels that raise the level to `warning`. */
  const UrgentLabels: seq<string> := ["Low oxygen state", "Possible fever", "Warning"]

  predicate HasUrgent(labels: seq<string>) {
    exists i :: 0 <= i < |labels| && labels[i] in UrgentLabels
  }

  /** Some label is a key of the condition descriptions (the fallback for
      unknown labels does not count). */
  predicate HasKnownCondition(labels: seq<string>) {
    exists i :: 0 <= i < |labels| && labels[i] in ConditionDescriptions
  }

  /** The priority level, from the main label and the labels themselves. */
  function PriorityLevel(labels: seq<string>): Level {
    if SelectTopLabel(labels) == Some("Critical") || "Critical" in labels then Critical
    else if HasUrgent(labels) then Warning
    else if HasKnownCondition(labels) then Caution
    else Normal
  }

  /** Each level in terms of the labels alone. */
  lemma PriorityLevelCases(labels: seq<string>)
    ensures PriorityLevel(labels) == Critical <==> "Critical" in labels
    ensures PriorityLevel(labels) == Warning <==> "Critical" !in labels && HasUrgent(labels)
    ensures PriorityLevel(labels) == Caution <==>
              "Critical" !in labels && !HasUrgent(labels) && HasKnownCondition(labels)
    ensures PriorityLevel(labels) == Normal <==>
              "Critical" !in labels && !HasUrgent(labels) && !HasKnownCondition(labels)
  {
    if SelectTopLabel(labels) == Some("Critical") {
      assert "Critical" in labels;
    }
  }

  /** More labels never lower the level. */
  lemma PriorityLevelMonotone(labels: seq<string>, more: seq<string>)
    ensures PriorityLevel(labels).Rank() <= PriorityLevel(labels + more).Rank()
  {
    PriorityLevelCases(labels);
    PriorityLevelCases(labels + more);
    var all := labels + more;
    assert forall i :: 0 <= i < |labels| ==> all[i] == labels[i];
    if "Critical" in labels {
      var i :| 0 <= i < |labels| && labels[i] == "Critical";
      assert all[i] == "Critical";
    }
    if HasUrgent(labels) {
      var i :| 0 <= i < |labels| && labels[i] in UrgentLabels;
      assert all[i] in UrgentLabels;
    }
    if HasKnownCondition(labels) {
      var i :| 0 <= i < |labels| && labels[i] in ConditionDescriptions;
      assert all[i] in ConditionDescriptions;
    }
  }

  // ---------------------------------------------------------------------
  // The summary
  // ---------------------------------------------------------------------

  /** The conditions other than the main label. */
  function OtherThan(labels: seq<string>, main: Option<string>): (r: seq<string>)
    ensures forall i :: 0 <= i < |r| ==> r[i] in labels && Some(r[i]) != main
    ensures forall i :: 0 <= i < |labels| && Some(labels[i]) != main ==> labels[i] in r
  {
    if labels == [] then []
    else
      var rest := OtherThan(labels[1..], main);
      if Some(labels[0]) != main then [labels[0]] + rest else rest
  }

  /** A status other than "Normal" and "Healthy". */
  function NonNormal(status: seq<string>): seq<string> {
    if status == [] then []
    else
      var rest := NonNormal(status[1..]);
      if status[0] != "Normal" && status[0] != "Healthy" then [status[0]] + rest else rest
  }

  function CondMessages(conds: seq<string>, intensity: map<string, string>): seq<string> {
    seq(|conds|, i requires 0 <= i < |conds| => CondMessage(conds[i], IntensityOf(intensity, conds[i])))
  }

  function EnvironmentTexts(env: seq<string>): seq<string> {
    seq(|env|, i requires 0 <= i < |env| =>
      if env[i] in EnvironmentDescriptions then EnvironmentDescriptions[env[i]] else env[i])
  }

  /** The main label is a condition (and so opens the summary). */
  predicate MainIsCondition(main: Option<string>) {
    main.Some? && main.value != "" && main.value in ConditionDescriptions
  }

  /** The sentences of the summary, in order: the main condition, the other
      conditions, the activity, the environment, the non-normal statuses. */
  function SummaryParts(labels: seq<string>, intensity: map<string, string>): seq<string> {
    var activity := Filter(labels, Activity);
    var conditions := Filter(labels, Condition);
    var environment := Filter(labels, Environment);
    var status := Filter(labels, Status);
    var main := SelectTopLabel(labels);
    var mainPart :=
      if MainIsCondition(main) then [CondMessage(main.value, IntensityOf(intensity, main.value))] else [];
    var others := OtherThan(conditions, main);
    var brief := FormatList(CondMessages(others, intensity), "and");
    var briefPart := if others != [] && brief != "" then [brief] else [];
    var activityPart :=
      if activity == [] then []
      else if activity[0] in ActivityDescriptions then [ActivityDescriptions[activity[0]]]
      else ["You appear to be " + Text.Lower(FormatList(activity, "and"))];
    var envText := FormatList(EnvironmentTexts(environment), "and");
    var envPart := if environment != [] && envText != "" then [envText] else [];
    var nonNormal := NonNormal(status);
    var statusPart :=
      if status != [] && nonNormal != []
      then [Text.Lower(FormatList(nonNormal, "and")) + " health indicators present"] else [];
    mainPart + briefPart + activityPart + envPart + statusPart
  }

  function CapitalizeAll(parts: seq<string>): (r: seq<string>)
    ensures |r| == |parts|
  {
    seq(|parts|, i requires 0 <= i < |parts| => Text.Capitalize(parts[i]))
  }

  /** The opening summary of a list of sentences: the intro, then the
      capitalised sentences joined by spaces, or "everything looks normal."
      when there are none. */
  function Opening(parts: seq<string>, intro: string): string {
    if parts != [] then intro + " " + Text.Join(CapitalizeAll(parts), " ")
    else intro + " everything looks normal."
  }

  function Summary(labels: seq<string>, intensity: map<string, string>, intro: string): string {
    Opening(SummaryParts(labels, intensity), intro)
  }

  lemma OpeningStartsWithIntro(parts: seq<string>, intro: string)
    ensures Text.StartsWith(Opening(parts, intro), intro + " ")
  {
    if parts != [] {
      assert Opening(parts, intro) == (intro + " ") + Text.Join(CapitalizeAll(parts), " ");
    } else {
      assert Opening(parts, intro) == (intro + " ") + "everything looks normal.";
    }
  }

  lemma OpeningLeadsWithFirst(parts: seq<string>, intro: string)
    requires parts != []
    ensures Text.StartsWith(Opening(parts, intro), intro + " " + Text.Capitalize(parts[0]))
  {
    var caps := CapitalizeAll(parts);
    JoinStartsWithFirst(caps, " ");
    var j := Text.Join(caps, " ");
    assert (intro + " " + j)[..|intro + " "| + |caps[0]|] == intro + " " + j[..|caps[0]|];
  }

  /** The summary always opens with the intro and a space. */
  lemma SummaryStartsWithIntro(labels: seq<string>, intensity: map<string, string>, intro: string)
    ensures Text.StartsWith(Summary(labels, intensity, intro), intro + " ")
  {
    OpeningStartsWithIntro(SummaryParts(labels, intensity), intro);
  }

  /** Labels that are all "Normal" or "Healthy" (or none at all) read as
      everything looking normal. */
  lemma SummaryOfNormalLabels(labels: seq<string>, intensity: map<string, string>, intro: string)
    requires forall i :: 0 <= i < |labels| ==> labels[i] == "Normal" || labels[i] == "Healthy"
    ensures Summary(labels, intensity, intro) == intro + " everything looks normal."
  {
    NormalLabelsAreStatuses(labels);
    NormalTopIsNoCondition(labels);
    NonNormalOfNormal(labels);
    NoSummaryParts(labels, intensity);
  }

  /** The top label of labels that are all "Normal" or "Healthy" is no condition. */
  lemma NormalTopIsNoCondition(labels: seq<string>)
    requires forall i :: 0 <= i < |labels| ==> labels[i] == "Normal" || labels[i] == "Healthy"
    ensures !MainIsCondition(SelectTopLabel(labels))
  {
    var main := SelectTopLabel(labels);
    if main.Some? {
      assert main.value == "Normal" || main.value == "Healthy";
      NormalLabelsOnlyStatuses();
    }
  }

  /** Without a main condition, activities, environment labels or non-normal
      statuses there is no summary sentence. */
  lemma NoSummaryParts(labels: seq<string>, intensity: map<string, string>)
    requires Filter(labels, Activity) == [] && Filter(labels, Condition) == []
    requires Filter(labels, Environment) == [] && NonNormal(Filter(labels, Status)) == []
    requires !MainIsCondition(SelectTopLabel(labels))
    ensures SummaryParts(labels, intensity) == []
  {
    assert OtherThan([], SelectTopLabel(labels)) == [];
  }

  lemma {:induction false} NormalLabelsAreStatuses(labels: seq<string>)
    requires forall i :: 0 <= i < |labels| ==> labels[i] == "Normal" || labels[i] == "Healthy"
    ensures Filter(labels, Activity) == [] && Filter(labels, Condition) == []
    ensures Filter(labels, Environment) == [] && Filter(labels, Status) == labels
  {
    if labels != [] {
      var init, last := labels[..|labels| - 1], labels[|labels| - 1];
      NormalLabelsAreStatuses(init);
      NormalIsStatus(last);
      assert labels == init + [last];
    }
  }

  lemma NormalIsStatus(lab: string)
    requires lab == "Normal" || lab == "Healthy"
    ensures CategoryOf(lab) == Status
  {
    NormalLabelsOnlyStatuses();
  }

  lemma {:induction false} NonNormalOfNormal(status: seq<string>)
    requires forall i :: 0 <= i < |status| ==> status[i] == "Normal" || status[i] == "Healthy"
    ensures NonNormal(status) == []
  {
    if status != [] {
      NonNormalOfNormal(status[1..]);
    }
  }

  /** When the main label is a condition, its intensity phrase opens the summary. */
  lemma SummaryLeadsWithMainCondition(labels: seq<string>, intensity: map<string, string>, intro: string)
    requires MainIsCondition(SelectTopLabel(labels))
    ensures var main := SelectTopLabel(labels).value;
            Text.StartsWith(Summary(labels, intensity, intro),
                            intro + " " + Text.Capitalize(CondMessage(main, IntensityOf(intensity, main))))
  {
    MainConditionLeads(labels, intensity);
    OpeningLeadsWithFirst(SummaryParts(labels, intensity), intro);
  }

  /** A main condition is the first sentence of the summary. */
  lemma MainConditionLeads(labels: seq<string>, intensity: map<string, string>)
    requires MainIsCondition(SelectTopLabel(labels))
    ensures var main := SelectTopLabel(labels).value;
            && SummaryParts(labels, intensity) != []
            && SummaryParts(labels, intensity)[0] == CondMessage(main, IntensityOf(intensity, main))
  {
  }

  // ---------------------------------------------------------------------
  // The action list
  // ---------------------------------------------------------------------

  // The functions below take the action table as `actions`; the engine passes
  // `Actions`, and the generic form keeps the long texts out of the proofs.

  /** The main label's action, when it has one. */
  function MainAction(actions: map<string, string>, main: Option<string>): (r: seq<string>)
    ensures |r| <= 1
    ensures r != [] ==> r[0] in actions.Values
  {
    if main.Some? && main.value != "" && main.value in actions then [actions[main.value]] else []
  }

  /** The action of one label, when it has a non-empty one. */
  function ActionOf(actions: map<string, string>, lab: string): (r: seq<string>)
    ensures |r| <= 1
    ensures r != [] ==> r[0] in actions.Values
  {
    if lab in actions && actions[lab] != "" then [actions[lab]] else []
  }

  /** The actions of the labels that have one (and a non-empty one), in order. */
  function ActionsFor(actions: map<string, string>, labels: seq<string>): seq<string> {
    if labels == [] then []
    else ActionsFor(actions, labels[..|labels| - 1]) + ActionOf(actions, labels[|labels| - 1])
  }

  /** One more label adds its own action at the end. */
  lemma ActionsForStep(actions: map<string, string>, main: Option<string>, labels: seq<string>, i: nat)
    requires i < |labels|
    ensures MainAction(actions, main) + ActionsFor(actions, labels[..i + 1])
            == MainAction(actions, main) + ActionsFor(actions, labels[..i]) + ActionOf(actions, labels[i])
  {
    assert labels[..i + 1][..i] == labels[..i];
  }

  /** The recommended actions: the main label's first, then the others'
      without repeats; the generic advice when there are none. */
  function ActionList(actions: map<string, string>, main: Option<string>, labels: seq<string>): seq<string> {
    var d := Lists.Dedupe(MainAction(actions, main) + ActionsFor(actions, labels));
    if d == [] then [FallbackAction] else d
  }

  /** The list is never empty and has no repeats; the main label's action comes
      first; every label with a non-empty action has it on the list; the
      generic advice appears exactly when neither the main label nor any label
      has one; everything else on it is some label's action. */
  lemma ActionListProperties(actions: map<string, string>, main: Option<string>, labels: seq<string>)
    requires FallbackAction !in actions.Values
    ensures var acts := ActionList(actions, main, labels);
            && |acts| > 0
            && Lists.NoDup(acts)
            && (MainAction(actions, main) != [] ==> acts[0] == MainAction(actions, main)[0])
            && (forall l :: l in labels && l in actions && actions[l] != "" ==> actions[l] in acts)
            && (acts == [FallbackAction] <==> MainAction(actions, main) + ActionsFor(actions, labels) == [])
            && (acts == [FallbackAction] <==>
                  MainAction(actions, main) == [] && forall l :: l in labels ==> !HasAction(actions, l))
            && (MainAction(actions, main) + ActionsFor(actions, labels) != [] ==>
                  forall i :: 0 <= i < |acts| ==> acts[i] in actions.Values)
  {
    var all := MainAction(actions, main) + ActionsFor(actions, labels);
    var d := Lists.Dedupe(all);
    ActionListCovers(actions, main, labels);
    if all != [] {
      Lists.DedupeKeepsHead(all);
      ActionsForAreActions(actions, labels);
      forall i | 0 <= i < |d| ensures d[i] in actions.Values {
        assert d[i] in all;
      }
      assert d[0] in actions.Values;
    }
  }

  /** Every label's non-empty action is on the list, and the list is the
      generic advice alone exactly when no label, the main one included, has one. */
  lemma ActionListCovers(actions: map<string, string>, main: Option<string>, labels: seq<string>)
    ensures var acts := ActionList(actions, main, labels);
            && (forall l :: l in labels && HasAction(actions, l) ==> actions[l] in acts)
            && (MainAction(actions, main) + ActionsFor(actions, labels) == [] <==>
                  MainAction(actions, main) == [] && forall l :: l in labels ==> !HasAction(actions, l))
  {
    var all := MainAction(actions, main) + ActionsFor(actions, labels);
    ActionsForCovers(actions, labels);
    forall l | l in labels && HasAction(actions, l) ensures actions[l] in ActionList(actions, main, labels) {
      assert actions[l] in all;
      Lists.DedupeMembers(all, actions[l]);
    }
  }

  /** The label has a non-empty action. */
  predicate HasAction(actions: map<string, string>, lab: string) {
    lab in actions && actions[lab] != ""
  }

  /** The actions collected for some labels include each label's own action,
      and there are none exactly when no label has one. */
  lemma {:induction false} ActionsForCovers(actions: map<string, string>, labels: seq<string>)
    ensures forall l :: l in labels && HasAction(actions, l) ==> actions[l] in ActionsFor(actions, labels)
    ensures ActionsFor(actions, labels) == [] <==> forall l :: l in labels ==> !HasAction(actions, l)
  {
    if labels != [] {
      var init, last := labels[..|labels| - 1], labels[|labels| - 1];
      ActionsForCovers(actions, init);
      assert labels == init + [last];
      assert ActionsFor(actions, labels) == ActionsFor(actions, init) + ActionOf(actions, last);
      forall l | l in labels && HasAction(actions, l) ensures actions[l] in ActionsFor(actions, labels) {
        if l == last {
          assert ActionOf(actions, last) == [actions[l]];
        } else {
          assert l in init;
        }
      }
    }
  }

  lemma {:induction false} ActionsForAreActions(actions: map<string, string>, labels: seq<string>)
    ensures forall i :: 0 <= i < |ActionsFor(actions, labels)| ==> ActionsFor(actions, labels)[i] in actions.Values
  {
    if labels != [] {
      ActionsForAreActions(actions, labels[..|labels| - 1]);
    }
  }

  /** The loop of `interpret` that collects actions, checking membership before
      each append. */
  method BuildActions(actions: map<string, string>, main: Option<string>, labels: seq<string>)
    returns (acts: seq<string>)
    ensures acts == ActionList(actions, main, labels)
  {
    acts := [];
    if main.Some? && main.value != "" && main.value in actions {
      acts := acts + [actions[main.value]];
    }
    assert acts == Lists.Dedupe(MainAction(actions, main) + ActionsFor(actions, labels[..0]));
    for i := 0 to |labels|
      invariant acts == Lists.Dedupe(MainAction(actions, main) + ActionsFor(actions, labels[..i]))
    {
      var lab := labels[i];
      ghost var before := MainAction(actions, main) + ActionsFor(actions, labels[..i]);
      ActionsForStep(actions, main, labels, i);
      if lab in actions && actions[lab] != "" {
        var action := actions[lab];
        assert ActionOf(actions, lab) == [action];
        Lists.DedupeSnoc(before, action);
        Lists.DedupeMembers(before, action);
        if action !in acts {
          acts := acts + [action];
        }
      } else {
        assert ActionOf(actions, lab) == [];
        assert before + [] == before;
      }
    }
    assert labels[..|labels|] == labels;
    if acts == [] {
      acts := [FallbackAction];
    }
  }

  // ---------------------------------------------------------------------
  // Rendering
  // ---------------------------------------------------------------------

  /** The readings the detailed message shows, each already formatted by the
      caller (a key is present exactly when its value formats as a number). */
  function SensorLines(readings: map<string, string>): seq<string> {
    (if "body_temp" in readings then ["Body temp: " + readings["body_temp"] + "°C"] else [])
    + (if "heart_rate_bpm" in readings then ["Heart rate: " + readings["heart_rate_bpm"] + " BPM"] else [])
    + (if "spo2_pct" in readings then ["SpO₂: " + readings["spo2_pct"] + "%"] else [])
    + (if "ambient_temp" in readings && "humidity_pct" in readings
       then ["Ambient: " + readings["ambient_temp"] + "°C, " + readings["humidity_pct"] + "%"] else [])
  }

  function SensorBlock(readings: map<string, string>): string {
    var lines := SensorLines(readings);
    if lines == [] then "" else Text.Join(lines, "\n") + "\n\n"
  }

  /** What `interpret` returns. */
  datatype Recommendation = Recommendation(
    summary: string,
    recommendation: string,
    priority: Level,
    fullMessage: string)

  /** The actions `interpret` recommends for these labels: the main label's,
      then those of the other conditions, the activities and the environment. */
  function RecommendedActions(labels: seq<string>): (acts: seq<string>)
    ensures |acts| > 0
  {
    var main := SelectTopLabel(labels);
    ActionList(Actions, main, Collected(labels, main))
  }

  /** The closing line of the detailed message. */
  function NextStep(acts: seq<string>): string
    requires |acts| > 0
  {
    "Suggested next step: " + acts[0]
  }

  /** The detailed message: summary, the explanation paragraph, the sensor
      block and the next step. */
  function DetailedMessage(summary: string, acts: seq<string>, readings: map<string, string>): string
    requires |acts| > 0
  {
    summary + ("\n\nWhat this means:\n" + Text.Join(acts, " ") + "\n\n" + SensorBlock(readings))
    + NextStep(acts)
  }

  /** The whole interpretation as one function of its inputs. */
  function Compose(labels: seq<string>, readings: map<string, string>, intensity: map<string, string>,
                   mode: string, intro: string): Recommendation
  {
    var acts := RecommendedActions(labels);
    var summary := Summary(labels, intensity, intro);
    if mode == "short" then
      Recommendation(summary, acts[0], PriorityLevel(labels), summary + " " + acts[0])
    else
      Recommendation(summary, Text.Join(acts, " "), PriorityLevel(labels), DetailedMessage(summary, acts, readings))
  }

  /** The level is critical exactly when "Critical" is among the labels and
      warning exactly when, without it, an urgent label is. */
  lemma ComposeReports(labels: seq<string>, readings: map<string, string>, intensity: map<string, string>,
                       mode: string, intro: string)
    ensures var r := Compose(labels, readings, intensity, mode, intro);
            && (r.priority == Critical <==> "Critical" in labels)
            && (r.priority == Warning <==> "Critical" !in labels && HasUrgent(labels))
  {
    PriorityLevelCases(labels);
  }

  /** In `short` mode the recommendation is the main label's action when it has
      one, and the generic advice exactly when no label has an action; the full
      message is the summary followed by it. */
  lemma ComposeShort(labels: seq<string>, readings: map<string, string>, intensity: map<string, string>,
                     intro: string)
    ensures var r := Compose(labels, readings, intensity, "short", intro);
            var main := SelectTopLabel(labels);
            && (main.Some? && main.value in Actions ==> r.recommendation == Actions[main.value])
            && (r.recommendation == FallbackAction <==> forall l :: l in labels ==> l !in Actions)
            && r.fullMessage == r.summary + " " + r.recommendation
  {
    ActionTextsNonEmpty();
    CriticalIsOnlyStatusAction();
    FallbackIsNoLabelAction();
    FirstRecommendedAction(Actions, labels);
  }

  /** The labels whose actions follow the main label's: the other conditions,
      the activities and the environment labels. */
  function Collected(labels: seq<string>, main: Option<string>): seq<string> {
    OtherThan(Filter(labels, Condition), main) + Filter(labels, Activity) + Filter(labels, Environment)
  }

  /** The first action collected for the labels: the main label's when it has
      one; the generic advice exactly when no label has an action. */
  lemma FirstRecommendedAction(actions: map<string, string>, labels: seq<string>)
    requires FallbackAction !in actions.Values
    requires forall k :: k in actions ==> k != "" && actions[k] != ""
    requires forall k :: k in actions && k in StatusDescriptions ==> k == "Critical"
    ensures var main := SelectTopLabel(labels);
            var acts := ActionList(actions, main, Collected(labels, main));
            && (main.Some? && main.value in actions ==> acts[0] == actions[main.value])
            && (acts[0] == FallbackAction <==> forall l :: l in labels ==> l !in actions)
  {
    var main := SelectTopLabel(labels);
    var collected := Collected(labels, main);
    var acts := ActionList(actions, main, collected);
    ActionListProperties(actions, main, collected);
    if acts != [FallbackAction] {
      assert acts[0] in actions.Values;
    }
    CollectedAreLabels(labels, main);
    ActionLabelsAreCollected(actions, labels);
  }

  /** Only input labels are collected. */
  lemma CollectedAreLabels(labels: seq<string>, main: Option<string>)
    ensures forall l :: l in Collected(labels, main) ==> l in labels
  {
    var others := OtherThan(Filter(labels, Condition), main);
    forall l | l in Collected(labels, main) ensures l in labels {
      if l in others {
        var i :| 0 <= i < |others| && others[i] == l;
        FilterMembership(labels, Condition, l);
      } else if l in Filter(labels, Activity) {
        FilterMembership(labels, Activity, l);
      } else {
        FilterMembership(labels, Environment, l);
      }
    }
  }

  /** Every label with an action is collected, unless it is the main label
      itself: the only status with an action, "Critical", is always the main
      label. */
  lemma ActionLabelsAreCollected(actions: map<string, string>, labels: seq<string>)
    requires forall k :: k in actions && k in StatusDescriptions ==> k == "Critical"
    ensures var main := SelectTopLabel(labels);
            forall l :: l in labels && l in actions && Some(l) != main ==> l in Collected(labels, main)
  {
    var main := SelectTopLabel(labels);
    var conds := Filter(labels, Condition);
    forall l | l in labels && l in actions && Some(l) != main ensures l in Collected(labels, main) {
      var c := CategoryOf(l);
      FilterMembership(labels, c, l);
      if c == Condition {
        var j :| 0 <= j < |conds| && conds[j] == l;
      } else if c == Status {
        assert l in StatusDescriptions;
        CriticalIsMainLabel(labels);
        assert false;
      }
    }
  }

  /** Low oxygen with heat and walking: a warning whose short recommendation is
      the low-oxygen action. */
  lemma LowOxygenExample(readings: map<string, string>, intensity: map<string, string>, intro: string)
    ensures var r := Compose(["Low oxygen state", "Hot environment", "Walking"], readings, intensity, "short", intro);
            r.priority == Warning && r.recommendation == Actions["Low oxygen state"]
  {
    var labels := ["Low oxygen state", "Hot environment", "Walking"];
    LowOxygenLeads();
    ComposeReports(labels, readings, intensity, "short", intro);
    ComposeShort(labels, readings, intensity, intro);
  }

  lemma LowOxygenLeads()
    ensures var labels := ["Low oxygen state", "Hot environment", "Walking"];
            && SelectTopLabel(labels) == Some("Low oxygen state")
            && "Critical" !in labels && HasUrgent(labels)
  {
    var labels := ["Low oxygen state", "Hot environment", "Walking"];
    var top := SelectTopLabel(labels).value;
    assert Priority(top) >= Priority(labels[0]);
    assert labels[0] in UrgentLabels;
  }

  /** In any other mode: every action as one paragraph, a message that opens
      with the summary and ends with the first action as the next step. */
  lemma ComposeDetailed(labels: seq<string>, readings: map<string, string>, intensity: map<string, string>,
                        mode: string, intro: string)
    requires mode != "short"
    ensures var r := Compose(labels, readings, intensity, mode, intro);
            var acts := RecommendedActions(labels);
            && r.recommendation == Text.Join(acts, " ")
            && Text.StartsWith(r.fullMessage, r.summary)
            && Text.EndsWith(r.fullMessage, "Suggested next step: " + acts[0])
  {
    DetailedMessageFrames(Summary(labels, intensity, intro), RecommendedActions(labels), readings);
  }

  /** The detailed message opens with the summary and closes with the next step. */
  lemma DetailedMessageFrames(summary: string, acts: seq<string>, readings: map<string, string>)
    requires |acts| > 0
    ensures Text.StartsWith(DetailedMessage(summary, acts, readings), summary)
    ensures Text.EndsWith(DetailedMessage(summary, acts, readings), NextStep(acts))
  {
    var middle := "\n\nWhat this means:\n" + Text.Join(acts, " ") + "\n\n" + SensorBlock(readings);
    var tail := NextStep(acts);
    assert DetailedMessage(summary, acts, readings) == summary + middle + tail;
    assert (summary + middle + tail)[..|summary|] == summary;
    assert (summary + middle + tail)[|summary + middle + tail| - |tail|..] == tail;
  }

  /** `interpret`: classifies, picks the main label and the level, builds the
      summary and the actions, and renders them for `mode`. */
  method Interpret(labels: seq<string>, readings: map<string, string>, intensity: map<string, string>,
                   mode: string, intro: string) returns (r: Recommendation)
    requires intro in IntroPhrases
    ensures r == Compose(labels, readings, intensity, mode, intro)
  {
    var activity, conditions, environment, status := ClassifyLabels(labels);
    var main := SelectTopLabel(labels);
    var level := PriorityLevel(labels);
    var summary := Summary(labels, intensity, intro);
    var others := OtherThan(conditions, main);
    var acts := BuildActions(Actions, main, others + activity + environment);
    if mode == "short" {
      r := Recommendation(summary, acts[0], level, summary + " " + acts[0]);
    } else {
      var para := Text.Join(acts, " ");
      r := Recommendation(summary, para, level,
                          summary + ("\n\nWhat this means:\n" + para + "\n\n" + SensorBlock(readings))
                          + ("Suggested next step: " + acts[0]));
    }
  }
}
