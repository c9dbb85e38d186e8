/** The text resources of the recommendation engine: descriptions per label
    class, intensity phrasing for conditions, actions, priorities and the
    introductory phrases. */
module RecommendationTables {

  const ActivityDescriptions: map<string, string> := map[
    "Resting" := "Your body is calm and you're not doing any physical activity.",
    "Light activity" := "You're moving lightly, maybe walking around or doing something small.",
    "Moderate activity" := "You're fairly active, like walking fast or doing light exercise.",
    "High activity" := "Your body is working hard, similar to jogging or physical work.",
    "Sleeping" := "You're currently in a relaxed sleep state.",
    "Walking" := "You're moving at a steady walking pace.",
    "Running" := "You're engaged in a high-effort activity like running.",
    "Sedentary" := "You've been sitting or staying in one position for a while."
  ]

  const StatusDescriptions: map<string, string> := map[
    "Normal" := "Everything looks okay with your readings.",
    "Healthy" := "Your readings fall within a good and stable range.",
    "Slight abnormality" := "Something looks a bit off, but not serious.",
    "Warning" := "Some readings are outside the normal range and need attention.",
    "Critical" := "Your readings suggest a serious condition that needs immediate care."
  ]

  const EnvironmentDescriptions: map<string, string> := map[
    "Hot environment" := "The temperature around you is higher than normal.",
    "Cold environment" := "The surrounding temperature is quite low.",
    "Humid environment" := "The humidity level is high where you are.",
    "Low-pressure environment" := "The air pressure around you is lower than normal."
  ]

  const ConditionDescriptions: map<string, string> := map[
    "Stressed" := "Your body is showing signs of stress.",
    "Fatigued" := "You're showing signs of tiredness.",
    "Dehydrated" := "Your hydration level may be low.",
    "Possible fever" := "Your temperature is higher than normal.",
    "Low oxygen state" := "Your oxygen level is lower than it should be.",
    "Overexertion" := "Your body is working harder than normal.",
    "Early illness indication" := "Some patterns suggest you might be coming down with something."
  ]

  const IntensityMessages: map<string, map<string, string>> := map[
    "Stressed" := map[
      "mild" := "Your stress level is slightly raised.",
      "moderate" := "You're showing noticeable signs of stress.",
      "high" := "Your stress level is high and it's worth taking immediate steps to relax."],
    "Fatigued" := map[
      "mild" := "You seem a bit tired.",
      "moderate" := "You're getting noticeably fatigued; consider resting soon.",
      "high" := "You're very fatigued and need proper rest."],
    "Dehydrated" := map[
      "mild" := "You might need to drink a little more water.",
      "moderate" := "You're getting dehydrated and should drink water soon.",
      "high" := "You're likely very dehydrated — rehydrate as soon as possible."],
    "Possible fever" := map[
      "mild" := "Your temperature is slightly above normal.",
      "moderate" := "Your temperature is fairly high.",
      "high" := "Your temperature is very high and may need urgent attention."],
    "Low oxygen state" := map[
      "mild" := "Your oxygen level is a bit below normal.",
      "moderate" := "Your oxygen level is low and needs attention.",
      "high" := "Your oxygen level is dangerously low — seek help immediately."],
    "Overexertion" := map[
      "mild" := "You're pushing yourself a little.",
      "moderate" := "You're working your body harder than usual.",
      "high" := "You're overexerting and should stop to rest right away."],
    "Early illness indication" := map[
      "mild" := "There are a few small signs that something may be starting.",
      "moderate" := "There are several signs that could mean you're getting unwell.",
      "high" := "Strong signs suggest you may be getting ill — monitor closely or consult a clinician."]
  ]

  const Actions: map<string, string> := map[
    "Critical" := "Please get medical help immediately. It's not safe to ignore this.",
    "Low oxygen state" := "Move to a place with better airflow. If it does not improve, seek medical support.",
    "Possible fever" := "Try to rest and drink water. Check your temperature again later. If it stays high, consult a doctor.",
    "Dehydrated" := "Drink water and rest in a cool spot for a while.",
    "Overexertion" := "Stop and rest. Allow your body to recover before continuing.",
    "Stressed" := "Pause for a moment, take slow breaths, and try to relax.",
    "Fatigued" := "Consider resting or taking a short nap if possible.",
    "Hot environment" := "Move somewhere cooler and hydrate if you can.",
    "Cold environment" := "Try to warm up or move to a warmer place.",
    "Humid environment" := "Ensure good ventilation and drink water.",
    "Low-pressure environment" := "If you feel dizzy, sit down and allow your body to adjust.",
    "Running" := "Slow down if needed and make sure you drink enough water.",
    "Walking" := "Keep a steady pace and stay hydrated if outdoors.",
    "Sedentary" := "Stand up, stretch, or go for a short walk.",
    "Resting" := "No action needed right now.",
    "Light activity" := "You can continue what you're doing.",
    "Moderate activity" := "You're doing okay; slow down if you feel tired.",
    "High activity" := "Be careful and hydrate; slow down if you feel strained."
  ]

  /** The action offered when no label has one. */
  const FallbackAction: string :=
    "Keep monitoring your readings and stay hydrated. Take rest if you feel unwell."

  /** Higher means more urgent; labels not listed count as 0. */
  const LabelPriority: map<string, int> := map[
    "Critical" := 100,
    "Low oxygen state" := 90,
    "Possible fever" := 85,
    "Overexertion" := 80,
    "Dehydrated" := 75,
    "Fatigued" := 70,
    "Stressed" := 65,
    "Running" := 40,
    "High activity" := 38,
    "Moderate activity" := 35,
    "Walking" := 30,
    "Light activity" := 25,
    "Resting" := 20,
    "Sedentary" := 15,
    "Sleeping" := 10,
    "Hot environment" := 12,
    "Cold environment" := 11,
    "Humid environment" := 10,
    "Low-pressure environment" := 9
  ]

  const IntroPhrases: seq<string> := [
    "From your readings,",
    "Based on the sensors,",
    "From what the data shows,"
  ]

  /** The three intensities that select their own phrasing. */
  const IntensityLevels: seq<string> := ["mild", "moderate", "high"]

  /** Every condition has a non-empty phrasing for each of the three intensities,
      and only conditions have one. */
  lemma IntensityTableComplete()
    ensures IntensityMessages.Keys == ConditionDescriptions.Keys
    ensures forall l, lv :: l in IntensityMessages && lv in IntensityLevels ==>
              lv in IntensityMessages[l] && IntensityMessages[l][lv] != ""
  {
    IntensityKeysAreConditions();
    IntensityPhrasingsNonEmpty();
  }

  /** Exactly the conditions have intensity phrasings. */
  lemma IntensityKeysAreConditions()
    ensures IntensityMessages.Keys == ConditionDescriptions.Keys
  {
  }

  /** Each phrasing table covers the three intensities with non-empty texts. */
  lemma IntensityPhrasingsNonEmpty()
    ensures forall l, lv :: l in IntensityMessages && lv in IntensityLevels ==>
              lv in IntensityMessages[l] && IntensityMessages[l][lv] != ""
  {
  }

  /** "Critical" is the only label with priority 100 or more. */
  lemma CriticalOutranksAll()
    ensures LabelPriority["Critical"] == 100
    ensures forall l :: l in LabelPriority && l != "Critical" ==> LabelPriority[l] < 100
  {
  }

  /** The generic advice is not the action of any label. */
  lemma FallbackIsNoLabelAction()
    ensures FallbackAction !in Actions.Values
  {
  }

  /** Every action is a non-empty text for a non-empty label. */
  lemma ActionTextsNonEmpty()
    ensures forall k :: k in Actions ==> k != "" && Actions[k] != ""
  {
  }

  /** The only status with an action is "Critical". */
  lemma CriticalIsOnlyStatusAction()
    ensures forall k :: k in Actions && k in StatusDescriptions ==> k == "Critical"
  {
  }

  /** "Normal" and "Healthy" are statuses and nothing else. */
  lemma NormalLabelsOnlyStatuses()
    ensures "Normal" !in ActivityDescriptions && "Normal" !in ConditionDescriptions
    ensures "Normal" !in EnvironmentDescriptions && "Normal" in StatusDescriptions
    ensures "Healthy" !in ActivityDescriptions && "Healthy" !in ConditionDescriptions
    ensures "Healthy" !in EnvironmentDescriptions && "Healthy" in StatusDescriptions
  {
  }
}
