/** The fixed schemas shared by the monitor and the sensor manager: the 12 feature
    names in the order the model was trained with, and the 24 label names in the
    order of the model's outputs. */
module Taxonomy {

  /** `feature_names` of the monitor, identical to the sensor manager's `feature_cols`. */
  const FeatureNames: seq<string> := [
    "body_temp", "ambient_temp", "pressure_hpa", "humidity_pct",
    "accel_x", "accel_y", "accel_z",
    "gyro_x", "gyro_y", "gyro_z",
    "heart_rate_bpm", "spo2_pct"
  ]

  /** `label_names`: position i names output i of the model. */
  const LabelNames: seq<string> := [
    "Resting", "Light activity", "Moderate activity", "High activity",
    "Sleeping", "Walking", "Running", "Sedentary",
    "Normal", "Stressed", "Fatigued", "Dehydrated",
    "Possible fever", "Low oxygen state", "Overexertion", "Early illness indication",
    "Hot environment", "Cold environment", "Humid environment", "Low-pressure environment",
    "Healthy", "Slight abnormality", "Warning", "Critical"
  ]

  predicate IsFeature(name: string) {
    name in FeatureNames
  }
}
