/**
 * The classifier bundle built from the training table: a temperature scaler
 * and a salinity scaler, each fitted on its own raw column, and a logistic
 * regression fitted on (scaled temperature, scaled salinity, day) against
 * the class label. Fitting and transforming are statistics done by an
 * external library, so they enter the model as given functions; what is
 * modelled is which data each is fitted on and how the feature rows are
 * laid out.
 */
module Classifier {
  import opened Base
  import opened Snapshots

  /** One row of the training table (`datetime`, `temp`, `salt`, `class`). */
  datatype Sample = Sample(datetime: DateTime, temp: real, salt: real, classLabel: int)

  /** The feature vector in the classifier's column order: scaled temp, scaled salt, `DoY`. */
  datatype Features = Features(scaledTemp: real, scaledSalt: real, day: int)

  /** One row of `predict_proba`: the probabilities of the first and the second class. */
  datatype Prob = Prob(first: real, second: real)

  /** The dictionary `{lr_model, scaler_temp, scaler_salt}`. */
  datatype Bundle = Bundle(predictProba: Features -> Prob, scaleTemp: real -> real, scaleSalt: real -> real)

  /**
   * The "day of year" feature, which is in fact the day of the month of the
   * timestamp. Training and scoring both use this one definition.
   */
  function DayFeature(t: DateTime): (d: int)
    ensures 1 <= d <= 31
  {
    t.day
  }

  /** The feature vector of a raw temperature, a raw salinity and a timestamp. */
  function FeatureRow(scaleTemp: real -> real, scaleSalt: real -> real, temp: real, salt: real, t: DateTime): Features {
    Features(scaleTemp(temp), scaleSalt(salt), DayFeature(t))
  }

  function Temps(data: seq<Sample>): seq<real> {
    Map((s: Sample) => s.temp, data)
  }

  function Salts(data: seq<Sample>): seq<real> {
    Map((s: Sample) => s.salt, data)
  }

  function Labels(data: seq<Sample>): seq<int> {
    Map((s: Sample) => s.classLabel, data)
  }

  /** The scaled training table `train_data[['temp', 'salt', 'DoY']]`, one row per sample. */
  function TrainingDesign(data: seq<Sample>, scaleTemp: real -> real, scaleSalt: real -> real): seq<Features> {
    Map((s: Sample) => FeatureRow(scaleTemp, scaleSalt, s.temp, s.salt, s.datetime), data)
  }

  /**
   * `current_model`: fit a scaler on the temperature column and one on the
   * salinity column, then fit the classifier on the scaled design and the labels.
   */
  function CurrentModel(data: seq<Sample>, fitScaler: seq<real> -> (real -> real),
                        fitClassifier: (seq<Features>, seq<int>) -> (Features -> Prob)): Bundle
  {
    var scaleTemp := fitScaler(Temps(data));
    var scaleSalt := fitScaler(Salts(data));
    Bundle(fitClassifier(TrainingDesign(data, scaleTemp, scaleSalt), Labels(data)), scaleTemp, scaleSalt)
  }

  /**
   * The bundle is fitted as `current_model` fits it: each scaler on its own
   * raw column of the training table, and the classifier on the design built
   * with those same two scalers, row `k` being sample `k`'s scaled
   * temperature, scaled salinity and day, against the labels in table order.
   */
  lemma CurrentModelFits(data: seq<Sample>, fitScaler: seq<real> -> (real -> real),
                         fitClassifier: (seq<Features>, seq<int>) -> (Features -> Prob))
    ensures var m := CurrentModel(data, fitScaler, fitClassifier);
            && m.scaleTemp == fitScaler(Temps(data))
            && m.scaleSalt == fitScaler(Salts(data))
            && m.predictProba == fitClassifier(TrainingDesign(data, m.scaleTemp, m.scaleSalt), Labels(data))
    ensures var m := CurrentModel(data, fitScaler, fitClassifier);
            |TrainingDesign(data, m.scaleTemp, m.scaleSalt)| == |Labels(data)| == |data|
    ensures var m := CurrentModel(data, fitScaler, fitClassifier);
            forall k :: 0 <= k < |data| ==>
              && Temps(data)[k] == data[k].temp
              && Salts(data)[k] == data[k].salt
              && TrainingDesign(data, m.scaleTemp, m.scaleSalt)[k]
                   == Features(m.scaleTemp(data[k].temp), m.scaleSalt(data[k].salt), data[k].datetime.day)
              && Labels(data)[k] == data[k].classLabel
  {
  }

  /**
   * Each temperature scaler depends on the temperature column alone and each
   * salinity scaler on the salinity column alone: two training tables with the
   * same column give the same scaler.
   */
  lemma ScalersSeeOneColumn(d1: seq<Sample>, d2: seq<Sample>, fitScaler: seq<real> -> (real -> real),
                            fitClassifier: (seq<Features>, seq<int>) -> (Features -> Prob), x: real)
    ensures Temps(d1) == Temps(d2) ==>
      CurrentModel(d1, fitScaler, fitClassifier).scaleTemp(x) == CurrentModel(d2, fitScaler, fitClassifier).scaleTemp(x)
    ensures Salts(d1) == Salts(d2) ==>
      CurrentModel(d1, fitScaler, fitClassifier).scaleSalt(x) == CurrentModel(d2, fitScaler, fitClassifier).scaleSalt(x)
  {
  }
}
