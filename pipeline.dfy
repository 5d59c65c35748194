/** The request path run when the predict button is pressed: encode the form
    values, align them with the training columns, ask the regressor for a
    charge, then show the charge and the advisory for its tier. The regressor
    is a parameter: any function from a feature vector to the already
    truncated integer charge. */
module Pipeline {
  import opened Encoding
  import opened Tiering
  import opened Formatting

  /** What the page shows for one request. */
  datatype Outcome = Outcome(charge: int, shown: string, tier: Tier, advisory: Advisory)

  /** One prediction request against the columns `cols`. */
  function Predict(predict: seq<int> -> int, value: int, age: int, power: int,
                   driverLabel: string, zoneLabel: string, cols: seq<string>): (o: Outcome)
    ensures o.charge == predict(Encode(value, age, power, driverLabel, zoneLabel, cols))
    ensures o.tier == Classify(o.charge) && o.advisory == AdvisoryFor(o.tier)
    ensures o.shown == Display(o.charge)
    ensures |o.shown| >= |Unit| && ParseDecimal(Remove(Amount(o.shown), ' ')) == Some(o.charge)
    ensures o.advisory.severity == Error <==> o.charge > HighThreshold
    ensures o.advisory.severity == Warning <==> WatchThreshold < o.charge <= HighThreshold
    ensures o.advisory.severity == Success <==> o.charge <= WatchThreshold
  {
    var charge := predict(Encode(value, age, power, driverLabel, zoneLabel, cols));
    DisplayRoundTrip(charge);
    var tier := Classify(charge);
    Outcome(charge, Display(charge), tier, AdvisoryFor(tier))
  }

  /** With the fixed training columns the regressor receives the numeric
      inputs unchanged followed by the two flags, in training order. */
  lemma PredictSeesTrainingVector(predict: seq<int> -> int, value: int, age: int, power: int,
                                  driverLabel: string, zoneLabel: string)
    ensures Predict(predict, value, age, power, driverLabel, zoneLabel, TrainingCols).charge
         == predict([value, age, power, DriverFlag(driverLabel), ZoneFlag(zoneLabel)])
  {
    EncodeTrainingColumns(value, age, power, driverLabel, zoneLabel);
  }

  /** The example request with a regressor answering 95000 gives a
      charge shown as "95 000 DH" in the watch tier. */
  lemma ExampleRequestOutcome(predict: seq<int> -> int)
    requires predict([250000, 5, 8, 1, 1]) == 95000
    ensures Predict(predict, 250000, 5, 8, "Principal", "Urbaine", TrainingCols)
         == Outcome(95000, "95 000 DH", Watch, AdvisoryFor(Watch))
  {
    EncodeExampleRequest();
    DisplayExample95000();
  }
}
