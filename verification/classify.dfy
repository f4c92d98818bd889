/** What `classify_message` does once the fitted pipeline has produced the
    class probabilities: keep the most probable class, unless it is not
    probable enough or anything went wrong, in which case the message gets
    the overflow tag. */
module Classify {
  import opened Outcomes
  import opened Corpus
  import opened TextClean
  import opened TextCleanLemmas

  /** The overflow tag */
  const Other: Label := "разное"

  /** Below this maximal probability the prediction is not trusted */
  const Threshold: real := 0.3

  /** What the fitted pipeline reports for one text: its `classes_`, and the
      row of `predict_proba` that goes with them */
  datatype Posterior = Posterior(classes: seq<Label>, probs: seq<real>)

  /** One probability per class, and at least one class; otherwise `predict`
      or `max` raises */
  predicate WellFormed(p: Posterior) {
    |p.classes| == |p.probs| > 0
  }

  /** `k` is the first position of a largest probability */
  predicate FirstMax(probs: seq<real>, k: nat) {
    && k < |probs|
    && (forall j :: 0 <= j < |probs| ==> probs[j] <= probs[k])
    && (forall j :: 0 <= j < k ==> probs[j] < probs[k])
  }

  /** numpy's `argmax`: the first position of a largest probability */
  function ArgMax(probs: seq<real>): (k: nat)
    requires |probs| > 0
    ensures FirstMax(probs, k)
  {
    if |probs| == 1 then 0
    else
      var k := ArgMax(probs[..|probs| - 1]);
      if probs[|probs| - 1] > probs[k] then |probs| - 1 else k
  }

  /** There is only one first position of a maximum */
  lemma FirstMaxUnique(probs: seq<real>, k: nat, k': nat)
    requires FirstMax(probs, k) && FirstMax(probs, k')
    ensures k == k'
  {
    assert probs[k] == probs[k'];
  }

  /** `max(probabilities)` */
  function MaxProb(probs: seq<real>): (m: real)
    requires |probs| > 0
    ensures m in probs && forall j :: 0 <= j < |probs| ==> probs[j] <= m
  {
    probs[ArgMax(probs)]
  }

  /** `predict`: the class of the first largest probability */
  function Predict(p: Posterior): (tag: Label)
    requires WellFormed(p)
    ensures exists k: nat :: FirstMax(p.probs, k) && tag == p.classes[k]
  {
    p.classes[ArgMax(p.probs)]
  }

  /** Some class reaches the threshold */
  predicate Confident(p: Posterior) {
    exists j :: 0 <= j < |p.probs| && p.probs[j] >= Threshold
  }

  /** The decision of `classify_message` after the two library calls: a
      raising call, or an answer `predict`/`max` cannot handle, gives the
      overflow tag; so does a maximal probability below the threshold;
      otherwise the tag is the predicted class */
  function Decide(out: Outcome<Posterior>): (tag: Label)
    ensures out.Raised? ==> tag == Other
    ensures out.Returned? && !WellFormed(out.value) ==> tag == Other
    ensures out.Returned? && WellFormed(out.value) && !Confident(out.value) ==> tag == Other
    ensures out.Returned? && WellFormed(out.value) && Confident(out.value) ==>
              exists k: nat :: FirstMax(out.value.probs, k) && tag == out.value.classes[k]
    ensures tag == Other || (out.Returned? && tag in out.value.classes)
  {
    match out
    case Raised => Other
    case Returned(p) =>
      if !WellFormed(p) then Other
      else if MaxProb(p.probs) < Threshold then Other
      else Predict(p)
  }

  /** `classify_message`: the pipeline sees the cleaned text */
  function ClassifyMessage(u: CharClasses, pipeline: string -> Outcome<Posterior>, text: string): (tag: Label)
    ensures var out := pipeline(CleanText(u, text));
            out.Raised? || !WellFormed(out.value) || !Confident(out.value) ==> tag == Other
    ensures var out := pipeline(CleanText(u, text));
            out.Returned? && WellFormed(out.value) && Confident(out.value) ==>
              exists k: nat :: FirstMax(out.value.probs, k) && tag == out.value.classes[k]
  {
    Decide(pipeline(CleanText(u, text)))
  }

  /** Leading and trailing whitespace never changes the tag */
  lemma ClassifyMessageStrip(u: CharClasses, pipeline: string -> Outcome<Posterior>, text: string)
    ensures ClassifyMessage(u, pipeline, Strip(u, text)) == ClassifyMessage(u, pipeline, text)
  {
    CleanTextStrip(u, text);
  }

  /** The classes of a pipeline fitted on the training set are training
      labels, each once */
  ghost predicate FittedOnCorpus(out: Outcome<Posterior>) {
    out.Returned? ==>
      && (forall c :: c in out.value.classes ==> c in TrainLabels)
      && Distinct(out.value.classes)
  }

  /** The eight tags a message can get */
  const Tags: seq<Label> := Categories + [Other]

  lemma OtherIsNotACategory()
    ensures Other !in Categories
  {
  }

  /** With a pipeline fitted on the training set, the tag is one of the
      seven topics or the overflow tag, and it is the overflow tag exactly
      when the call failed or no class reached the threshold */
  lemma DecideTags(out: Outcome<Posterior>)
    requires FittedOnCorpus(out)
    ensures Decide(out) in Tags
    ensures Decide(out) == Other <==>
              out.Raised? || !WellFormed(out.value) || !Confident(out.value)
  {
    TrainingLabels();
    OtherIsNotACategory();
    if out.Returned? && WellFormed(out.value) && Confident(out.value) {
      assert Decide(out) == out.value.classes[ArgMax(out.value.probs)];
    }
  }

  /** Whatever the text, `classify_message` answers with one of the eight
      tags when its pipeline was fitted on the training set */
  lemma ClassifyMessageTags(u: CharClasses, pipeline: string -> Outcome<Posterior>, text: string)
    requires forall t :: FittedOnCorpus(pipeline(t))
    ensures ClassifyMessage(u, pipeline, text) in Tags
  {
    DecideTags(pipeline(CleanText(u, text)));
  }
}
