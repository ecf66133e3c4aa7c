/** The hybrid decision layer: an empty-input guard on the raw message,
    keyword overrides on the normalized text in a fixed order, otherwise the
    most probable label of the statistical classifier on the raw message, and
    finally the relabelling of low-confidence results. */
module IntentDecision {
  import opened TextNormalizer
  import opened KeywordMatch

  datatype Option<T> = None | Some(value: T)

  /** An intent label and the confidence attached to it. */
  datatype Decision = Decision(intent: string, confidence: real)

  /** One entry of the classifier's output: a label of `model.classes_` and
      the probability `predict_proba` gives it, in the classifier's order. */
  datatype Scored = Scored(intent: string, prob: real)

  /** What the layer reports for one message. */
  datatype Outcome =
    | EmptyInput
    | ClassifierUnavailable
    | Classified(decision: Decision)

  /** Below this confidence a result is relabelled `general_chat`. */
  const LowConfidence: real := 0.4

  /** The confidence every override carries. */
  const OverrideConfidence: real := 1.0

  /** The intents the relabelling never touches. */
  predicate IsExempt(intent: string) {
    intent == "danger" || intent == "self_harm"
  }

  /** The override chain: greeting, then self-harm, then danger; the first
      list with a keyword in the text decides. */
  function Override(text: string): (o: Option<Decision>)
    ensures o.Some? ==> o.value.confidence == OverrideConfidence
    ensures o.None? <==>
      !MatchesAny(text, GreetingWords) && !MatchesAny(text, SelfHarmWords) && !MatchesAny(text, DangerWords)
  {
    if MatchesAny(text, GreetingWords) then Some(Decision("greeting", OverrideConfidence))
    else if MatchesAny(text, SelfHarmWords) then Some(Decision("self_harm", OverrideConfidence))
    else if MatchesAny(text, DangerWords) then Some(Decision("danger", OverrideConfidence))
    else None
  }

  /** `k` is where the largest probability first occurs. */
  predicate IsFirstMax(ps: seq<Scored>, k: nat) {
    && k < |ps|
    && (forall j :: 0 <= j < |ps| ==> ps[j].prob <= ps[k].prob)
    && (forall j :: 0 <= j < k ==> ps[j].prob < ps[k].prob)
  }

  /** numpy's `argmax`: the first index holding the largest value. */
  function ArgMax(ps: seq<Scored>): (k: nat)
    requires |ps| > 0
    ensures IsFirstMax(ps, k)
  {
    if |ps| == 1 then 0
    else
      var k := ArgMax(ps[..|ps| - 1]);
      if ps[|ps| - 1].prob > ps[k].prob then |ps| - 1 else k
  }

  /** The tie rule makes the choice unique. */
  lemma FirstMaxUnique(ps: seq<Scored>, k1: nat, k2: nat)
    requires IsFirstMax(ps, k1) && IsFirstMax(ps, k2)
    ensures k1 == k2
  {
    assert ps[k1].prob == ps[k2].prob;
  }

  /** The statistical fallback on one row of classifier output; with no
      labels at all there is nothing to pick (numpy's `argmax` raises). */
  function Fallback(ps: seq<Scored>): (o: Option<Decision>)
    ensures o.None? <==> ps == []
    ensures o.Some? ==> exists k: nat :: IsFirstMax(ps, k) && o.value == Decision(ps[k].intent, ps[k].prob)
  {
    if ps == [] then None
    else
      var k := ArgMax(ps);
      Some(Decision(ps[k].intent, ps[k].prob))
  }

  /** The low-confidence relabelling. It changes the label only, never the
      confidence, and never touches the exempt intents. */
  function Downgrade(d: Decision): (r: Decision)
    ensures r.confidence == d.confidence
    ensures r.intent == d.intent || r.intent == "general_chat"
    ensures IsExempt(d.intent) || d.confidence >= LowConfidence ==> r == d
    ensures !IsExempt(d.intent) && d.confidence < LowConfidence ==> r.intent == "general_chat"
  {
    if d.confidence < LowConfidence && !IsExempt(d.intent) then Decision("general_chat", d.confidence)
    else d
  }

  /** The whole decision for one raw message. The keyword rules look at the
      normalized text; the classifier is handed the raw message. */
  function Decide(raw: string, classify: string -> seq<Scored>): (o: Outcome)
    ensures o.Classified? && !IsExempt(o.decision.intent) && o.decision.confidence < LowConfidence ==>
      o.decision.intent == "general_chat"
  {
    if Strip(raw) == [] then EmptyInput
    else
      var text := Normalize(raw);
      var chosen := if Override(text).Some? then Override(text) else Fallback(classify(raw));
      match chosen
      case None => ClassifierUnavailable
      case Some(d) => Classified(Downgrade(d))
  }

  /** Found keywords come from non-blank messages. */
  lemma {:induction false} KeywordMeansNonBlank(raw: string, words: seq<string>)
    requires words == GreetingWords || words == SelfHarmWords || words == DangerWords
    requires MatchesAny(Normalize(raw), words)
    ensures Strip(raw) != []
  {
    NormalizeEmptyIffBlank(raw);
    EmptyTextMatchesNothing(words);
  }

  /** The empty-input guard fires exactly on messages made of whitespace,
      and then the classifier plays no part. */
  lemma {:induction false} BlankIsEmptyInput(raw: string, classify: string -> seq<Scored>, other: string -> seq<Scored>)
    ensures Decide(raw, classify) == EmptyInput <==> forall i :: 0 <= i < |raw| ==> IsSpace(raw[i])
    ensures Decide(raw, classify) == EmptyInput ==> Decide(raw, other) == EmptyInput
  {
  }

  /** A greeting keyword wins whatever else the message says. */
  lemma {:induction false} GreetingWins(raw: string, classify: string -> seq<Scored>, w: string)
    requires w in GreetingWords && Contains(Normalize(raw), w)
    ensures Decide(raw, classify) == Classified(Decision("greeting", 1.0))
  {
    KeywordMeansNonBlank(raw, GreetingWords);
  }

  /** Without a greeting keyword, a self-harm keyword wins, danger keywords
      or not. */
  lemma {:induction false} SelfHarmBeatsDanger(raw: string, classify: string -> seq<Scored>, w: string)
    requires !MatchesAny(Normalize(raw), GreetingWords)
    requires w in SelfHarmWords && Contains(Normalize(raw), w)
    ensures Decide(raw, classify) == Classified(Decision("self_harm", 1.0))
  {
    KeywordMeansNonBlank(raw, SelfHarmWords);
  }

  /** A danger keyword decides only when no greeting or self-harm keyword
      is present. */
  lemma {:induction false} DangerOverride(raw: string, classify: string -> seq<Scored>, w: string)
    requires !MatchesAny(Normalize(raw), GreetingWords) && !MatchesAny(Normalize(raw), SelfHarmWords)
    requires w in DangerWords && Contains(Normalize(raw), w)
    ensures Decide(raw, classify) == Classified(Decision("danger", 1.0))
  {
    KeywordMeansNonBlank(raw, DangerWords);
  }

  /** The precedence read backwards: a `self_harm` result means no greeting
      keyword was present, and a `danger` result means neither a greeting nor
      a self-harm keyword was, whether an override or the classifier
      produced it. */
  lemma {:induction false} PrecedenceOfResults(raw: string, classify: string -> seq<Scored>)
    ensures Decide(raw, classify).Classified? && Decide(raw, classify).decision.intent == "self_harm" ==>
      !MatchesAny(Normalize(raw), GreetingWords)
    ensures Decide(raw, classify).Classified? && Decide(raw, classify).decision.intent == "danger" ==>
      !MatchesAny(Normalize(raw), GreetingWords) && !MatchesAny(Normalize(raw), SelfHarmWords)
  {
  }

  /** Overrides carry confidence 1.0, so the relabelling leaves them as
      they are. */
  lemma OverrideNotDowngraded(text: string)
    requires Override(text).Some?
    ensures Downgrade(Override(text).value) == Override(text).value
  {
  }

  /** With no keyword present, the result is the classifier's first most
      probable label on the raw message, relabelled if its probability is
      low, with that probability as the confidence. */
  lemma {:induction false} FallbackDecides(raw: string, classify: string -> seq<Scored>)
    requires Strip(raw) != [] && Override(Normalize(raw)).None?
    requires classify(raw) != []
    ensures var ps := classify(raw);
      exists k: nat :: (IsFirstMax(ps, k) && Decide(raw, classify) == Classified(Downgrade(Decision(ps[k].intent, ps[k].prob))))
  {
    var ps := classify(raw);
    var k := ArgMax(ps);
    assert Fallback(ps) == Some(Decision(ps[k].intent, ps[k].prob));
    assert IsFirstMax(ps, k);
  }

  /** The same, for a known first most probable label. */
  lemma {:induction false} FallbackAt(raw: string, classify: string -> seq<Scored>, k: nat)
    requires Strip(raw) != [] && Override(Normalize(raw)).None?
    requires IsFirstMax(classify(raw), k)
    ensures Decide(raw, classify) == Classified(Downgrade(Decision(classify(raw)[k].intent, classify(raw)[k].prob)))
  {
    var ps := classify(raw);
    FirstMaxUnique(ps, ArgMax(ps), k);
  }

  /** The danger keyword "behind" holds the greeting keyword "hi", so a
      message with "behind" is always a greeting and that keyword never
      produces `danger`. */
  lemma {:induction false} BehindIsGreeting(raw: string, classify: string -> seq<Scored>)
    requires Contains(Normalize(raw), "behind")
    ensures Decide(raw, classify) == Classified(Decision("greeting", 1.0))
  {
    BehindHoldsHi(Normalize(raw));
    GreetingWins(raw, classify, "hi");
  }

  /** The layer fails only when it had to ask the classifier and the
      classifier knows no labels. */
  lemma {:induction false} UnavailableOnlyWithoutLabels(raw: string, classify: string -> seq<Scored>)
    ensures Decide(raw, classify) == ClassifierUnavailable <==>
      Strip(raw) != [] && Override(Normalize(raw)).None? && classify(raw) == []
  {
  }

  /** The classifier is consulted on the raw message only: two classifiers
      that agree on it give the same outcome. */
  lemma ClassifierSeesRawInput(raw: string, c1: string -> seq<Scored>, c2: string -> seq<Scored>)
    requires c1(raw) == c2(raw)
    ensures Decide(raw, c1) == Decide(raw, c2)
  {
  }

  /** When an override fires, the classifier plays no part. */
  lemma OverrideIgnoresClassifier(raw: string, c1: string -> seq<Scored>, c2: string -> seq<Scored>)
    requires Strip(raw) != [] && Override(Normalize(raw)).Some?
    ensures Decide(raw, c1) == Decide(raw, c2) == Classified(Override(Normalize(raw)).value)
  {
  }
}
