/** How a result is presented: the risk treatment, with the safety text,
    for the safety intents, and one branch per other known intent. */
module ResultDisplay {
  import opened IntentDecision

  datatype Treatment = Risk | Weather | Boredom | Query | Greeting | Generic

  /** The intents shown with the risk treatment. */
  predicate IsRiskIntent(intent: string) {
    intent == "danger" || intent == "harassment" || intent == "stalking" || intent == "self_harm"
  }

  /** The branch a result's intent selects. */
  function Route(intent: string): (t: Treatment)
    ensures t == Risk <==> IsRiskIntent(intent)
    ensures t == Generic <==> !IsRiskIntent(intent) && intent !in ["weather", "boredom", "query", "greeting"]
    ensures !IsRiskIntent(intent) ==>
      && (t == Weather <==> intent == "weather")
      && (t == Boredom <==> intent == "boredom")
      && (t == Query <==> intent == "query")
      && (t == Greeting <==> intent == "greeting")
  {
    if IsRiskIntent(intent) then Risk
    else if intent == "weather" then Weather
    else if intent == "boredom" then Boredom
    else if intent == "query" then Query
    else if intent == "greeting" then Greeting
    else Generic
  }

  /** Every intent exempt from the relabelling is shown as a risk. */
  lemma ExemptIsRisk(intent: string)
    requires IsExempt(intent)
    ensures Route(intent) == Risk
  {
  }

  /** A relabelled result is shown with the generic text. */
  lemma {:induction false} DowngradedIsGeneric(d: Decision)
    requires !IsExempt(d.intent) && d.confidence < LowConfidence
    ensures Route(Downgrade(d).intent) == Generic
  {
  }

  /** A result reaches the risk treatment exactly when its label is a risk
      label and it either is exempt from the relabelling or is confident
      enough to escape it. */
  lemma {:induction false} RiskAfterDowngrade(d: Decision)
    ensures Route(Downgrade(d).intent) == Risk <==>
      IsRiskIntent(d.intent) && (IsExempt(d.intent) || d.confidence >= LowConfidence)
  {
  }

  /** The relabelling exempts `danger` and `self_harm` only: a
      low-confidence `harassment` or `stalking` result from the classifier
      is relabelled and so loses the risk treatment its label has. */
  lemma {:induction false} LowConfidenceRiskLabelLosesRisk(d: Decision)
    requires d.intent == "harassment" || d.intent == "stalking"
    requires d.confidence < LowConfidence
    ensures Route(d.intent) == Risk
    ensures Route(Downgrade(d).intent) == Generic
  {
  }
}
