/** Worked messages, each checked against the decision layer. */
module DecisionExamples {
  import opened TextNormalizer
  import opened KeywordMatch
  import opened IntentDecision

  /** Any message that starts with "hi", in either case, is a greeting,
      whatever follows. */
  lemma {:induction false} LeadingHiIsGreeting(raw: string, classify: string -> seq<Scored>)
    requires |raw| >= 2 && LowerChar(raw[0]) == 'h' && LowerChar(raw[1]) == 'i'
    ensures Decide(raw, classify) == Classified(Decision("greeting", 1.0))
  {
    NormalizeKeepsHead(raw);
    var text := Normalize(raw);
    assert OccursAt(text, "hi", 0) by {
      assert text[0..] == text;
    }
    ContainsAt(text, "hi", 0);
    GreetingWins(raw, classify, "hi");
  }

  /** "hi" at the head of the message decides, although "scared" and
      "follow" are danger keywords. */
  lemma GreetingBeatsDangerExample(classify: string -> seq<Scored>)
    ensures Decide("hi there, I feel " + "scared someone is following me", classify)
      == Classified(Decision("greeting", 1.0))
  {
    LeadingHiIsGreeting("hi there, I feel " + "scared someone is following me", classify);
  }

  /** "sad" is already normalized, holds no greeting keyword, and is a
      self-harm keyword. */
  lemma SadText(text: string)
    requires text == "sad"
    ensures IsNormalized(text) && !MatchesAny(text, GreetingWords) && Contains(text, "sad")
  {
    assert NoTriple(text) by {
      assert !TripleAt(text, 0);
    }
    NoGreetingWithoutHG(text);
  }

  /** Any message that normalizes to "sad" ("sad", " SAD ", "saaad") is
      self-harm: the keyword alone decides. */
  lemma {:induction false} SelfHarmExample(raw: string, classify: string -> seq<Scored>)
    requires Normalize(raw) == "sad"
    ensures Decide(raw, classify) == Classified(Decision("self_harm", 1.0))
  {
    SadText(Normalize(raw));
    SelfHarmBeatsDanger(raw, classify, "sad");
  }

  lemma SadIsNormalized()
    ensures Normalize("sad") == "sad"
  {
    SadText("sad");
    NormalizeFixed("sad");
  }

  /** The text "i am so tired of living" holds no greeting keyword: it has no
      'h', and its only 'g' comes too late to start "good morning" or "good
      evening". It holds the self-harm keyword "tired of living". */
  lemma TiredText(text: string)
    requires text == "i am so tired" + " of living"
    ensures !MatchesAny(text, GreetingWords) && Contains(text, "tired of living")
  {
    assert 'h' !in text;
    assert 'g' !in text[..12];
    forall w | w in GreetingWords ensures !Contains(text, w) {
      Absent(text, w);
    }
    assert OccursAt(text, "tired of living", 8);
    ContainsAt(text, "tired of living", 8);
  }

  /** Any message that normalizes to "i am so tired of living" is
      self-harm. */
  lemma {:induction false} TiredOfLivingExample(raw: string, classify: string -> seq<Scored>)
    requires Normalize(raw) == "i am so tired" + " of living"
    ensures Decide(raw, classify) == Classified(Decision("self_harm", 1.0))
  {
    TiredText(Normalize(raw));
    SelfHarmBeatsDanger(raw, classify, "tired of living");
  }

  /** Lower-casing "I am so tired of living" changes only its first letter. */
  lemma {:induction false} TiredOfLivingLower(raw: string, text: string)
    requires raw == "I am so tired" + " of living" && text == "i am so tired" + " of living"
    ensures Lower(raw) == text
  {
    forall i | 0 <= i < |raw| ensures Lower(raw)[i] == text[i] {
      if i > 0 {
        assert raw[i] == text[i] && !IsUpper(raw[i]);
      }
    }
  }

  /** "i am so tired of living" is already normalized. */
  lemma {:induction false} TiredOfLivingFixed(text: string)
    requires text == "i am so tired" + " of living"
    ensures IsNormalized(text)
  {
    assert forall i :: 0 <= i < |text| ==> !IsUpper(text[i]);
    assert forall i :: 0 <= i < |text| - 1 ==> text[i] != text[i + 1];
  }

  /** "I am so tired of living" normalizes to its lower-case form. */
  lemma {:induction false} TiredOfLivingNormalized(raw: string, text: string)
    requires raw == "I am so tired" + " of living" && text == "i am so tired" + " of living"
    ensures Normalize(raw) == text
  {
    TiredOfLivingLower(raw, text);
    TiredOfLivingFixed(text);
    calc {
      Normalize(raw);
      Collapse(Strip(Lower(raw)));
      Collapse(Strip(text));
      { LowerSpec(text); }
      Collapse(Strip(Lower(text)));
      Normalize(text);
      { NormalizeFixed(text); }
      text;
    }
  }

  /** "attack" is already normalized, holds no greeting or self-harm
      keyword, and is a danger keyword. */
  lemma AttackText(text: string)
    requires text == "attack"
    ensures IsNormalized(text) && Contains(text, "attack")
    ensures !MatchesAny(text, GreetingWords) && !MatchesAny(text, SelfHarmWords)
  {
    assert NoTriple(text) by {
      assert forall i :: 0 <= i < |text| - 1 ==> text[i] != text[i + 1] || text[i] == 't';
      assert !TripleAt(text, 1);
    }
    NoGreetingWithoutHG(text);
    forall w | w in SelfHarmWords ensures !Contains(text, w) {
      assert |w| > |text| || w[0] in "sbe";
      Absent(text, w);
    }
  }

  /** A danger keyword decides when no greeting or self-harm keyword is
      present. */
  lemma {:induction false} DangerExample(raw: string, classify: string -> seq<Scored>)
    requires Normalize(raw) == "attack"
    ensures Decide(raw, classify) == Classified(Decision("danger", 1.0))
  {
    AttackText(Normalize(raw));
    DangerOverride(raw, classify, "attack");
  }

  lemma AttackIsNormalized()
    ensures Normalize("attack") == "attack"
  {
    AttackText("attack");
    NormalizeFixed("attack");
  }

  /** The first most probable of 0.3, 0.25, 0.45 is the last, kept at 0.45. */
  lemma BoredomPick(ps: seq<Scored>)
    requires ps == [Scored("query", 0.3), Scored("weather", 0.25), Scored("boredom", 0.45)]
    ensures IsFirstMax(ps, 2) && Downgrade(Decision(ps[2].intent, ps[2].prob)) == Decision("boredom", 0.45)
  {
  }

  /** The most probable label wins and, at 0.45, is kept. */
  lemma {:induction false} ClassifierExample(raw: string, classify: string -> seq<Scored>)
    requires Strip(raw) != [] && Override(Normalize(raw)).None?
    requires classify(raw) == [Scored("query", 0.3), Scored("weather", 0.25), Scored("boredom", 0.45)]
    ensures Decide(raw, classify) == Classified(Decision("boredom", 0.45))
  {
    BoredomPick(classify(raw));
    FallbackAt(raw, classify, 2);
  }

  /** Of 0.2, 0.35, 0.35 the earlier 0.35 is picked, and relabelled. */
  lemma TiePick(ps: seq<Scored>)
    requires ps == [Scored("query", 0.2), Scored("weather", 0.35), Scored("boredom", 0.35)]
    ensures IsFirstMax(ps, 1) && Downgrade(Decision(ps[1].intent, ps[1].prob)) == Decision("general_chat", 0.35)
  {
  }

  /** A tie goes to the label the classifier lists first, and a low
      maximum is relabelled with its probability kept. */
  lemma {:induction false} TieAndDowngradeExample(raw: string, classify: string -> seq<Scored>)
    requires Strip(raw) != [] && Override(Normalize(raw)).None?
    requires classify(raw) == [Scored("query", 0.2), Scored("weather", 0.35), Scored("boredom", 0.35)]
    ensures Decide(raw, classify) == Classified(Decision("general_chat", 0.35))
  {
    TiePick(classify(raw));
    FallbackAt(raw, classify, 1);
  }

  /** Of 0.1, 0.05 the `danger` label is picked and not relabelled. */
  lemma DangerPick(ps: seq<Scored>)
    requires ps == [Scored("danger", 0.1), Scored("query", 0.05)]
    ensures IsFirstMax(ps, 0) && Downgrade(Decision(ps[0].intent, ps[0].prob)) == Decision("danger", 0.1)
  {
  }

  /** A low-confidence `danger` from the classifier is kept as it is. */
  lemma {:induction false} DangerNotDowngradedExample(raw: string, classify: string -> seq<Scored>)
    requires Strip(raw) != [] && Override(Normalize(raw)).None?
    requires classify(raw) == [Scored("danger", 0.1), Scored("query", 0.05)]
    ensures Decide(raw, classify) == Classified(Decision("danger", 0.1))
  {
    DangerPick(classify(raw));
    FallbackAt(raw, classify, 0);
  }
}
