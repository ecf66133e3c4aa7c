# IntentAssist decision layer in Dafny

IntentAssist is a chatbot that labels a user's message with an intent and a confidence. This project models the part of `app.py` that makes that decision. The part has four stages:

- **Normalization.** `normalize_text` lower-cases the message and strips surrounding whitespace. It then collapses every run of three or more equal characters, other than newlines, to two copies.
- **Keyword overrides.** Three fixed keyword lists are tested in order against the normalized text: greeting, then self-harm, then danger. The test is an unanchored substring test. The first list that matches decides, with confidence 1.0.
- **Statistical fallback.** If no keyword matches, the raw message goes to a classifier. The result is its most probable label, the first one on a tie, with that probability as the confidence.
- **Relabelling.** A result with confidence below 0.4 becomes `general_chat`, except `danger` and `self_harm`. The confidence is kept.

The project also covers the empty-input guard on the raw message and how the display picks a treatment for an intent.

Modules:

- `TextNormalizer` (normalizer.dfy) defines `Lower`, `Strip`, `Collapse` and `Normalize`.
  - `Collapse` is a left-to-right scan that follows how the regular expression `(.)\1{2,}` matches.
  - `Strip` uses the whitespace set of Python's `str.isspace`.
  - `Lower` maps only the ASCII letters.
- `RunEncoding` (runs.dfy) gives a second, independent definition of the collapse. It splits text into maximal runs of one character and caps each non-newline run at two. It proves the scanning collapse equal to this definition.
- `KeywordMatch` (keywords.dfy) holds the three keyword lists and Python's `word in text` substring test.
- `IntentDecision` (decision.dfy) defines `Decide`, the whole decision for one raw message.
  - The classifier is a parameter: a function from the raw message to its labels (`model.classes_`) paired with their probabilities, in classifier order.
  - The result is `EmptyInput`, `Classified(decision)` or `ClassifierUnavailable`. The last one happens only when the classifier is needed and returns no labels. numpy's `argmax` raises an error in that case.
- `ResultDisplay` (display.dfy) picks the display treatment for an intent.
- `DecisionExamples` (examples.dfy) holds worked cases:
  - a leading "hi" that beats danger keywords;
  - the self-harm keywords "sad" and "tired of living", including the message "I am so tired of living";
  - the danger keyword "attack";
  - classifier results with a tie, a relabelling, and a low-confidence `danger` that is kept.

The comment at `app.py:14` says the collapse turns "hellooo" into "hello". The code keeps two copies and gives "helloo". The model follows the code: see `TextNormalizer.NormalizeHellooooo`.

The danger keyword "behind" (app.py:69) contains the greeting keyword "hi" (app.py:61). The greeting test runs first (app.py:74), so every message containing "behind" is a greeting. That keyword therefore never produces `danger`. The model keeps this behaviour and states it in `IntentDecision.BehindIsGreeting`.

## Model

| member | source | states |
|---|---|---|
| TextNormalizer.IsSpace | app.py:13 | the characters Python's `str.isspace` accepts, which `strip()` removes at app.py:13 and app.py:55 |
| TextNormalizer.LowerChar | app.py:13 | an upper-case letter 'A'..'Z' becomes the lower-case letter at the same place in 'a'..'z'; any other character is unchanged; the whitespace status is kept |
| TextNormalizer.Lower | app.py:13 | `str.lower` applied character by character; the length is kept |
| TextNormalizer.LowerSpec | app.py:13 | `lower` keeps the length and the whitespace positions; it maps each upper-case letter to its lower-case letter, leaves no upper-case letter, and is the identity on text with no upper-case letters |
| TextNormalizer.TrimStart | app.py:13 | the result is a suffix of the input; everything dropped is whitespace; the result does not start with whitespace |
| TextNormalizer.TrimEnd | app.py:13 | the result is a prefix of the input; everything dropped is whitespace; the result does not end with whitespace |
| TextNormalizer.Strip | app.py:13 | the stripped text has whitespace at neither end, is empty exactly when the input is all whitespace, and is a contiguous slice of the input with only whitespace before and after it (only whitespace is dropped, and only from the ends) |
| TextNormalizer.StripTrimmed | app.py:13 | text with no whitespace at either end is unchanged by strip |
| TextNormalizer.LeadRun | app.py:15 | counts the copies of a character that text starts with: all counted positions hold it, and the next one does not |
| TextNormalizer.Collapse | app.py:15 | the collapse never lengthens text and keeps its first, second and last characters |
| TextNormalizer.CollapseDrawsFromInput | app.py:15 | every character of the collapsed text occurs in the input |
| TextNormalizer.CollapseNoTriple | app.py:15 | the collapsed text contains no three equal consecutive characters other than newlines |
| TextNormalizer.CollapseFixed | app.py:15 | text with no such triple is unchanged by the collapse |
| TextNormalizer.CollapseShortens | app.py:15 | a whole run of three or more of a non-newline character becomes exactly two copies |
| TextNormalizer.CollapseKeepsRun | app.py:15 | a whole run of at most two characters, or a run of newlines, is copied unchanged |
| TextNormalizer.CollapseFinalRun | app.py:15 | a final long run after triple-free text is cut to two, and the text before it is kept |
| TextNormalizer.CollapseHellooooo | app.py:14-15 | "hellooooo" collapses to "helloo", not to "hello" as the comment says |
| TextNormalizer.NormalizeHellooooo | app.py:12-16 | `normalize_text("hellooooo")` is "helloo" |
| TextNormalizer.Normalize | app.py:12-16 | `normalize_text`: lower-case, then strip, then collapse; the result is never longer than the input |
| TextNormalizer.StripDrawsFromInput | app.py:13 | every character of the stripped text occurs in the input |
| TextNormalizer.NormalizeIsNormalized | app.py:12-16 | normalized text has no upper-case letter, no whitespace at either end, and no run of three equal non-newline characters |
| TextNormalizer.NormalizeFixed | app.py:12-16 | text that is already lower-case, stripped and free of long runs is its own normalization |
| TextNormalizer.NormalizeIdempotent | app.py:12-16 | normalizing twice gives the same text as normalizing once |
| TextNormalizer.NormalizeKeepsHead | app.py:12-16 | a message that starts with two non-space characters keeps them, lower-cased, as the first two characters of its normalized text |
| TextNormalizer.NormalizeEmptyIffBlank | app.py:12-16 | the normalized text is empty exactly when the raw message strips to empty |
| RunEncoding.Runs | app.py:15 | the run decomposition of text is maximal: no empty runs and no two neighbouring runs of the same character |
| RunEncoding.ExpandRuns | app.py:15 | spelling out the runs of text gives the text back |
| RunEncoding.RunsExpand | app.py:15 | a maximal run sequence is exactly the decomposition of the text it spells |
| RunEncoding.CollapseIsCapping | app.py:15 | the scanning collapse equals spelling out the input's runs, each non-newline run longer than two capped at two |
| RunEncoding.CollapseRuns | app.py:15 | the collapsed text has the runs of the input: every non-newline run of three or more becomes exactly two, and every other run is unchanged |
| KeywordMatch.Contains | app.py:74 | Python's `word in text`: tries every start position from the left |
| KeywordMatch.MatchesAny | app.py:74 | `any(word in text for word in words)`, as used at app.py:74, 79 and 84 |
| KeywordMatch.ContainsIffOccurs | app.py:74 | `word in text` holds exactly when the word occurs at some position of the text, both directions |
| KeywordMatch.ContainsAt | app.py:74 | a word that occurs at any position is found, with no word boundaries required |
| KeywordMatch.ContainsFits | app.py:74 | a found word is no longer than the text |
| KeywordMatch.ContainsFirst | app.py:74 | a found word's first character occurs where the word still fits |
| KeywordMatch.Absent | app.py:74 | a word is not found when it is longer than the text, or when its first character does not occur where it could start |
| KeywordMatch.NoGreetingWithoutHG | app.py:61-74 | text with no 'h' and no 'g' holds no greeting keyword |
| KeywordMatch.BehindHoldsHi | app.py:61-74 | every text holding the danger keyword "behind" also holds the greeting keyword "hi" |
| KeywordMatch.EmptyTextMatchesNothing | app.py:61-69 | no keyword of the three lists is found in empty text |
| KeywordMatch.HiInsideThis | app.py:74 | "hi" is found inside "this" |
| IntentDecision.IsExempt | app.py:97 | the two intents the relabelling never touches, `danger` and `self_harm` |
| IntentDecision.Override | app.py:74-86 | an override carries confidence 1.0, and there is none exactly when no keyword of any list occurs |
| IntentDecision.ArgMax | app.py:92 | the chosen index holds the largest probability, and every earlier index holds a strictly smaller one |
| IntentDecision.FirstMaxUnique | app.py:92 | only one index has that first-maximum property, so ties go to the earlier label |
| IntentDecision.Fallback | app.py:89-94 | there is no result exactly when the classifier gives no labels; otherwise the result is the first most probable label, with its probability as the confidence |
| IntentDecision.Downgrade | app.py:96-98 | the confidence is never changed; a non-exempt result below 0.4 becomes `general_chat`; every other result is unchanged |
| IntentDecision.Decide | app.py:54-98 | the whole decision for one raw message; every reported result below 0.4 that is not `danger` or `self_harm` is labelled `general_chat` |
| IntentDecision.KeywordMeansNonBlank | app.py:55-86 | a message whose normalized text holds a keyword is not blank |
| IntentDecision.BlankIsEmptyInput | app.py:55-56 | the outcome is `EmptyInput` exactly when the raw message is all whitespace, and then it does not depend on the classifier |
| IntentDecision.GreetingWins | app.py:74-76 | any greeting keyword in the normalized text gives ("greeting", 1.0), whatever else is present |
| IntentDecision.SelfHarmBeatsDanger | app.py:79-81 | without a greeting keyword, any self-harm keyword gives ("self_harm", 1.0), even when danger keywords are present |
| IntentDecision.DangerOverride | app.py:84-86 | without greeting or self-harm keywords, any danger keyword gives ("danger", 1.0) |
| IntentDecision.PrecedenceOfResults | app.py:74-98 | a `self_harm` result means no greeting keyword was present; a `danger` result means neither a greeting nor a self-harm keyword was |
| IntentDecision.OverrideNotDowngraded | app.py:74-98 | the relabelling leaves every override result unchanged |
| IntentDecision.FallbackDecides | app.py:89-98 | with no keyword match, the outcome is the classifier's first most probable label on the raw message, with that probability, after the relabelling |
| IntentDecision.FallbackAt | app.py:89-98 | with no keyword match, the outcome is the given first most probable label of the classifier on the raw message, with its probability, after the relabelling |
| IntentDecision.BehindIsGreeting | app.py:61-86 | every message whose normalized text holds "behind" is ("greeting", 1.0), so "behind" never produces `danger` |
| IntentDecision.UnavailableOnlyWithoutLabels | app.py:89-93 | the layer fails exactly when the message is not blank, no keyword matches, and the classifier gives no labels |
| IntentDecision.ClassifierSeesRawInput | app.py:90 | the outcome depends on the classifier only through its answer on the raw message |
| IntentDecision.OverrideIgnoresClassifier | app.py:74-86 | when an override fires, every classifier gives the same outcome, namely the override |
| ResultDisplay.Route | app.py:103-142 | an intent gets the risk treatment exactly when it is `danger`, `harassment`, `stalking` or `self_harm`, the generic reply exactly when it is neither a risk intent nor `weather`, `boredom`, `query` or `greeting`, and, for a non-risk intent, the weather, boredom, query and greeting replies each exactly when the intent is that name |
| ResultDisplay.ExemptIsRisk | app.py:97-111 | both intents exempt from the relabelling get the risk treatment |
| ResultDisplay.DowngradedIsGeneric | app.py:97-142 | a relabelled result gets the generic reply |
| ResultDisplay.RiskAfterDowngrade | app.py:97-111 | a result gets the risk treatment exactly when its label is a risk label that is exempt or has confidence of at least 0.4 |
| ResultDisplay.LowConfidenceRiskLabelLosesRisk | app.py:97-111 | a `harassment` or `stalking` result below 0.4 is relabelled and loses the risk treatment its label would get |
| DecisionExamples.LeadingHiIsGreeting | app.py:74-76 | any message starting with "hi", in either case, is a greeting |
| DecisionExamples.GreetingBeatsDangerExample | app.py:74-86 | "hi there, I feel scared someone is following me" is ("greeting", 1.0), despite its danger keywords |
| DecisionExamples.SadText | app.py:63-79 | "sad" is normalized, holds no greeting keyword, and holds the self-harm keyword "sad" |
| DecisionExamples.SelfHarmExample | app.py:74-81 | any message that normalizes to "sad" is ("self_harm", 1.0) |
| DecisionExamples.SadIsNormalized | app.py:12-16 | `normalize_text("sad")` is "sad" |
| DecisionExamples.TiredText | app.py:61-79 | "i am so tired of living" holds no greeting keyword and holds "tired of living" |
| DecisionExamples.TiredOfLivingExample | app.py:74-81 | any message that normalizes to "i am so tired of living" is ("self_harm", 1.0) |
| DecisionExamples.TiredOfLivingLower | app.py:13 | lower-casing "I am so tired of living" gives "i am so tired of living" |
| DecisionExamples.TiredOfLivingFixed | app.py:12-16 | "i am so tired of living" is lower-case, stripped and free of long runs |
| DecisionExamples.TiredOfLivingNormalized | app.py:12-16 | `normalize_text("I am so tired of living")` is "i am so tired of living" |
| DecisionExamples.AttackText | app.py:61-84 | "attack" is normalized, holds no greeting or self-harm keyword, and holds the danger keyword "attack" |
| DecisionExamples.DangerExample | app.py:74-86 | any message that normalizes to "attack" is ("danger", 1.0) |
| DecisionExamples.AttackIsNormalized | app.py:12-16 | `normalize_text("attack")` is "attack" |
| DecisionExamples.BoredomPick | app.py:92-98 | of 0.3, 0.25, 0.45 the last is the first maximum, and it is kept as ("boredom", 0.45) |
| DecisionExamples.TiePick | app.py:92-98 | of 0.2, 0.35, 0.35 the earlier 0.35 is the first maximum, and it is relabelled ("general_chat", 0.35) |
| DecisionExamples.DangerPick | app.py:92-98 | of 0.1, 0.05 the first is picked, and `danger` is kept at 0.1 |
| DecisionExamples.ClassifierExample | app.py:89-98 | with no keyword, probabilities 0.3, 0.25, 0.45 give ("boredom", 0.45) |
| DecisionExamples.TieAndDowngradeExample | app.py:89-98 | a 0.35 tie goes to the earlier label, and that label is then relabelled ("general_chat", 0.35) |
| DecisionExamples.DangerNotDowngradedExample | app.py:89-98 | a classifier `danger` at 0.1 stays ("danger", 0.1) |

## Left out

- Training (`train_model.py`) and loading the model and vectorizer with joblib (app.py:6-7) are left out. They are file I/O and machine learning. The classifier is a function parameter instead.
- The vectorizer and `predict_proba` (app.py:90-91) are not modelled. They are foreign library code and floating point. Probabilities are `real` numbers with no constraint, so NaN and rounding are not covered. Neither is the fact that the probabilities sum to 1.
- The layer may raise an exception inside the classifier. The model covers only the case where the classifier returns no labels, as `ClassifierUnavailable`.
- TextNormalizer.Lower: maps only ASCII letters. Python's `str.lower` also maps non-ASCII letters; the model does not cover them.
- Streamlit is left out: page setup, styles, the text box, the button, and all output calls (app.py:9-51, 101-142). It is user interface. Only the choice of treatment in `ResultDisplay.Route` is kept.
- The confidence is shown as a percentage with two decimals (app.py:104, 106). This is display formatting and is left out.
- The display text and the helpline numbers (app.py:112-142) are left out. The model keeps which branch is taken, not what it writes.
