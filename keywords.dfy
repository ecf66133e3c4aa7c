/** The keyword lists of the override rules and the test made with them:
    Python's `word in text`, an unanchored substring test with no notion of
    word boundaries. */
module KeywordMatch {

  const GreetingWords: seq<string> :=
    ["hi", "hello", "hey", "good morning", "good evening", "hola", "hii", "heyy"]

  const SelfHarmWords: seq<string> :=
    [ "depressed", "depression", "sad", "not happy", "hopeless",
      "tired of living", "want to die", "kill myself", "end my life",
      "no reason to live", "empty", "broken", "worthless" ]

  const DangerWords: seq<string> :=
    ["follow", "chase", "attack", "unsafe", "scared", "threat", "hurt", "behind"]

  /** `word` appears in `text` starting at position `i`. */
  predicate OccursAt(text: string, word: string, i: nat)
    requires i <= |text|
  {
    word <= text[i..]
  }

  /** `word in text`: tries every starting position from the left. */
  function Contains(text: string, word: string): bool
    decreases |text|
  {
    word <= text || (text != [] && Contains(text[1..], word))
  }

  /** The substring test holds exactly when the word occurs at some
      position. */
  lemma {:induction false} ContainsIffOccurs(text: string, word: string)
    ensures Contains(text, word) <==> exists i: nat :: i <= |text| && OccursAt(text, word, i)
    decreases |text|
  {
    if text != [] {
      ContainsIffOccurs(text[1..], word);
      assert text[0..] == text;
      if word <= text {
        assert OccursAt(text, word, 0);
      }
      if Contains(text[1..], word) {
        var i: nat :| i <= |text[1..]| && OccursAt(text[1..], word, i);
        assert text[1..][i..] == text[i + 1..];
        assert OccursAt(text, word, i + 1);
      }
      if i: nat :| i <= |text| && OccursAt(text, word, i) {
        if i > 0 {
          assert text[1..][i - 1..] == text[i..];
          assert OccursAt(text[1..], word, i - 1);
        }
      }
    } else {
      assert forall i: nat :: i <= |text| && OccursAt(text, word, i) ==> i == 0;
      assert text[0..] == text;
      assert OccursAt(text, word, 0) <==> word <= text;
    }
  }

  /** A word found at a position is found by the test. */
  lemma ContainsAt(text: string, word: string, i: nat)
    requires i <= |text| && OccursAt(text, word, i)
    ensures Contains(text, word)
  {
    ContainsIffOccurs(text, word);
  }

  /** A word longer than the text is never found in it. */
  lemma {:induction false} ContainsFits(text: string, word: string)
    requires Contains(text, word)
    ensures |word| <= |text|
    decreases |text|
  {
    if !(word <= text) {
      ContainsFits(text[1..], word);
    }
  }

  /** A found word starts at a position that leaves room for the rest of
      it. */
  lemma ContainsFirst(text: string, word: string)
    requires Contains(text, word) && word != []
    ensures |word| <= |text| && word[0] in text[..|text| - |word| + 1]
  {
    ContainsIffOccurs(text, word);
    var i: nat :| i <= |text| && OccursAt(text, word, i);
    assert text[i] == word[0];
    assert text[..|text| - |word| + 1][i] == text[i];
  }

  /** A word is absent when it cannot fit or its first character does not
      occur where it could start. */
  lemma Absent(text: string, word: string)
    requires word != []
    requires |word| > |text| || word[0] !in text[..|text| - |word| + 1]
    ensures !Contains(text, word)
  {
    if Contains(text, word) {
      ContainsFirst(text, word);
    }
  }

  /** The danger keyword "behind" holds the greeting keyword "hi", so any
      text with the first holds the second. */
  lemma BehindHoldsHi(text: string)
    requires Contains(text, "behind")
    ensures Contains(text, "hi")
  {
    ContainsIffOccurs(text, "behind");
    var i: nat :| i <= |text| && OccursAt(text, "behind", i);
    assert text[i + 2] == 'h' && text[i + 3] == 'i';
    assert OccursAt(text, "hi", i + 2);
    ContainsAt(text, "hi", i + 2);
  }

  /** `any(word in text for word in words)`. */
  predicate MatchesAny(text: string, words: seq<string>) {
    exists w :: w in words && Contains(text, w)
  }

  /** Every greeting keyword starts with 'h' or 'g', so text with neither
      letter holds none. */
  lemma NoGreetingWithoutHG(text: string)
    requires 'h' !in text && 'g' !in text
    ensures !MatchesAny(text, GreetingWords)
  {
    forall w | w in GreetingWords ensures !Contains(text, w) {
      assert w[0] == 'h' || w[0] == 'g';
      Absent(text, w);
    }
  }

  /** No keyword is empty, so empty text matches none of the lists. */
  lemma EmptyTextMatchesNothing(words: seq<string>)
    requires words == GreetingWords || words == SelfHarmWords || words == DangerWords
    ensures !MatchesAny([], words)
  {
    forall w | w in words ensures !Contains([], w) {
      assert |w| > 0;
      if Contains([], w) {
        ContainsFits([], w);
      }
    }
  }

  /** Matching ignores word boundaries: "hi" is found inside "this". */
  lemma HiInsideThis()
    ensures Contains("this", "hi")
  {
    assert OccursAt("this", "hi", 1);
    ContainsAt("this", "hi", 1);
  }
}
