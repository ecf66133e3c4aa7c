/** The text normalizer of the intent pipeline: lower-case, strip the
    surrounding whitespace, then collapse every run of three or more equal
    characters (other than a newline) to exactly two. */
module TextNormalizer {

  /** Python's `str.isspace`: the characters `str.strip()` removes when it is
      called without arguments. */
  predicate IsSpace(c: char) {
    var n := c as int;
    || 0x09 <= n <= 0x0D || 0x1C <= n <= 0x20
    || n == 0x85 || n == 0xA0 || n == 0x1680
    || 0x2000 <= n <= 0x200A || n == 0x2028 || n == 0x2029
    || n == 0x202F || n == 0x205F || n == 0x3000
  }

  predicate IsUpper(c: char) {
    'A' <= c <= 'Z'
  }

  /** `str.lower` on one character, restricted to the ASCII letters. */
  function LowerChar(c: char): (r: char)
    ensures !IsUpper(r)
    ensures IsSpace(r) == IsSpace(c)
    ensures !IsUpper(c) ==> r == c
    ensures IsUpper(c) ==> 'a' <= r <= 'z' && r as int - 'a' as int == c as int - 'A' as int
  {
    if IsUpper(c) then (c as int + 32) as char else c
  }

  /** `str.lower`, character by character. */
  function Lower(s: string): (r: string)
    ensures |r| == |s|
  {
    seq(|s|, i requires 0 <= i < |s| => LowerChar(s[i]))
  }

  /** What `lower` promises: the result has no upper-case letter, maps each
      upper-case letter to its lower-case letter, has the same whitespace in
      the same places, and leaves lower-case text alone. */
  lemma LowerSpec(s: string)
    ensures |Lower(s)| == |s|
    ensures forall i :: 0 <= i < |s| ==> !IsUpper(Lower(s)[i])
    ensures forall i :: 0 <= i < |s| ==> IsSpace(Lower(s)[i]) == IsSpace(s[i])
    ensures forall i :: 0 <= i < |s| && IsUpper(s[i]) ==>
      'a' <= Lower(s)[i] <= 'z' && Lower(s)[i] as int - 'a' as int == s[i] as int - 'A' as int
    ensures (forall i :: 0 <= i < |s| ==> !IsUpper(s[i])) ==> Lower(s) == s
  {
  }

  /** Leading whitespace removed. */
  function TrimStart(s: string): (r: string)
    ensures |r| <= |s| && r == s[|s| - |r|..]
    ensures forall i :: 0 <= i < |s| - |r| ==> IsSpace(s[i])
    ensures r == [] || !IsSpace(r[0])
  {
    if s != [] && IsSpace(s[0]) then TrimStart(s[1..]) else s
  }

  /** Trailing whitespace removed. */
  function TrimEnd(s: string): (r: string)
    ensures |r| <= |s| && r == s[..|r|]
    ensures forall i :: |r| <= i < |s| ==> IsSpace(s[i])
    ensures r == [] || !IsSpace(r[|r| - 1])
  {
    if s != [] && IsSpace(s[|s| - 1]) then TrimEnd(s[..|s| - 1]) else s
  }

  /** `str.strip()`: whitespace removed from both ends. */
  function Strip(s: string): (r: string)
    ensures r == [] || (!IsSpace(r[0]) && !IsSpace(r[|r| - 1]))
    ensures r == [] <==> forall i :: 0 <= i < |s| ==> IsSpace(s[i])
    ensures exists a :: DroppedEnds(s, r, a)
  {
    var t := TrimStart(s);
    var r := TrimEnd(t);
    assert t != [] ==> !IsSpace(t[0]);
    TrimsDropEnds(s, t, r);
    r
  }

  /** `r` is `s` from position `a` on, with whitespace dropped before `a`
      and after the end of `r`. */
  predicate DroppedEnds(s: string, r: string, a: nat) {
    && a + |r| <= |s| && r == s[a..a + |r|]
    && (forall i :: 0 <= i < a ==> IsSpace(s[i]))
    && (forall i :: a + |r| <= i < |s| ==> IsSpace(s[i]))
  }

  /** A leading cut of whitespace followed by a trailing one leaves a
      slice with only whitespace dropped around it. */
  lemma TrimsDropEnds(s: string, t: string, r: string)
    requires |t| <= |s| && t == s[|s| - |t|..]
    requires forall i :: 0 <= i < |s| - |t| ==> IsSpace(s[i])
    requires |r| <= |t| && r == t[..|r|]
    requires forall i :: |r| <= i < |t| ==> IsSpace(t[i])
    ensures DroppedEnds(s, r, |s| - |t|)
  {
    var a := |s| - |t|;
    forall i | a + |r| <= i < |s| ensures IsSpace(s[i]) {
      assert s[i] == t[i - a];
    }
  }

  /** Text without leading or trailing whitespace is its own strip. */
  lemma {:induction false} StripTrimmed(s: string)
    requires s == [] || (!IsSpace(s[0]) && !IsSpace(s[|s| - 1]))
    ensures Strip(s) == s
  {
  }

  /** The number of copies of `c` that `s` starts with. */
  function LeadRun(s: string, c: char): (n: nat)
    ensures n <= |s|
    ensures forall i :: 0 <= i < n ==> s[i] == c
    ensures n < |s| ==> s[n] != c
  {
    if s != [] && s[0] == c then 1 + LeadRun(s[1..], c) else 0
  }

  /** `re.sub(r'(.)\1{2,}', r'\1\1', s)`: scanning from the left, a
      character other than a newline followed by at least two copies of
      itself matches, greedily, up to the end of its run, and is replaced by
      two copies; any other character is copied and the scan moves on by
      one. */
  function Collapse(s: string): (r: string)
    ensures |r| <= |s|
    ensures |s| > 0 ==> |r| > 0 && r[0] == s[0] && r[|r| - 1] == s[|s| - 1]
    ensures |s| > 1 ==> |r| > 1 && r[1] == s[1]
    decreases |s|
  {
    if s == [] then []
    else
      var n := LeadRun(s, s[0]);
      if s[0] != '\n' && n >= 3 then [s[0], s[0]] + Collapse(s[n..])
      else [s[0]] + Collapse(s[1..])
  }

  /** The collapse only drops characters: every character it returns comes
      from its input. */
  lemma {:induction false} CollapseDrawsFromInput(s: string)
    ensures forall i :: 0 <= i < |Collapse(s)| ==> Collapse(s)[i] in s
    decreases |s|
  {
    if s != [] {
      var c, n := s[0], LeadRun(s, s[0]);
      if c != '\n' && n >= 3 {
        assert Collapse(s) == [c, c] + Collapse(s[n..]);
        CollapseDrawsFromInput(s[n..]);
        AppendDraws([c, c], Collapse(s[n..]), s, n);
      } else {
        assert Collapse(s) == [c] + Collapse(s[1..]);
        CollapseDrawsFromInput(s[1..]);
        AppendDraws([c], Collapse(s[1..]), s, 1);
      }
    }
  }

  /** Characters of `s` followed by characters of a suffix of `s` are all
      characters of `s`. */
  lemma AppendDraws(head: string, rest: string, s: string, m: nat)
    requires m <= |s|
    requires forall i :: 0 <= i < |head| ==> head[i] in s
    requires forall i :: 0 <= i < |rest| ==> rest[i] in s[m..]
    ensures forall i :: 0 <= i < |head + rest| ==> (head + rest)[i] in s
  {
    forall i | |head| <= i < |head + rest| ensures (head + rest)[i] in s {
      var j :| 0 <= j < |s[m..]| && s[m..][j] == rest[i - |head|];
      assert s[m + j] == s[m..][j];
    }
  }

  /** `normalize_text`. */
  function Normalize(s: string): (r: string)
    ensures |r| <= |s|
  {
    Collapse(Strip(Lower(s)))
  }

  /** Three equal characters, not newlines, starting at `i`: what the
      pattern `(.)\1{2,}` finds. */
  predicate TripleAt(s: string, i: nat)
    requires i + 2 < |s|
  {
    s[i] != '\n' && s[i + 1] == s[i] && s[i + 2] == s[i]
  }

  predicate NoTriple(s: string) {
    forall i: nat :: i + 2 < |s| ==> !TripleAt(s, i)
  }

  /** The invariants of normalized text. */
  predicate IsNormalized(s: string) {
    && (forall i :: 0 <= i < |s| ==> !IsUpper(s[i]))
    && (s == [] || (!IsSpace(s[0]) && !IsSpace(s[|s| - 1])))
    && NoTriple(s)
  }

  /** Putting one character in front of text free of runs of three makes
      no run of three unless it starts one. */
  lemma ConsNoTriple(c: char, t: string)
    requires NoTriple(t)
    requires |t| >= 2 ==> !(c != '\n' && t[0] == c && t[1] == c)
    ensures NoTriple([c] + t)
  {
    var r := [c] + t;
    forall i: nat | i + 2 < |r| ensures !TripleAt(r, i) {
      if i >= 1 {
        assert r[i] == t[i - 1] && r[i + 1] == t[i] && r[i + 2] == t[i + 1];
        assert !TripleAt(t, i - 1);
      }
    }
  }

  /** The collapse leaves no run of three non-newline characters behind. */
  lemma {:induction false} CollapseNoTriple(s: string)
    ensures NoTriple(Collapse(s))
    decreases |s|
  {
    if s != [] {
      var c, n := s[0], LeadRun(s, s[0]);
      if c != '\n' && n >= 3 {
        var rest := Collapse(s[n..]);
        assert Collapse(s) == [c, c] + rest;
        CollapseNoTriple(s[n..]);
        assert rest != [] ==> rest[0] == s[n] != c;
        PairNoTriple(c, rest);
      } else {
        var rest := Collapse(s[1..]);
        assert Collapse(s) == [c] + rest;
        CollapseNoTriple(s[1..]);
        if |rest| >= 2 && c != '\n' {
          assert rest[0] == s[1] && rest[1] == s[2];
          assert !(s[1] == c && s[2] == c);
        }
        ConsNoTriple(c, rest);
      }
    }
  }

  /** Two copies of a character in front of text free of runs of three
      that does not start with it make no run of three. */
  lemma PairNoTriple(c: char, rest: string)
    requires NoTriple(rest) && (rest == [] || rest[0] != c)
    ensures NoTriple([c, c] + rest)
  {
    ConsNoTriple(c, rest);
    ConsNoTriple(c, [c] + rest);
    assert [c] + ([c] + rest) == [c, c] + rest;
  }

  /** Text with no such run is left unchanged by the collapse. */
  lemma {:induction false} CollapseFixed(s: string)
    requires NoTriple(s)
    ensures Collapse(s) == s
    decreases |s|
  {
    if s != [] {
      var c := s[0];
      assert c == '\n' || LeadRun(s, c) < 3 by {
        if 3 <= |s| {
          assert !TripleAt(s, 0);
        }
      }
      assert Collapse(s) == [c] + Collapse(s[1..]);
      NoTripleTail(s);
      CollapseFixed(s[1..]);
      assert [c] + s[1..] == s;
    }
  }

  /** Stripping only drops characters. */
  lemma StripDrawsFromInput(s: string)
    ensures forall c :: c in Strip(s) ==> c in s
  {
    var t := TrimStart(s);
    assert forall c :: c in t ==> c in s;
    assert forall c :: c in TrimEnd(t) ==> c in t;
  }

  /** Every result of `normalize_text` is lower-case, stripped and free of
      runs of three. */
  lemma {:induction false} NormalizeIsNormalized(s: string)
    ensures IsNormalized(Normalize(s))
  {
    var l := Lower(s);
    var t := Strip(l);
    var r := Collapse(t);
    assert forall i :: 0 <= i < |r| ==> !IsUpper(r[i]) by {
      assert forall i :: 0 <= i < |l| ==> !IsUpper(l[i]);
      StripDrawsFromInput(l);
      CollapseDrawsFromInput(t);
      DrawnNoUpper(r, t, l);
    }
    assert r == [] || (!IsSpace(r[0]) && !IsSpace(r[|r| - 1])) by {
      CollapseKeepsEnds(t);
    }
    assert NoTriple(r) by {
      CollapseNoTriple(t);
    }
  }

  /** The collapse keeps text without whitespace at its ends that way. */
  lemma CollapseKeepsEnds(t: string)
    requires t == [] || (!IsSpace(t[0]) && !IsSpace(t[|t| - 1]))
    ensures var r := Collapse(t); r == [] || (!IsSpace(r[0]) && !IsSpace(r[|r| - 1]))
  {
  }

  /** Characters drawn, through `t`, from text with no upper-case letter
      are not upper-case letters. */
  lemma DrawnNoUpper(r: string, t: string, l: string)
    requires forall i :: 0 <= i < |l| ==> !IsUpper(l[i])
    requires forall c :: c in t ==> c in l
    requires forall i :: 0 <= i < |r| ==> r[i] in t
    ensures forall i :: 0 <= i < |r| ==> !IsUpper(r[i])
  {
    forall i | 0 <= i < |r| ensures !IsUpper(r[i]) {
      var j :| 0 <= j < |l| && l[j] == r[i];
    }
  }

  /** Normalized text is its own normalization. */
  lemma {:induction false} NormalizeFixed(n: string)
    requires IsNormalized(n)
    ensures Normalize(n) == n
  {
    calc {
      Normalize(n);
      Collapse(Strip(Lower(n)));
      { LowerSpec(n); }
      Collapse(Strip(n));
      { StripTrimmed(n); }
      Collapse(n);
      { CollapseFixed(n); }
      n;
    }
  }

  /** Normalizing twice is normalizing once. */
  lemma {:induction false} NormalizeIdempotent(s: string)
    ensures Normalize(Normalize(s)) == Normalize(s)
  {
    NormalizeIsNormalized(s);
    NormalizeFixed(Normalize(s));
  }

  /** A message that starts with two non-space characters keeps them,
      lower-cased, at the head of its normalized text. */
  lemma {:induction false} NormalizeKeepsHead(s: string)
    requires |s| >= 2 && !IsSpace(s[0]) && !IsSpace(s[1])
    ensures |Normalize(s)| >= 2
    ensures Normalize(s)[0] == LowerChar(s[0]) && Normalize(s)[1] == LowerChar(s[1])
  {
    var l := Lower(s);
    LowerSpec(s);
    assert TrimStart(l) == l;
    var t := TrimEnd(l);
    assert !IsSpace(l[1]);
    assert |t| >= 2;
    assert t[0] == l[0] && t[1] == l[1];
  }

  /** The normalized text is empty exactly when the raw text is blank, which
      is the test the empty-input guard makes on the raw text. */
  lemma {:induction false} NormalizeEmptyIffBlank(s: string)
    ensures Normalize(s) == [] <==> Strip(s) == []
  {
    LowerSpec(s);
  }

  lemma Assoc(a: string, b: string, c: string)
    ensures a + (b + c) == (a + b) + c
  {
  }

  /** `n` copies of `c`. */
  function Repeat(c: char, n: nat): (r: string)
    ensures |r| == n && forall i :: 0 <= i < n ==> r[i] == c
  {
    if n == 0 then [] else [c] + Repeat(c, n - 1)
  }

  /** A character that does not start a run of three is copied by itself. */
  lemma CollapseCopies(c: char, t: string)
    requires c == '\n' || LeadRun(t, c) < 2
    ensures Collapse([c] + t) == [c] + Collapse(t)
  {
    assert ([c] + t)[1..] == t;
    assert LeadRun([c] + t, c) == 1 + LeadRun(t, c);
  }

  /** Text that starts with exactly `k` copies of `c`. */
  lemma LeadRunOfRepeat(c: char, k: nat, t: string)
    requires t == [] || t[0] != c
    ensures LeadRun(Repeat(c, k) + t, c) == k
    ensures (Repeat(c, k) + t)[k..] == t
  {
    var s := Repeat(c, k) + t;
    assert forall i :: 0 <= i < k ==> s[i] == c;
    assert k < |s| ==> s[k] == t[0] != c;
  }

  /** A whole run of three or more is replaced by two copies. */
  lemma CollapseShortens(c: char, k: nat, t: string)
    requires c != '\n' && k >= 3
    requires t == [] || t[0] != c
    ensures Collapse(Repeat(c, k) + t) == [c, c] + Collapse(t)
  {
    LeadRunOfRepeat(c, k, t);
  }

  /** A whole run of at most two, or of newlines, is copied as it is. */
  lemma {:induction false} CollapseKeepsRun(c: char, k: nat, t: string)
    requires c == '\n' || k <= 2
    requires t == [] || t[0] != c
    ensures Collapse(Repeat(c, k) + t) == Repeat(c, k) + Collapse(t)
    decreases k
  {
    if k > 0 {
      var r := Repeat(c, k - 1);
      var u := r + t;
      assert Repeat(c, k) == [c] + r;
      calc {
        Collapse(Repeat(c, k) + t);
        { Assoc([c], r, t); }
        Collapse([c] + u);
        { LeadRunOfRepeat(c, k - 1, t); CollapseCopies(c, u); }
        [c] + Collapse(u);
        { CollapseKeepsRun(c, k - 1, t); }
        [c] + (r + Collapse(t));
        { Assoc([c], r, Collapse(t)); }
        Repeat(c, k) + Collapse(t);
      }
    } else {
      assert Repeat(c, k) + t == t;
      assert Repeat(c, k) + Collapse(t) == Collapse(t);
    }
  }

  lemma NoTripleTail(s: string)
    requires s != [] && NoTriple(s)
    ensures NoTriple(s[1..])
  {
    forall i: nat | i + 2 < |s[1..]| ensures !TripleAt(s[1..], i) {
      assert !TripleAt(s, i + 1);
    }
  }

  /** Before a final run of `c`, the first character of text free of runs
      of three does not start one. */
  lemma FinalRunHead(p: string, c: char, k: nat)
    requires p != [] && NoTriple(p) && p[|p| - 1] != c
    ensures p[0] == '\n' || LeadRun(p[1..] + Repeat(c, k), p[0]) < 2
  {
    var x, q := p[0], p[1..];
    var t := q + Repeat(c, k);
    if x != '\n' && |t| >= 2 {
      if |q| >= 2 {
        assert !TripleAt(p, 0);
        assert t[0] == p[1] && t[1] == p[2];
      } else if |q| == 1 {
        assert t[0] == p[1] && t[1] == c;
      } else {
        assert t[0] == c;
      }
    }
  }

  /** A final run of three or more after text free of such runs is cut down
      to two, and the text before it is kept as it is. */
  lemma {:induction false} CollapseFinalRun(p: string, c: char, k: nat)
    requires NoTriple(p) && (p == [] || p[|p| - 1] != c)
    requires c != '\n' && k >= 3
    ensures Collapse(p + Repeat(c, k)) == p + [c, c]
    decreases |p|
  {
    if p == [] {
      CollapseShortens(c, k, []);
      assert p + Repeat(c, k) == Repeat(c, k) + [];
    } else {
      var x, q := p[0], p[1..];
      var t := q + Repeat(c, k);
      NoTripleTail(p);
      FinalRunHead(p, c, k);
      calc {
        Collapse(p + Repeat(c, k));
        { assert p + Repeat(c, k) == [x] + t; }
        Collapse([x] + t);
        { CollapseCopies(x, t); }
        [x] + Collapse(t);
        { CollapseFinalRun(q, c, k); }
        [x] + (q + [c, c]);
        { assert [x] + q == p; }
        p + [c, c];
      }
    }
  }

  /** The collapse keeps two of a long run: "hellooooo" becomes "helloo",
      not "hello". */
  lemma CollapseHellooooo()
    ensures Collapse("hellooooo") == "helloo"
  {
    assert NoTriple("hell") by {
      assert !TripleAt("hell", 0) && !TripleAt("hell", 1);
    }
    CollapseFinalRun("hell", 'o', 5);
    assert "hell" + Repeat('o', 5) == "hellooooo";
  }

  lemma NormalizeHellooooo()
    ensures Normalize("hellooooo") == "helloo"
  {
    var s := "hellooooo";
    assert Lower(s) == s by {
      LowerSpec(s);
    }
    assert Strip(s) == s by {
      StripTrimmed(s);
    }
    CollapseHellooooo();
  }
}
