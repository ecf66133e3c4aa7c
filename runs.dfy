/** A reference definition of the run collapse in terms of maximal runs:
    text is a sequence of runs of one repeated character, and the collapse
    caps each run of a character other than a newline at two copies. */
module RunEncoding {
  import opened TextNormalizer

  /** `len` copies of `ch`. */
  datatype Run = Run(ch: char, len: nat)

  /** Runs as they come out of text: none empty, no two neighbours of the
      same character. */
  predicate Maximal(rs: seq<Run>) {
    && (forall i :: 0 <= i < |rs| ==> rs[i].len > 0)
    && (forall i :: 0 < i < |rs| ==> rs[i - 1].ch != rs[i].ch)
  }

  /** The maximal runs of `s`, from left to right. */
  function Runs(s: string): (rs: seq<Run>)
    ensures Maximal(rs)
    ensures rs == [] <==> s == []
    ensures rs != [] ==> rs[0].ch == s[0]
    decreases |s|
  {
    if s == [] then []
    else
      var n := LeadRun(s, s[0]);
      [Run(s[0], n)] + Runs(s[n..])
  }

  /** The text a sequence of runs spells. */
  function Expand(rs: seq<Run>): (s: string)
    ensures rs != [] && rs[0].len > 0 ==> s != [] && s[0] == rs[0].ch
  {
    if rs == [] then [] else Repeat(rs[0].ch, rs[0].len) + Expand(rs[1..])
  }

  /** What the collapse does to one run. */
  function Cap(r: Run): Run {
    if r.ch != '\n' && r.len > 2 then Run(r.ch, 2) else r
  }

  function CapAll(rs: seq<Run>): seq<Run> {
    seq(|rs|, i requires 0 <= i < |rs| => Cap(rs[i]))
  }

  /** Spelling out the runs of a text gives the text back. */
  lemma {:induction false} ExpandRuns(s: string)
    ensures Expand(Runs(s)) == s
    decreases |s|
  {
    if s != [] {
      var n := LeadRun(s, s[0]);
      var rs := Runs(s);
      assert rs[0] == Run(s[0], n) && rs[1..] == Runs(s[n..]);
      calc {
        Expand(rs);
        Repeat(s[0], n) + Expand(Runs(s[n..]));
        { ExpandRuns(s[n..]); }
        Repeat(s[0], n) + s[n..];
        { assert Repeat(s[0], n) == s[..n]; }
        s[..n] + s[n..];
        s;
      }
    }
  }

  /** Maximal runs are exactly the runs of the text they spell. */
  lemma {:induction false} RunsExpand(rs: seq<Run>)
    requires Maximal(rs)
    ensures Runs(Expand(rs)) == rs
  {
    if rs != [] {
      var c, n, t := rs[0].ch, rs[0].len, Expand(rs[1..]);
      assert Maximal(rs[1..]);
      assert |rs| > 1 ==> rs[1..][0] == rs[1];
      assert t == [] || t[0] != c;
      var s := Repeat(c, n) + t;
      assert Expand(rs) == s;
      LeadRunOfRepeat(c, n, t);
      assert s[0] == c;
      calc {
        Runs(s);
        [Run(c, n)] + Runs(t);
        { RunsExpand(rs[1..]); }
        [rs[0]] + rs[1..];
        rs;
      }
    }
  }

  lemma CapAllMaximal(rs: seq<Run>)
    requires Maximal(rs)
    ensures Maximal(CapAll(rs))
  {
  }

  /** The scanning collapse spells the capped runs of its input. */
  lemma {:induction false} CollapseIsCapping(s: string)
    ensures Collapse(s) == Expand(CapAll(Runs(s)))
    decreases |s|
  {
    if s != [] {
      var c := s[0];
      var n := LeadRun(s, c);
      var rest := s[n..];
      assert s == Repeat(c, n) + rest by {
        assert Repeat(c, n) == s[..n];
        assert s[..n] + s[n..] == s;
      }
      var rs := Runs(s);
      assert rs[0] == Run(c, n) && rs[1..] == Runs(rest);
      var caps := CapAll(rs);
      assert caps[0] == Cap(Run(c, n)) && caps[1..] == CapAll(Runs(rest));
      var m := Cap(Run(c, n)).len;
      calc {
        Collapse(s);
        {
          if c != '\n' && n >= 3 {
            CollapseShortens(c, n, rest);
            assert Repeat(c, 2) == [c, c];
          } else {
            CollapseKeepsRun(c, n, rest);
          }
        }
        Repeat(c, m) + Collapse(rest);
        { CollapseIsCapping(rest); }
        Repeat(c, m) + Expand(CapAll(Runs(rest)));
        Expand(caps);
      }
    }
  }

  /** The runs of the collapsed text are the runs of the input, each run of
      three or more characters other than a newline cut to exactly two and
      every other run untouched. */
  lemma {:induction false} CollapseRuns(s: string)
    ensures Runs(Collapse(s)) == CapAll(Runs(s))
  {
    CollapseIsCapping(s);
    CapAllMaximal(Runs(s));
    RunsExpand(CapAll(Runs(s)));
  }
}
