/** The outlier classifier: a one-sided Tukey fence test of one commit's
    percentage change against the run's Q3 and interquartile range. */
module Classifier {

  import Sequencer
  import Quartiles

  datatype Label = NotApplicable | LikelyAI | PossibleAI | LikelyHuman

  /** Multiples of the IQR above Q3 beyond which a change is flagged. */
  const StrongFence: real := 3.0
  const MildFence: real := 1.5

  /** How strongly a label flags a commit; "N/A" flags nothing. */
  function Severity(l: Label): nat {
    match l
    case LikelyAI => 2
    case PossibleAI => 1
    case LikelyHuman => 0
    case NotApplicable => 0
  }

  /** The classifier's own percentage: relative to the total the commit
      itself leaves behind (not its predecessor's), and 0 when that total
      is not positive. */
  function OwnPct(changes: nat, total: int): (r: real)
    ensures r >= 0.0
    ensures total > 0 ==> r * total as real == changes as real * 100.0
    ensures total <= 0 ==> r == 0.0
  {
    if total > 0 then Sequencer.Percent(changes, total) else 0.0
  }

  /** The label of one commit, given the statistics of the whole run. */
  function Classify(changes: nat, total: int, s: Quartiles.Summary): (r: Label)
    ensures r == NotApplicable <==> |s.samples| == 0
    ensures |s.samples| > 0 && s.iqr <= 0.0 ==> r == LikelyHuman
    ensures |s.samples| > 0 && s.iqr > 0.0 ==>
      var pct := OwnPct(changes, total);
      && (r == LikelyAI <==> pct > s.q3 + StrongFence * s.iqr)
      && (r == PossibleAI <==> s.q3 + MildFence * s.iqr < pct <= s.q3 + StrongFence * s.iqr)
      && (r == LikelyHuman <==> pct <= s.q3 + MildFence * s.iqr)
  {
    if |s.samples| == 0 then NotApplicable
    else
      var pct := OwnPct(changes, total);
      if s.iqr > 0.0 then
        DivAbove(pct - s.q3, StrongFence, s.iqr);
        DivAbove(pct - s.q3, MildFence, s.iqr);
        var excess := (pct - s.q3) / s.iqr;
        if excess > StrongFence then LikelyAI
        else if excess > MildFence then PossibleAI
        else LikelyHuman
      else LikelyHuman
  }

  /** For a positive scale, dividing by it preserves a strict bound. */
  lemma DivAbove(x: real, c: real, d: real)
    requires d > 0.0
    ensures x / d > c <==> x > c * d
  {
    var y := x / d;
    assert y * d == x;
    if y > c {
      assert (y - c) * d > 0.0;
    }
    if x > c * d {
      assert (y - c) * d > 0.0;
    }
  }

  /** A change at or below Q3 is never flagged: the test is one-sided. */
  lemma SmallChangesNeverFlagged(changes: nat, total: int, s: Quartiles.Summary)
    requires OwnPct(changes, total) <= s.q3
    ensures Severity(Classify(changes, total, s)) == 0
  {
  }

  lemma OwnPctMonotone(changes: nat, changes': nat, total: int)
    requires changes <= changes'
    ensures OwnPct(changes, total) <= OwnPct(changes', total)
  {
    if total > 0 {
      var t := total as real;
      assert changes as real / t <= changes' as real / t;
    }
  }

  /** For a fixed total and fixed statistics, more changed lines never
      lower the label. */
  lemma ClassifyMonotone(changes: nat, changes': nat, total: int, s: Quartiles.Summary)
    requires changes <= changes'
    ensures Severity(Classify(changes, total, s)) <= Severity(Classify(changes', total, s))
  {
    if |s.samples| > 0 && s.iqr > 0.0 {
      OwnPctMonotone(changes, changes', total);
    }
  }

  /** For example, with Q3 = 10 and IQR = 4 the fences sit at 16 and 22, so
      10, 17 and 23 changed lines of a 100-line total are labelled human,
      possible AI and likely AI. */
  lemma ExampleLabels(s: Quartiles.Summary)
    requires |s.samples| > 0 && s.q3 == 10.0 && s.iqr == 4.0
    ensures Classify(10, 100, s) == LikelyHuman
    ensures Classify(17, 100, s) == PossibleAI
    ensures Classify(23, 100, s) == LikelyAI
  {
    assert OwnPct(10, 100) == 10.0;
    assert OwnPct(17, 100) == 17.0;
    assert OwnPct(23, 100) == 23.0;
  }
}
