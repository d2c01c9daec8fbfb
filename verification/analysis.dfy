/** The whole analysis with git access replaced by its input: the ordered
    per-commit numstat pairs. Records are built first, the statistics are
    computed once from all of them, and only then is each commit labelled. */
module Analysis {

  import opened Wrappers
  import Numstat
  import Sequencer
  import Quartiles
  import Classifier

  /** One row of the report. */
  datatype Row = Row(record: Sequencer.CommitRecord, verdict: Classifier.Label)

  /** The records of a report, row by row. */
  function RecordsOf(rows: seq<Row>): seq<Sequencer.CommitRecord> {
    seq(|rows|, i requires 0 <= i < |rows| => rows[i].record)
  }

  /** The report of a run; an empty run has no statistics and no rows.
      Every commit gets one row, in commit order, holding its record and
      its label; "N/A" is all or nothing: every commit is "N/A" exactly when
      no commit but the last leaves a positive total, the first included. */
  function Analyze(cs: seq<Numstat.Counts>): (rows: seq<Row>)
    ensures |rows| == |cs|
    ensures Sequencer.Sequenced(cs, RecordsOf(rows))
    ensures forall i :: 0 <= i < |cs| ==> rows[i].record == Sequencer.Records(cs)[i]
    ensures forall i :: 0 <= i < |cs| ==>
      (rows[i].verdict == Classifier.NotApplicable <==>
        forall j :: 0 <= j < |cs| - 1 ==> rows[j].record.total <= 0)
    ensures |cs| > 0 ==>
      var rs, s := Sequencer.Records(cs), Quartiles.Statistics(Sequencer.Records(cs)).value;
      forall i :: 0 <= i < |cs| ==> rows[i].verdict == Classifier.Classify(rs[i].changed, rs[i].total, s)
  {
    var rs := Sequencer.Records(cs);
    match Quartiles.Statistics(rs)
    case None => []
    case Some(s) =>
      var rows := seq(|rs|, i requires 0 <= i < |rs| => Row(rs[i], Classifier.Classify(rs[i].changed, rs[i].total, s)));
      LabelledRun(cs, rs, s, rows);
      rows
  }

  /** Labelling keeps the records in order, and since the label is "N/A"
      exactly when the run has no samples, "N/A" is all or nothing. */
  lemma LabelledRun(cs: seq<Numstat.Counts>, rs: seq<Sequencer.CommitRecord>, s: Quartiles.Summary,
                    rows: seq<Row>)
    requires Sequencer.Sequenced(cs, rs) && s.samples == Quartiles.Samples(rs) && |rows| == |rs|
    requires forall i :: 0 <= i < |rows| ==>
      rows[i] == Row(rs[i], Classifier.Classify(rs[i].changed, rs[i].total, s))
    ensures Sequencer.Sequenced(cs, RecordsOf(rows))
    ensures forall i :: 0 <= i < |cs| ==> rows[i].record == rs[i]
    ensures forall i :: 0 <= i < |cs| ==>
      (rows[i].verdict == Classifier.NotApplicable <==>
        forall j :: 0 <= j < |cs| - 1 ==> rows[j].record.total <= 0)
    ensures forall i :: 0 <= i < |cs| ==> rows[i].verdict == Classifier.Classify(rs[i].changed, rs[i].total, s)
  {
    assert RecordsOf(rows) == rs;
    NoSamplesIffNoPositiveTotal(cs, rs);
    NotApplicableOfNoSamples(rs, s, rows);
  }

  lemma NotApplicableOfNoSamples(rs: seq<Sequencer.CommitRecord>, s: Quartiles.Summary, rows: seq<Row>)
    requires |rows| == |rs|
    requires forall i :: 0 <= i < |rows| ==>
      rows[i] == Row(rs[i], Classifier.Classify(rs[i].changed, rs[i].total, s))
    ensures forall i :: 0 <= i < |rows| ==>
      (rows[i].verdict == Classifier.NotApplicable <==> |s.samples| == 0)
  {
  }

  /** A run has no percentage samples exactly when no commit but the last
      leaves a positive total behind. */
  lemma NoSamplesIffNoPositiveTotal(cs: seq<Numstat.Counts>, rs: seq<Sequencer.CommitRecord>)
    requires Sequencer.Sequenced(cs, rs)
    ensures |Quartiles.Samples(rs)| == 0 <==> forall j :: 0 <= j < |cs| - 1 ==> rs[j].total <= 0
  {
    if |Quartiles.Samples(rs)| == 0 {
      forall j | 0 <= j < |cs| - 1
        ensures rs[j].total <= 0
      {
        assert Sequencer.Follows(cs, rs, j + 1);
      }
    } else {
      var x := Quartiles.Samples(rs)[0];
      assert x in Quartiles.Samples(rs);
      var i :| 0 <= i < |rs| && rs[i].pct == Some(x);
      assert i > 0;
      assert Sequencer.Follows(cs, rs, i);
    }
  }

  /** The quartiles of a run are never negative, since no defined
      percentage is. */
  lemma QuartilesNonNegative(cs: seq<Numstat.Counts>)
    requires |cs| > 0
    ensures Quartiles.Statistics(Sequencer.Records(cs)).Some?
    ensures var s := Quartiles.Statistics(Sequencer.Records(cs)).value;
      0.0 <= s.q1 <= s.q3
  {
  }

  /** The classifier does not reuse the recorded percentage: after two
      100-line additions the second commit is recorded as a 100% change of
      its predecessor's total but classified as 50% of its own. */
  lemma OwnTotalQuirk()
    ensures var rs := Sequencer.Records([Numstat.Counts(100, 0), Numstat.Counts(100, 0)]);
      && rs[1].pct == Some(100.0)
      && rs[1].total == 200
      && Classifier.OwnPct(rs[1].changed, rs[1].total) == 50.0
  {
    var cs := [Numstat.Counts(100, 0), Numstat.Counts(100, 0)];
    var rs := Sequencer.Records(cs);
    assert Sequencer.Follows(cs, rs, 1);
  }

  /** The total is never clamped: deletions beyond an empty snapshot drive
      it negative, after which no percentage is defined and, with no samples
      in the run, every commit is "N/A". */
  lemma NegativeTotal(x: nat, d: nat, y: nat)
    requires d > 0
    ensures var cs := [Numstat.Counts(0, x), Numstat.Counts(0, d), Numstat.Counts(y, 0)];
      var rs := Sequencer.Records(cs);
      && rs[1].total == 0 - d as int && rs[2].total == y as int - d as int
      && rs[1].pct.None? && rs[2].pct.None?
      && forall i :: 0 <= i < 3 ==> Analyze(cs)[i].verdict == Classifier.NotApplicable
  {
    var cs := [Numstat.Counts(0, x), Numstat.Counts(0, d), Numstat.Counts(y, 0)];
    var rs := Sequencer.Records(cs);
    assert Sequencer.Follows(cs, rs, 1);
    assert Sequencer.Follows(cs, rs, 2);
    var rows := Analyze(cs);
    assert rows[0].record == rs[0] && rows[1].record == rs[1];
  }

  lemma SamplesOfThree(rs: seq<Sequencer.CommitRecord>, a: real, b: real)
    requires |rs| == 3 && rs[0].pct.None? && rs[1].pct == Some(a) && rs[2].pct == Some(b)
    ensures Quartiles.Samples(rs) == [a, b]
  {
    assert rs[..2][..1] == [rs[0]];
    assert [rs[0]][..0] == [];
    assert Quartiles.Samples([rs[0]]) == [];
    assert Quartiles.Samples(rs[..2]) == [a];
  }

  lemma SamplesOfFour(rs: seq<Sequencer.CommitRecord>, a: real, b: real, c: real)
    requires |rs| == 4 && rs[0].pct.None? && rs[1].pct == Some(a) && rs[2].pct == Some(b)
    requires rs[3].pct == Some(c)
    ensures Quartiles.Samples(rs) == [a, b, c]
  {
    SamplesOfThree(rs[..3], a, b);
  }

  /** Records of a run whose first commit adds `n` lines, whose second is
      empty and whose third adds `m` lines. */
  lemma EarlyRunRecords(n: nat, m: nat)
    requires n > 0
    ensures var rs := Sequencer.Records([Numstat.Counts(n, 0), Numstat.Counts(0, 0), Numstat.Counts(m, 0)]);
      && rs[0] == Sequencer.CommitRecord(n, None, n)
      && rs[1] == Sequencer.CommitRecord(0, Some(0.0), n)
      && rs[2] == Sequencer.CommitRecord(m, Some(Sequencer.Percent(m, n)), n + m)
  {
    var cs := [Numstat.Counts(n, 0), Numstat.Counts(0, 0), Numstat.Counts(m, 0)];
    var rs := Sequencer.Records(cs);
    assert Sequencer.Follows(cs, rs, 1);
    assert Sequencer.Follows(cs, rs, 2);
  }

  /** A first commit, an empty commit, then a commit adding under 40% of
      the tree: the samples are 0% and that percentage `p`, so Q3 = 0.75 p
      and IQR = 0.5 p, and the first commit, whose own change is 100%, lies
      beyond the strong fence and is flagged, though it has no recorded
      percentage of its own. */
  lemma EarlyRun(n: nat, m: nat)
    requires n > 0 && m > 0 && Sequencer.Percent(m, n) < 40.0
    ensures Analyze([Numstat.Counts(n, 0), Numstat.Counts(0, 0), Numstat.Counts(m, 0)])[0].verdict
         == Classifier.LikelyAI
  {
    var cs := [Numstat.Counts(n, 0), Numstat.Counts(0, 0), Numstat.Counts(m, 0)];
    var rs := Sequencer.Records(cs);
    var p := Sequencer.Percent(m, n);
    EarlyRunRecords(n, m);
    assert p > 0.0;
    SamplesOfThree(rs, 0.0, p);
    Quartiles.StatisticsOfTwo(rs, 0.0, p);
    var s := Quartiles.Statistics(rs).value;
    Sequencer.PercentOfSelf(n);
  }

  lemma LaterRunRecords(n: nat, m: nat, k: nat)
    requires n > 0
    ensures var rs := Sequencer.Records([Numstat.Counts(n, 0), Numstat.Counts(0, 0), Numstat.Counts(m, 0),
                                         Numstat.Counts(k, 0)]);
      && rs[0] == Sequencer.CommitRecord(n, None, n)
      && rs[1].pct == Some(0.0)
      && rs[2].pct == Some(Sequencer.Percent(m, n))
      && rs[3].pct == Some(Sequencer.Percent(k, n + m))
  {
    var cs := [Numstat.Counts(n, 0), Numstat.Counts(0, 0), Numstat.Counts(m, 0), Numstat.Counts(k, 0)];
    var rs := Sequencer.Records(cs);
    assert Sequencer.Follows(cs, rs, 1);
    assert Sequencer.Follows(cs, rs, 2);
    assert Sequencer.Follows(cs, rs, 3);
  }

  /** The same run followed by a commit adding at least twice the tree:
      the later commit raises Q3 above 100%, so the first commit is no
      longer flagged. The statistics are global to the run, so a commit's
      label depends on the commits after it. */
  lemma LaterCommitChangesEarlierLabel(n: nat, m: nat, k: nat)
    requires n > 0 && m > 0 && Sequencer.Percent(m, n) < 40.0
    requires Sequencer.Percent(k, n + m) >= 200.0
    ensures Analyze([Numstat.Counts(n, 0), Numstat.Counts(0, 0), Numstat.Counts(m, 0),
                     Numstat.Counts(k, 0)])[0].verdict == Classifier.LikelyHuman
  {
    var cs := [Numstat.Counts(n, 0), Numstat.Counts(0, 0), Numstat.Counts(m, 0),
               Numstat.Counts(k, 0)];
    var rs := Sequencer.Records(cs);
    var p, big := Sequencer.Percent(m, n), Sequencer.Percent(k, n + m);
    LaterRunRecords(n, m, k);
    assert p > 0.0;
    SamplesOfFour(rs, 0.0, p, big);
    Quartiles.StatisticsOfThree(rs, 0.0, p, big);
    var s := Quartiles.Statistics(rs).value;
    Sequencer.PercentOfSelf(n);
    Classifier.SmallChangesNeverFlagged(n, n, s);
  }
}
