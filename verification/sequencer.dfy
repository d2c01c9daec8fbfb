/** The commit sequencer: a left fold over the per-commit numstat pairs, oldest
    commit first, that reconstructs each commit's changed-line count, its
    percentage change and its running total of lines. */
module Sequencer {

  import opened Wrappers
  import Numstat
  import Seqs

  /** What the analysis records of one commit. `pct` is undefined (None)
      for the first commit and whenever the predecessor's total is not
      positive; `total` is never clamped and may be zero or negative. */
  datatype CommitRecord = CommitRecord(changed: nat, pct: Option<real>, total: int)

  /** `changed / base * 100` on exact reals: the one number that, taken
      as a percentage of `base`, gives back `changed`. */
  function Percent(changed: nat, base: int): (r: real)
    requires base > 0
    ensures r >= 0.0
    ensures r * base as real == changed as real * 100.0
  {
    var fraction := changed as real / base as real;
    assert fraction * base as real == changed as real;
    fraction * 100.0
  }

  /** Changing as many lines as the total is a 100% change. */
  lemma PercentOfSelf(n: nat)
    requires n > 0
    ensures Percent(n, n) == 100.0
  {
    var x := n as real;
    assert x / x == 1.0;
  }

  /** One iteration of the loop. `prevTotal` is None exactly when there is
      no previous commit: then the pair comes from the commit's own
      snapshot; otherwise it is the diff against the previous commit. */
  function Step(prevTotal: Option<int>, c: Numstat.Counts): (r: CommitRecord)
    ensures r.changed == c.added + c.deleted
    ensures prevTotal.None? ==> r.total == c.added && r.pct.None?
    ensures prevTotal.Some? ==>
      && r.total == prevTotal.value + c.added - c.deleted
      && (r.pct.Some? <==> prevTotal.value > 0)
      && (r.pct.Some? ==> r.pct.value * prevTotal.value as real == r.changed as real * 100.0)
  {
    match prevTotal
    case None =>
      CommitRecord(c.added + c.deleted, None, c.added)
    case Some(p) =>
      var changed := c.added + c.deleted;
      CommitRecord(changed, if p > 0 then Some(Percent(changed, p)) else None,
                   p + c.added - c.deleted)
  }

  /** Commit `i > 0` against its predecessor: the total moves by the net
      diff, and the percentage is defined exactly when the predecessor's
      total is positive, relative to that total. */
  predicate Follows(cs: seq<Numstat.Counts>, rs: seq<CommitRecord>, i: nat)
    requires 0 < i < |cs| == |rs|
  {
    && rs[i].total == rs[i - 1].total + cs[i].added - cs[i].deleted
    && rs[i].pct == if rs[i - 1].total > 0 then Some(Percent(rs[i].changed, rs[i - 1].total)) else None
  }

  /** The record sequence the analysis promises, stated commit by commit. */
  predicate Sequenced(cs: seq<Numstat.Counts>, rs: seq<CommitRecord>) {
    && |rs| == |cs|
    && (forall i :: 0 <= i < |cs| ==> rs[i].changed == cs[i].added + cs[i].deleted)
    && (|cs| > 0 ==> rs[0].total == cs[0].added && rs[0].pct == None)
    && (forall i :: 0 < i < |cs| ==> Follows(cs, rs, i))
  }

  /** The records of a whole run, one per commit, in commit order: each
      commit is one step from the total its predecessor left behind. */
  function Records(cs: seq<Numstat.Counts>): (rs: seq<CommitRecord>)
    ensures Sequenced(cs, rs)
    ensures forall i :: 0 <= i < |rs| && rs[i].pct.Some? ==> rs[i].pct.value >= 0.0
  {
    if |cs| == 0 then []
    else
      var init := Records(cs[..|cs| - 1]);
      var r := Step(if |init| == 0 then None else Some(init[|init| - 1].total), cs[|cs| - 1]);
      SequencedSnoc(cs[..|cs| - 1], init, cs[|cs| - 1], r);
      assert cs[..|cs| - 1] + [cs[|cs| - 1]] == cs;
      init + [r]
  }

  /** The loop of the analysis, with the previous total held in a variable
      that is None before the first commit. */
  method SequenceCommits(cs: seq<Numstat.Counts>) returns (rs: seq<CommitRecord>)
    ensures Sequenced(cs, rs)
  {
    rs := [];
    var prevTotal: Option<int> := None;
    var i := 0;
    while i < |cs|
      invariant 0 <= i <= |cs|
      invariant Sequenced(cs[..i], rs)
      invariant prevTotal == if i == 0 then None else Some(rs[i - 1].total)
    {
      var r := Step(prevTotal, cs[i]);
      SequencedSnoc(cs[..i], rs, cs[i], r);
      assert cs[..i] + [cs[i]] == cs[..i + 1];
      rs := rs + [r];
      prevTotal := Some(r.total);
      i := i + 1;
    }
    assert cs[..i] == cs;
  }

  /** Appending one commit extends the records by one step. */
  lemma SequencedSnoc(cs: seq<Numstat.Counts>, rs: seq<CommitRecord>, c: Numstat.Counts, r: CommitRecord)
    requires Sequenced(cs, rs)
    requires r == Step(if |rs| == 0 then None else Some(rs[|rs| - 1].total), c)
    ensures Sequenced(cs + [c], rs + [r])
  {
    var cs', rs' := cs + [c], rs + [r];
    forall i | 0 < i < |cs'|
      ensures Follows(cs', rs', i)
    {
      if i < |cs| {
        assert Follows(cs, rs, i);
      }
    }
  }

  /** The specification admits exactly one record sequence per input: the
      fold and the loop compute the same thing. */
  lemma {:induction false} SequencedUnique(cs: seq<Numstat.Counts>, rs: seq<CommitRecord>, rs': seq<CommitRecord>)
    requires Sequenced(cs, rs) && Sequenced(cs, rs')
    ensures rs == rs'
  {
    var n := |cs|;
    var k := 0;
    while k < n
      invariant 0 <= k <= n
      invariant forall j :: 0 <= j < k ==> rs[j] == rs'[j]
    {
      if k > 0 {
        assert Follows(cs, rs, k) && Follows(cs, rs', k);
      }
      assert rs[k] == CommitRecord(rs[k].changed, rs[k].pct, rs[k].total);
      assert rs'[k] == CommitRecord(rs'[k].changed, rs'[k].pct, rs'[k].total);
      k := k + 1;
    }
  }

  lemma SequenceCommitsIsRecords(cs: seq<Numstat.Counts>, rs: seq<CommitRecord>)
    requires Sequenced(cs, rs)
    ensures rs == Records(cs)
  {
    SequencedUnique(cs, rs, Records(cs));
  }

  /** The sum of `added - deleted` over a sequence of pairs. */
  function Net(cs: seq<Numstat.Counts>): int {
    if |cs| == 0 then 0 else Net(cs[..|cs| - 1]) + cs[|cs| - 1].added - cs[|cs| - 1].deleted
  }

  /** Closed form of the reconstructed total: every line ever added minus
      every line deleted, except that the first commit's deletions are never
      subtracted (its pair counts the snapshot, not a diff). */
  lemma {:induction false} TotalClosedForm(cs: seq<Numstat.Counts>, i: nat)
    requires i < |cs|
    ensures Records(cs)[i].total == Net(cs[..i + 1]) + cs[0].deleted
  {
    var rs := Records(cs);
    if i == 0 {
      assert cs[..1][..0] == [];
    } else {
      TotalClosedForm(cs, i - 1);
      assert Follows(cs, rs, i);
      Seqs.TakeOfTake(cs, i);
    }
  }

  /** A commit whose diff lists no lines changes nothing and keeps its
      predecessor's total. */
  lemma EmptyDiffKeepsTotal(cs: seq<Numstat.Counts>, rs: seq<CommitRecord>, i: nat)
    requires Sequenced(cs, rs)
    requires 0 < i < |cs| && cs[i] == Numstat.Zero
    ensures rs[i].changed == 0
    ensures rs[i].total == rs[i - 1].total
  {
    assert Follows(cs, rs, i);
  }
}
