# git-detective: per-commit change statistics and outlier labels, in Dafny

This project models the pure pipeline inside `analyze_repo.py`, with git replaced by inputs:

1. **Numstat parsing** (`parse_numstat`).
   - `git --numstat` output is a list of lines `<added>\t<deleted>\t<path>`.
   - A line counts when its first two tab-separated fields are both non-empty digit strings.
   - Every other line is skipped, for example a binary file's `-\t-\t<path>`.
2. **Commit sequencing** (the loop in `analyze`).
   - Each commit's `(added, deleted)` pair becomes a record `(changed, pct, total)`.
   - The first pair is the root commit's own listing; each later pair is the diff against the predecessor.
   - `total` is threaded from one commit to the next.
3. **Quartiles** (the Q1/Q3/IQR part of `calculate_statistics`).
   - The defined percentages are collected in commit order.
   - Q1 and Q3 use numpy's default linear-interpolation percentile over the sorted samples.
   - All three values are 0 when there are no samples.
4. **Classification** (`detect_ai_contribution`).
   - "N/A" when the run has no samples.
   - Otherwise a one-sided Tukey fence above Q3: "Likely AI" beyond 3 IQR, "Possible AI" beyond 1.5 IQR, else "Likely Human".
   - Both fences are strict.

Modules, one per file:

- `Numstat` (`numstat.dfy`): tab splitting with a `Split`/`Join` round trip, digit strings, the per-line outcome `LineStat` (`Counted(a, d)` or `Skipped`) and its characterisation on the raw line. Also the reference sum `Tally` and the summing loop `ParseNumstat`.
- `Sequencer` (`sequencer.dfy`): `CommitRecord`, the one-commit `Step`, the records of a run `Records` (defined one commit at a time) with their commit-by-commit specification `Sequenced`, and the loop `SequenceCommits`.
- `Quartiles` (`quartiles.dfy`): insertion `Sort`, the linear `Percentile`, `Samples`, `Summarize` and `Statistics`.
- `Classifier` (`classifier.dfy`): `Label` and `Classify`.
- `Analysis` (`analysis.dfy`): `Analyze`, which labels every record of a run against the run's statistics.
- `Wrappers` and `Seqs` are small helpers: `Option`, and two slicing facts.

Percentages and quartiles are exact `real`s. Line counts are unbounded integers, since Python integers do not overflow.

Two behaviours of the code are reproduced on purpose:

- **The classifier uses the commit's own total.** The label is computed from `changes / total * 100`, where `total` is the commit's post-change total (`analyze_repo.py:46`, `:159`). The recorded `pct` uses the predecessor's total instead. `Analysis.OwnTotalQuirk` shows the two differ.
- **The total is never clamped.** `total = prev_total + added - deleted` can reach zero or go negative (`analyze_repo.py:139`), so `CommitRecord.total` is an `int`. The next commit's percentage is then undefined (`analyze_repo.py:140`). `Analysis.NegativeTotal` shows such a run.

One further fact about the code shapes the data model: **an empty run has no statistics.** `calculate_statistics` returns `{}` for an empty list of commits (`analyze_repo.py:66-67`), not a dictionary of zeroed fields. `Quartiles.Statistics` returns `None` and `Analysis.Analyze` returns no rows.

## Model

| member | source | states |
|---|---|---|
| Numstat.JoinSplit | analyze_repo.py:28 | splitting a line on tabs loses nothing: joining the fields with tabs gives back the line |
| Numstat.SplitJoin | analyze_repo.py:28 | fields without tabs, once joined with tabs, split back into exactly those fields |
| Numstat.SplitFieldsFree | analyze_repo.py:28 | no field produced by the tab split contains a tab |
| Numstat.DigitsRoundTrip | analyze_repo.py:30-31 | `int()` of the decimal spelling of any natural number is that number |
| Numstat.NatToDigits | analyze_repo.py:29 | every natural number is spelled by a non-empty string of ASCII digits |
| Numstat.DigitsHaveNoTab | analyze_repo.py:28-29 | a digit string contains no tab, so it survives the split as one field |
| Numstat.SplitAtSep | analyze_repo.py:28 | a tab-free first field is cut off at the first tab, and the rest of the line splits on its own |
| Numstat.ParseLineCounted | analyze_repo.py:28-31 | a line is counted as (a, d) if and only if it is a non-empty digit string spelling a, a tab, a non-empty digit string spelling d, and then either the end of the line or a tab followed by anything |
| Numstat.ParseNumstat | analyze_repo.py:24-32 | the loop's two running sums equal the reference tally: the sum of both fields over counted lines only |
| Numstat.TallyAppend | analyze_repo.py:25-31 | parse(A ++ B) = parse(A) + parse(B), componentwise |
| Numstat.AllSkippedTallyZero | analyze_repo.py:25-32 | output whose lines all fail the digit test, including empty output, parses to (0, 0) |
| Numstat.SkippedLineIgnored | analyze_repo.py:29 | deleting a skipped line from anywhere in the output does not change the result |
| Numstat.TallySingle | analyze_repo.py:27-31 | a one-line output parses to that line's contribution |
| Numstat.CountedLine | analyze_repo.py:29-31 | the line `<a>\t<d>\t<path>` is counted with exactly the values a and d, whatever the path holds |
| Numstat.BinaryLineSkipped | analyze_repo.py:29 | a binary file's `-\t-\t<path>` line is skipped, whatever the path holds |
| Numstat.TallyThree | analyze_repo.py:27-31 | a three-line output parses to the sum of the three line contributions |
| Numstat.ExampleDiff | analyze_repo.py:24-32 | `3\t1\t…`, `-\t-\t…`, `5\t0\t…` parse to (8, 1) whatever the paths |
| Sequencer.Percent | analyze_repo.py:140 | the percentage is non-negative and is the one number that, taken as a percentage of the base, gives back the changed count |
| Sequencer.Step | analyze_repo.py:128-140 | changed = added + deleted; with no predecessor, total = added and no percentage; otherwise total = previous total + added − deleted, and a percentage exists exactly when the previous total is positive, and is the changed count as a percentage of that total |
| Sequencer.Records | analyze_repo.py:124-151 | first record: changed = added + deleted, total = added, no percentage; later records: changed = added + deleted, total = previous total + added − deleted, and the percentage is defined exactly when the previous total is positive, as changed / previous total × 100; every defined percentage is non-negative |
| Sequencer.SequenceCommits | analyze_repo.py:115-151 | the loop that threads `prev_total` produces records meeting the same commit-by-commit specification |
| Sequencer.SequencedSnoc | analyze_repo.py:142-150 | appending the next step's record keeps the record list well-formed |
| Sequencer.SequencedUnique | analyze_repo.py:124-151 | the commit-by-commit specification determines the records completely |
| Sequencer.SequenceCommitsIsRecords | analyze_repo.py:124-151 | the loop's records are those of the fold |
| Sequencer.TotalClosedForm | analyze_repo.py:132-139 | total[i] is every line added so far minus every line deleted since the root commit |
| Sequencer.EmptyDiffKeepsTotal | analyze_repo.py:136-139 | in any correctly sequenced run, a commit whose diff lists no lines has changed = 0 and keeps its predecessor's total |
| Quartiles.Insert | analyze_repo.py:73-75 | inserting into a sorted list adds exactly that element |
| Quartiles.InsertSorted | analyze_repo.py:73-75 | inserting into a sorted list keeps it sorted |
| Quartiles.Sort | analyze_repo.py:73-75 | the samples are sorted, and form a permutation of the input, before interpolation |
| Quartiles.InsertAtEnd | analyze_repo.py:73-75 | a value no smaller than anything in a sorted list is inserted at its end, ties included |
| Quartiles.SortSorted | analyze_repo.py:73-75 | sorting samples that are already in ascending order (ties allowed) leaves them unchanged |
| Quartiles.LowerRank | analyze_repo.py:74-75 | the lower order statistic is the floor of the virtual index q·(n−1), and lies within the sample |
| Quartiles.UpperRank | analyze_repo.py:74-75 | the upper order statistic used for interpolation lies within the sample, at or after the lower one |
| Quartiles.Percentile | analyze_repo.py:74-75 | the interpolated percentile lies between the two order statistics either side of the virtual index |
| Quartiles.PercentileMonotone | analyze_repo.py:74-76 | a larger fraction never gives a smaller percentile, so Q1 ≤ Q3 |
| Quartiles.PercentileAtWholeIndex | analyze_repo.py:74-75 | at a whole virtual index the percentile is that order statistic |
| Quartiles.Samples | analyze_repo.py:70 | every defined percentage is a sample, and every sample is some commit's defined percentage |
| Quartiles.SamplesAppend | analyze_repo.py:70 | samples of concatenated runs concatenate, so samples keep commit order |
| Quartiles.Summarize | analyze_repo.py:73-76 | iqr = q3 − q1, q1 ≤ q3 and iqr ≥ 0; with no samples all three are 0; otherwise some sample is ≤ Q1 and some sample is ≥ Q3 |
| Quartiles.Statistics | analyze_repo.py:64-89 | no statistics exactly for an empty run; otherwise the samples are the run's defined percentages, iqr = q3 − q1 with q1 ≤ q3, both quartiles are 0 with no samples and otherwise the linear percentiles at 25% and 75% of the sorted samples, and Q1 is not negative when no percentage is |
| Quartiles.SortedEnds | analyze_repo.py:73-75 | the smallest and largest sorted values are samples |
| Quartiles.SingleSample | analyze_repo.py:74-76 | one sample is both quartiles, so IQR = 0 |
| Quartiles.QuartilesOfTwo | analyze_repo.py:74-75 | for samples a ≤ b: Q1 = a + (b−a)/4 and Q3 = a + 3(b−a)/4 |
| Quartiles.QuartilesOfThree | analyze_repo.py:74-75 | for samples a ≤ b ≤ c: Q1 is midway between a and b, Q3 midway between b and c |
| Quartiles.StatisticsOfAscending | analyze_repo.py:70-76 | with samples already in ascending order, the run's quartiles are the percentiles of the samples as they stand |
| Quartiles.StatisticsOfTwo | analyze_repo.py:70-76 | a run with samples a ≤ b has Q1 = a + (b−a)/4 and Q3 = a + 3(b−a)/4 |
| Quartiles.StatisticsOfThree | analyze_repo.py:70-76 | a run with samples a ≤ b ≤ c has Q1 = (a+b)/2 and Q3 = (b+c)/2 |
| Classifier.OwnPct | analyze_repo.py:46 | the classifier's percentage is never negative; with a positive total it is the changes as a percentage of the commit's own total, otherwise 0 |
| Classifier.Classify | analyze_repo.py:35-61 | "N/A" if and only if there are no samples; with samples and IQR ≤ 0 always "Likely Human"; with IQR > 0, "Likely AI" iff the own-total percentage exceeds Q3 + 3 IQR, "Possible AI" iff it exceeds Q3 + 1.5 IQR but not Q3 + 3 IQR, otherwise "Likely Human" (both fences strict) |
| Classifier.DivAbove | analyze_repo.py:54-58 | dividing by a positive IQR keeps "more than c IQRs above Q3" equivalent to "above Q3 + c·IQR" |
| Classifier.SmallChangesNeverFlagged | analyze_repo.py:52-61 | a percentage at or below Q3 is never flagged, since the test is one-sided |
| Classifier.OwnPctMonotone | analyze_repo.py:46 | for a fixed total, more changes never give a smaller own-total percentage |
| Classifier.ClassifyMonotone | analyze_repo.py:46-61 | for a fixed total and fixed statistics, the label's severity is non-decreasing in the number of changes |
| Classifier.ExampleLabels | analyze_repo.py:52-61 | with Q3 = 10 and IQR = 4: 10% is human, 17% possible AI, 23% likely AI |
| Analysis.Analyze | analyze_repo.py:124-159 | one row per commit whose records meet the commit-by-commit specification of the sequencing loop; a commit is "N/A" exactly when no commit but the last leaves a positive total, so "N/A" covers the whole run or none of it, not only the first commit; otherwise each commit is labelled from its own changes and total against the statistics of the whole run |
| Analysis.NoSamplesIffNoPositiveTotal | analyze_repo.py:140 | in any correctly sequenced run, there are no samples exactly when no commit before the last has a positive total |
| Analysis.QuartilesNonNegative | analyze_repo.py:70-76 | a non-empty run's quartiles satisfy 0 ≤ Q1 ≤ Q3 |
| Analysis.OwnTotalQuirk | analyze_repo.py:46 | after two 100-line additions the second commit is recorded as a 100% change but classified as a 50% change |
| Analysis.NegativeTotal | analyze_repo.py:139-140 | deletions past an empty snapshot drive the total negative, leaving every percentage undefined and every commit "N/A" |
| Analysis.SamplesOfThree | analyze_repo.py:70 | the samples of a three-commit run are its two later percentages |
| Analysis.SamplesOfFour | analyze_repo.py:70 | the samples of a four-commit run are its three later percentages |
| Analysis.EarlyRunRecords | analyze_repo.py:128-140 | records of the run n added, nothing, m added |
| Analysis.EarlyRun | analyze_repo.py:153-159 | in that run the root commit is "Likely AI" when 0 < m and m is under 40% of n |
| Analysis.LaterRunRecords | analyze_repo.py:128-140 | records of the same run extended by a commit adding k |
| Analysis.LaterCommitChangesEarlierLabel | analyze_repo.py:153-159 | a later commit of at least 200% turns the root commit's label into "Likely Human": statistics are run-wide, so a label depends on later commits |

## Left out

- Git access is replaced by inputs: `run_git`, `clone`, `rev-list`, `show`, `diff` and the temporary directory. Each commit's numstat output, or its `(added, deleted)` pair, is an input.
- The parser's input is a list of already decoded lines. UTF-8 decoding with `errors='ignore'` and bytes `splitlines` are left out.
- `str.isdigit` is modelled for ASCII `0`–`9` only. Other Unicode digits, which `isdigit` accepts and `int()` may reject, are left out.
- The commit date and the `commit[:10]` display truncation are left out. They are pass-through strings.
- The mean, median and standard deviation fields of the statistics are left out. They are informational and the classifier does not use them.
- `print_statistics`, the `tabulate` tables and the `pct_str` formatting are left out. They are presentation.
- The command line (`argparse`, `main`, exit codes on `CalledProcessError`) is left out.
- Python and numpy compute in IEEE doubles. The model uses exact reals, so rounding at the fence boundaries is not modelled.
