/** The numstat parser: `git show --numstat` / `git diff --numstat` output,
    already decoded and split into lines, is reduced to the pair of summed
    added and deleted line counts. */
module Numstat {

  import Seqs

  /** Aggregate (added, deleted) line counts of one diff or snapshot. */
  datatype Counts = Counts(added: nat, deleted: nat) {
    function Plus(other: Counts): Counts {
      Counts(added + other.added, deleted + other.deleted)
    }
  }

  const Zero := Counts(0, 0)

  lemma PlusZero(c: Counts)
    ensures Zero.Plus(c) == c && c.Plus(Zero) == c
  {
  }

  const Tab: char := '\t'

  /** Joins non-empty list of fields with `sep` between neighbours. */
  function Join(fields: seq<string>, sep: char): string
    requires |fields| >= 1
  {
    if |fields| == 1 then fields[0] else fields[0] + [sep] + Join(fields[1..], sep)
  }

  /** Python's `str.split(sep)` for a single-character separator: every
      occurrence of `sep` cuts, so there is always at least one field and
      adjacent separators give empty fields. */
  function Split(s: string, sep: char): (fields: seq<string>)
    ensures |fields| >= 1
  {
    if |s| == 0 then [""]
    else
      var rest := Split(s[1..], sep);
      if s[0] == sep then [""] + rest
      else [[s[0]] + rest[0]] + rest[1..]
  }

  /** No field produced by Split contains the separator. */
  lemma {:induction false} SplitFieldsFree(s: string, sep: char)
    ensures forall i :: 0 <= i < |Split(s, sep)| ==> sep !in Split(s, sep)[i]
  {
    if |s| > 0 {
      SplitFieldsFree(s[1..], sep);
    }
  }

  /** Splitting then joining gives the line back. */
  lemma {:induction false} JoinSplit(s: string, sep: char)
    ensures Join(Split(s, sep), sep) == s
  {
    if |s| > 0 {
      var rest := Split(s[1..], sep);
      JoinSplit(s[1..], sep);
      if s[0] == sep {
        assert Split(s, sep)[1..] == rest;
      } else {
        if |rest| > 1 {
          assert Split(s, sep)[1..] == rest[1..];
        }
        assert s == [s[0]] + s[1..];
      }
    }
  }

  /** Joining separator-free fields then splitting gives the fields back. */
  lemma {:induction false} SplitJoin(fields: seq<string>, sep: char)
    requires |fields| >= 1
    requires forall i :: 0 <= i < |fields| ==> sep !in fields[i]
    ensures Split(Join(fields, sep), sep) == fields
  {
    if |fields| == 1 {
      SplitField(fields[0], [""], sep);
      assert fields[0] + [] == fields[0];
    } else {
      SplitJoin(fields[1..], sep);
      var tail := Join(fields[1..], sep);
      assert Split([sep] + tail, sep) == [""] + fields[1..] by {
        assert ([sep] + tail)[1..] == tail;
      }
      SplitField(fields[0], [""] + fields[1..], sep);
      assert fields[0] + [sep] + tail == fields[0] + ([sep] + tail);
      assert ([""] + fields[1..])[1..] == fields[1..];
      assert fields[0] + "" == fields[0];
      assert [fields[0]] + fields[1..] == fields;
    }
  }

  /** A separator-free prefix glues onto the first field of what follows. */
  lemma {:induction false} SplitField(f: string, rest: seq<string>, sep: char)
    requires sep !in f
    requires |rest| >= 1
    ensures forall t: string :: Split(t, sep) == rest ==>
      Split(f + t, sep) == [f + rest[0]] + rest[1..]
  {
    if |f| > 0 {
      SplitField(f[1..], rest, sep);
      forall t: string | Split(t, sep) == rest
        ensures Split(f + t, sep) == [f + rest[0]] + rest[1..]
      {
        assert (f + t)[1..] == f[1..] + t;
        assert [f[0]] + (f[1..] + rest[0]) == f + rest[0];
      }
    } else {
      forall t: string | Split(t, sep) == rest
        ensures Split(f + t, sep) == [f + rest[0]] + rest[1..]
      {
        assert f + t == t;
        assert f + rest[0] == rest[0];
      }
    }
  }

  predicate IsDigit(c: char) {
    '0' <= c <= '9'
  }

  /** Every character a decimal digit (vacuously true of ""). */
  predicate AllDigits(s: string) {
    |s| == 0 || (AllDigits(s[..|s| - 1]) && IsDigit(s[|s| - 1]))
  }

  /** Python's `str.isdigit()` over ASCII: non-empty and every character a
      decimal digit. */
  predicate IsDigits(s: string) {
    |s| > 0 && AllDigits(s)
  }

  /** Python's `int(s)` on a digit string: most significant digit first,
      leading zeros allowed. */
  function DigitsValue(s: string): nat
    requires AllDigits(s)
  {
    if |s| == 0 then 0
    else DigitsValue(s[..|s| - 1]) * 10 + (s[|s| - 1] as int - '0' as int)
  }

  /** The shortest decimal rendering of `n`, the inverse of DigitsValue. */
  function NatToDigits(n: nat): (s: string)
    ensures IsDigits(s)
    decreases n
  {
    if n < 10 then [('0' as int + n) as char]
    else NatToDigits(n / 10) + [('0' as int + n % 10) as char]
  }

  lemma {:induction false} DigitsRoundTrip(n: nat)
    ensures DigitsValue(NatToDigits(n)) == n
    decreases n
  {
    var s := NatToDigits(n);
    if n >= 10 {
      DigitsRoundTrip(n / 10);
      assert s[..|s| - 1] == NatToDigits(n / 10);
    }
  }

  /** The outcome of one numstat line: a counted pair, or skipped. */
  datatype LineStat = Counted(added: nat, deleted: nat) | Skipped

  /** One line: counted exactly when it has at least two tab-separated fields
      and the first two are digit strings (ParseLineCounted states this on
      the raw line). */
  function ParseLine(line: string): LineStat {
    var parts := Split(line, Tab);
    if |parts| >= 2 && IsDigits(parts[0]) && IsDigits(parts[1]) then
      Counted(DigitsValue(parts[0]), DigitsValue(parts[1]))
    else
      Skipped
  }

  /** What one line adds to the running sums: its pair, or nothing. */
  function Contribution(st: LineStat): Counts {
    match st
    case Counted(a, d) => Counts(a, d)
    case Skipped => Zero
  }

  /** Reference definition of the parser's result: the contributions of
      the lines, summed from the first line to the last. */
  function Tally(lines: seq<string>): Counts {
    if |lines| == 0 then Zero
    else Tally(lines[..|lines| - 1]).Plus(Contribution(ParseLine(lines[|lines| - 1])))
  }

  /** The summing loop of the parser: lines are visited in order and each
      counted line adds its two numbers to the running sums. */
  method ParseNumstat(lines: seq<string>) returns (added: nat, deleted: nat)
    ensures Counts(added, deleted) == Tally(lines)
  {
    added, deleted := 0, 0;
    var i := 0;
    while i < |lines|
      invariant 0 <= i <= |lines|
      invariant Counts(added, deleted) == Tally(lines[..i])
    {
      // a skipped line contributes the zero pair
      var c := Contribution(ParseLine(lines[i]));
      Seqs.TakeOfTake(lines, i);
      added, deleted := added + c.added, deleted + c.deleted;
      i := i + 1;
    }
    assert lines[..i] == lines;
  }

  /** The parser is additive over concatenation of line lists. */
  lemma {:induction false} TallyAppend(a: seq<string>, b: seq<string>)
    ensures Tally(a + b) == Tally(a).Plus(Tally(b))
    decreases |b|
  {
    if |b| == 0 {
      assert a + b == a;
    } else {
      TallyAppend(a, b[..|b| - 1]);
      Seqs.DropLastOfAppend(a, b);
    }
  }

  /** Lines that all fail the digit test leave both sums at zero; in
      particular an empty output parses to `(0, 0)`. */
  lemma {:induction false} AllSkippedTallyZero(lines: seq<string>)
    requires forall i :: 0 <= i < |lines| ==> ParseLine(lines[i]).Skipped?
    ensures Tally(lines) == Zero
  {
    if |lines| > 0 {
      AllSkippedTallyZero(lines[..|lines| - 1]);
    }
  }

  /** A skipped line contributes nothing wherever it stands. */
  lemma SkippedLineIgnored(a: seq<string>, line: string, b: seq<string>)
    requires ParseLine(line).Skipped?
    ensures Tally(a + [line] + b) == Tally(a + b)
  {
    var left := a + [line];
    TallyAppend(left, b);
    TallyAppend(a, [line]);
    TallyAppend(a, b);
    TallySingle(line);
    PlusZero(Tally(a));
  }

  /** A list of one line tallies to that line's contribution. */
  lemma TallySingle(line: string)
    ensures Tally([line]) == Contribution(ParseLine(line))
  {
    assert [line][..0] == [];
    PlusZero(Contribution(ParseLine(line)));
  }

  lemma {:induction false} DigitsHaveNoTab(s: string)
    requires AllDigits(s)
    ensures Tab !in s
  {
    if |s| > 0 {
      DigitsHaveNoTab(s[..|s| - 1]);
      assert s == s[..|s| - 1] + [s[|s| - 1]];
    }
  }

  /** A separator-free first field is cut off at the first separator. */
  lemma SplitAtSep(x: string, u: string, sep: char)
    requires sep !in x
    ensures Split(x + [sep] + u, sep) == [x] + Split(u, sep)
  {
    assert ([sep] + u)[1..] == u;
    assert Split([sep] + u, sep) == [""] + Split(u, sep);
    SplitField(x, [""] + Split(u, sep), sep);
    assert x + [sep] + u == x + ([sep] + u);
    assert ([""] + Split(u, sep))[1..] == Split(u, sep);
    assert x + "" == x;
  }

  /** A separator-free field ends where the text ends or the next separator starts. */
  lemma SplitFirstField(y: string, rest: string, sep: char)
    requires sep !in y
    requires rest == "" || rest[0] == sep
    ensures Split(y + rest, sep)[0] == y
  {
    var r := Split(rest, sep);
    if rest != "" {
      assert r == [""] + Split(rest[1..], sep);
    }
    SplitField(y, r, sep);
    assert y + "" == y;
  }

  /** The shape of a counted line: a digit string, a tab, a digit string,
      then either the end of the line or a tab and anything at all. */
  predicate NumstatShape(line: string, x: string, y: string, rest: string) {
    && line == x + [Tab] + y + rest
    && IsDigits(x) && IsDigits(y)
    && (rest == "" || rest[0] == Tab)
  }

  lemma ShapedLineCounted(line: string, x: string, y: string, rest: string)
    requires NumstatShape(line, x, y, rest)
    ensures ParseLine(line) == Counted(DigitsValue(x), DigitsValue(y))
  {
    DigitsHaveNoTab(x);
    DigitsHaveNoTab(y);
    assert line == x + [Tab] + (y + rest);
    SplitAtSep(x, y + rest, Tab);
    SplitFirstField(y, rest, Tab);
  }

  lemma CountedLineShaped(line: string)
    requires ParseLine(line).Counted?
    ensures exists x, y, rest ::
      NumstatShape(line, x, y, rest) && ParseLine(line) == Counted(DigitsValue(x), DigitsValue(y))
  {
    var f := Split(line, Tab);
    JoinSplit(line, Tab);
    var rest := if |f| == 2 then "" else [Tab] + Join(f[2..], Tab);
    assert Join(f[1..], Tab) == f[1] + rest by {
      if |f| > 2 {
        assert f[1..][1..] == f[2..];
      }
    }
    assert line == f[0] + [Tab] + f[1] + rest;
    assert NumstatShape(line, f[0], f[1], rest);
  }

  /** A line is counted as `(a, d)` exactly when it is two digit strings
      spelling `a` and `d`, separated by a tab and followed by the end of the
      line or by a tab and anything else (the path; fields after the second
      are never looked at). */
  lemma ParseLineCounted(line: string, a: nat, d: nat)
    ensures ParseLine(line) == Counted(a, d) <==>
      exists x, y, rest ::
        NumstatShape(line, x, y, rest) && a == DigitsValue(x) && d == DigitsValue(y)
  {
    if ParseLine(line) == Counted(a, d) {
      CountedLineShaped(line);
    }
    if exists x, y, rest :: NumstatShape(line, x, y, rest) && a == DigitsValue(x) && d == DigitsValue(y) {
      var x, y, rest :| NumstatShape(line, x, y, rest) && a == DigitsValue(x) && d == DigitsValue(y);
      ShapedLineCounted(line, x, y, rest);
    }
  }

  /** A single well-formed line `<added>\t<deleted>\t<path>` counts its two
      numbers, whatever the path holds. */
  lemma CountedLine(added: nat, deleted: nat, path: string)
    ensures ParseLine(NatToDigits(added) + [Tab] + NatToDigits(deleted) + [Tab] + path)
         == Counted(added, deleted)
  {
    var x, y := NatToDigits(added), NatToDigits(deleted);
    assert x + [Tab] + y + [Tab] + path == x + [Tab] + y + ([Tab] + path);
    ShapedLineCounted(x + [Tab] + y + [Tab] + path, x, y, [Tab] + path);
    DigitsRoundTrip(added);
    DigitsRoundTrip(deleted);
  }

  /** A binary file's `-\t-\t<path>` line is skipped. */
  lemma BinaryLineSkipped(path: string)
    ensures ParseLine("-\t-\t" + path).Skipped?
  {
    assert "-\t-\t" + path == "-" + [Tab] + ("-\t" + path);
    SplitAtSep("-", "-\t" + path, Tab);
    assert !IsDigit('-');
  }

  lemma TallyThree(l1: string, l2: string, l3: string)
    ensures Tally([l1, l2, l3]) ==
      Contribution(ParseLine(l1)).Plus(Contribution(ParseLine(l2))).Plus(Contribution(ParseLine(l3)))
  {
    assert [l1, l2, l3] == [l1, l2] + [l3];
    assert [l1, l2] == [l1] + [l2];
    TallyAppend([l1, l2], [l3]);
    TallyAppend([l1], [l2]);
    TallySingle(l1);
    TallySingle(l2);
    TallySingle(l3);
  }

  /** For example, the output `3\t1\t<p1>`, `-\t-\t<p2>`, `5\t0\t<p3>` (two
      text files and one binary file, whatever their paths) sums to 8 lines
      added and 1 deleted. */
  lemma ExampleDiff(p1: string, p2: string, p3: string)
    ensures Tally(["3\t1\t" + p1, "-\t-\t" + p2, "5\t0\t" + p3]) == Counts(8, 1)
  {
    var l1, l2, l3 := "3\t1\t" + p1, "-\t-\t" + p2, "5\t0\t" + p3;
    assert ParseLine(l1) == Counted(3, 1) by {
      CountedLine(3, 1, p1);
      assert l1 == NatToDigits(3) + [Tab] + NatToDigits(1) + [Tab] + p1;
    }
    assert ParseLine(l3) == Counted(5, 0) by {
      CountedLine(5, 0, p3);
      assert l3 == NatToDigits(5) + [Tab] + NatToDigits(0) + [Tab] + p3;
    }
    assert ParseLine(l2).Skipped? by {
      BinaryLineSkipped(p2);
    }
    TallyThree(l1, l2, l3);
  }
}
