/**
 * A frequency counter over text lines. Bins are kept in the order they were
 * first seen, in a list that only grows, beside a map from bin to count;
 * writing draws one bar per bin, scaled so the largest count spans the
 * terminal's 80 columns.
 */
module Histogram {
  import opened Wrappers

  /** Width of the terminal the bars are scaled to. */
  const Columns: int := 80

  /** No two positions of `s` hold the same element. */
  predicate NoDuplicates(s: seq<string>)
  {
    forall i, j :: 0 <= i < j < |s| ==> s[i] != s[j]
  }

  /** One printed line of the histogram: the bin, the length of its bar of '#', and its count. */
  datatype BarRow = BarRow(bin: string, bar: nat, count: int)

  /** Writing fails on an empty histogram (maximum of nothing) and when the largest count is zero. */
  datatype WriteError = EmptyHistogram | ZeroDivision

  /** Integer division rounding toward negative infinity, as Python 2's `/` on integers. */
  function FloorDiv(a: int, b: int): (q: int)
    requires b != 0
    ensures b > 0 ==> q * b <= a < q * b + b
    ensures b < 0 ==> q * b >= a > q * b + b
  {
    if b > 0 then a / b else (-a) / (-b)
  }

  /**
   * The bar length for a bin with `count` when the largest count is
   * `maxvalue`: the floor of 80 * count / maxvalue, and no bar at all when
   * that is negative (repeating a string a negative number of times gives the
   * empty string).
   */
  function BarLength(count: int, maxvalue: int): (n: nat)
    requires maxvalue != 0
    ensures maxvalue > 0 && count >= 0 ==> n * maxvalue <= Columns * count < n * maxvalue + maxvalue
    ensures (maxvalue > 0 && count <= 0) || (maxvalue < 0 && count >= 0) ==> n == 0
    ensures maxvalue < 0 && count < 0 ==> n * maxvalue >= Columns * count > n * maxvalue + maxvalue
  {
    var q := FloorDiv(Columns * count, maxvalue);
    if q < 0 then 0 else q
  }

  /** The largest count among `bins`. */
  function MaxValue(bins: seq<string>, counts: map<string, int>): int
    requires |bins| > 0
    requires forall b :: b in bins ==> b in counts
    decreases |bins|
  {
    var last := counts[bins[|bins| - 1]];
    if |bins| == 1 then last
    else
      var prefix := bins[..|bins| - 1];
      assert forall b :: b in prefix ==> b in bins;
      var m := MaxValue(prefix, counts);
      if m > last then m else last
  }

  /** MaxValue bounds every bin's count and is the count of some bin. */
  lemma {:induction false} MaxValueBounds(bins: seq<string>, counts: map<string, int>)
    requires |bins| > 0
    requires forall b :: b in bins ==> b in counts
    ensures forall i :: 0 <= i < |bins| ==> counts[bins[i]] <= MaxValue(bins, counts)
    ensures exists i :: 0 <= i < |bins| && counts[bins[i]] == MaxValue(bins, counts)
    decreases |bins|
  {
    if |bins| > 1 {
      var prefix := bins[..|bins| - 1];
      assert forall b :: b in prefix ==> b in bins;
      MaxValueBounds(prefix, counts);
      var k :| 0 <= k < |prefix| && counts[prefix[k]] == MaxValue(prefix, counts);
      if MaxValue(prefix, counts) > counts[bins[|bins| - 1]] {
        assert bins[k] == prefix[k];
      } else {
        assert counts[bins[|bins| - 1]] == MaxValue(bins, counts);
      }
      forall i | 0 <= i < |bins|
        ensures counts[bins[i]] <= MaxValue(bins, counts)
      {
        if i < |prefix| {
          assert bins[i] == prefix[i];
        }
      }
    } else {
      assert counts[bins[0]] == MaxValue(bins, counts);
    }
  }

  /** What writing prints: one row per bin, in the order of `bins`, or the error raised. */
  function Rows(bins: seq<string>, counts: map<string, int>): (r: Result<seq<BarRow>, WriteError>)
    requires forall b :: b in bins ==> b in counts
  {
    if bins == [] then Failure(EmptyHistogram)
    else
      var m := MaxValue(bins, counts);
      if m == 0 then Failure(ZeroDivision)
      else Success(seq(|bins|, i requires 0 <= i < |bins| =>
        BarRow(bins[i], BarLength(counts[bins[i]], m), counts[bins[i]])))
  }

  class Histogram {
    /** The bins in the order they were first added. */
    var bins: seq<string>
    var counts: map<string, int>

    ghost predicate Valid()
      reads this
    {
      && NoDuplicates(bins)
      && forall b :: b in counts <==> b in bins
    }

    constructor ()
      ensures Valid() && bins == [] && counts == map[]
    {
      bins := [];
      counts := map[];
    }

    /** Raises the count of `bin` by `delta`, appending `bin` to the bins if it is new. */
    method Add(bin: string, delta: int)
      requires Valid()
      modifies this
      ensures Valid()
      ensures bin in old(counts) ==> bins == old(bins) && counts == old(counts)[bin := old(counts)[bin] + delta]
      ensures bin !in old(counts) ==> bins == old(bins) + [bin] && counts == old(counts)[bin := delta]
      ensures forall b :: b != bin ==> (b in counts <==> b in old(counts))
      ensures forall b :: b != bin && b in counts ==> counts[b] == old(counts)[b]
      ensures (bins, counts) == Added((old(bins), old(counts)), bin, delta)
    {
      if bin in counts {
        counts := counts[bin := counts[bin] + delta];
      } else {
        bins := bins + [bin];
        counts := counts[bin := delta];
      }
    }

    /** The largest count, found by one pass over the bins. */
    method LargestCount() returns (maxvalue: int)
      requires Valid() && bins != []
      ensures maxvalue == MaxValue(bins, counts)
    {
      maxvalue := counts[bins[0]];
      var i := 1;
      while i < |bins|
        invariant 1 <= i <= |bins|
        invariant maxvalue == MaxValue(bins[..i], counts)
      {
        assert bins[..i + 1][..i] == bins[..i];
        if counts[bins[i]] > maxvalue {
          maxvalue := counts[bins[i]];
        }
        i := i + 1;
      }
      assert bins[..i] == bins;
    }

    /** Computes the rows to print: finds the largest count, then scales each bin's bar to it. */
    method Write() returns (r: Result<seq<BarRow>, WriteError>)
      requires Valid()
      ensures r == Rows(bins, counts)
      ensures r.Success? ==> |r.value| == |bins| && forall i :: 0 <= i < |bins| ==> r.value[i].bin == bins[i]
    {
      if bins == [] {
        return Failure(EmptyHistogram);
      }
      var maxvalue := LargestCount();
      if maxvalue == 0 {
        return Failure(ZeroDivision);
      }
      var rows: seq<BarRow> := [];
      var i := 0;
      while i < |bins|
        invariant 0 <= i <= |bins|
        invariant |rows| == i
        invariant forall j :: 0 <= j < i ==>
          rows[j] == BarRow(bins[j], BarLength(counts[bins[j]], maxvalue), counts[bins[j]])
      {
        rows := rows + [BarRow(bins[i], BarLength(counts[bins[i]], maxvalue), counts[bins[i]])];
        i := i + 1;
      }
      ghost var expected := Rows(bins, counts);
      assert expected.Success? && |expected.value| == |rows|;
      assert forall j :: 0 <= j < |rows| ==> rows[j] == expected.value[j];
      assert rows == expected.value;
      r := Success(rows);
    }
  }

  /** Multiplying by a non-negative number keeps the order. */
  lemma MulMonotone(a: int, b: int, m: int)
    requires a <= b && m >= 0
    ensures a * m <= b * m
  {
    assert b * m - a * m == (b - a) * m;
  }

  /** For positive counts up to the maximum, bars span at most 80 columns, and exactly 80 for the largest count. */
  lemma BarLengthScaled(count: int, maxvalue: int)
    requires 0 < count <= maxvalue
    ensures BarLength(count, maxvalue) <= Columns
    ensures BarLength(count, maxvalue) == Columns <==> count == maxvalue
  {
    var a := Columns * count;
    var q := FloorDiv(a, maxvalue);
    assert q * maxvalue <= a < q * maxvalue + maxvalue;
    if count < maxvalue {
      MulMonotone(count, maxvalue - 1, Columns);
      assert a <= Columns * maxvalue - Columns;
      if q >= Columns {
        MulMonotone(Columns, q, maxvalue);
        assert false;
      }
    } else {
      assert a == Columns * maxvalue;
      if q >= Columns + 1 {
        MulMonotone(Columns + 1, q, maxvalue);
        assert false;
      }
      if q <= Columns - 1 {
        MulMonotone(q, Columns - 1, maxvalue);
        assert false;
      }
    }
  }

  /**
   * When every count is positive, writing succeeds, no bar exceeds 80
   * columns, and some bin, one with the largest count, gets exactly 80.
   */
  lemma RowsFullWidth(bins: seq<string>, counts: map<string, int>)
    requires |bins| > 0
    requires forall b :: b in bins ==> b in counts && counts[b] > 0
    ensures Rows(bins, counts).Success?
    ensures forall i :: 0 <= i < |bins| ==> Rows(bins, counts).value[i].bar <= Columns
    ensures exists i :: 0 <= i < |bins| && Rows(bins, counts).value[i].bar == Columns
  {
    var m := MaxValue(bins, counts);
    MaxValueBounds(bins, counts);
    var k :| 0 <= k < |bins| && counts[bins[k]] == m;
    assert counts[bins[k]] > 0;
    forall i | 0 <= i < |bins|
      ensures Rows(bins, counts).value[i].bar <= Columns
    {
      BarLengthScaled(counts[bins[i]], m);
    }
    BarLengthScaled(m, m);
    assert Rows(bins, counts).value[k].bar == Columns;
  }

  // ---------------------------------------------------------------------------
  // Counting lines

  predicate IsLineBreak(c: char)
  {
    c == '\n' || c == '\r'
  }

  /** The length of the run of line breaks that starts `s`. */
  function LeadingBreaks(s: string): (n: nat)
    ensures n <= |s|
    ensures forall k :: 0 <= k < n ==> IsLineBreak(s[k])
    ensures n == |s| || !IsLineBreak(s[n])
    decreases |s|
  {
    if s != [] && IsLineBreak(s[0]) then 1 + LeadingBreaks(s[1..]) else 0
  }

  /** The length of the run of line breaks that ends `s`. */
  function TrailingBreaks(s: string): (n: nat)
    ensures n <= |s|
    ensures forall k :: |s| - n <= k < |s| ==> IsLineBreak(s[k])
    ensures n == |s| || !IsLineBreak(s[|s| - n - 1])
    decreases |s|
  {
    if s != [] && IsLineBreak(s[|s| - 1]) then 1 + TrailingBreaks(s[..|s| - 1]) else 0
  }

  /**
   * A line with every leading and trailing '\n' and '\r' removed: the slice
   * between its leading and its trailing run of line breaks.
   */
  function StripLineBreaks(s: string): (r: string)
    ensures LeadingBreaks(s) + |r| <= |s|
    ensures r == [] || (!IsLineBreak(r[0]) && !IsLineBreak(r[|r| - 1]))
    ensures r == s[LeadingBreaks(s)..LeadingBreaks(s) + |r|]
    ensures forall k :: 0 <= k < |s| && !(LeadingBreaks(s) <= k < LeadingBreaks(s) + |r|) ==> IsLineBreak(s[k])
  {
    var rest := s[LeadingBreaks(s)..];
    rest[..|rest| - TrailingBreaks(rest)]
  }

  /** Each input line stripped of its line breaks. */
  function StripAll(input: seq<string>): seq<string>
  {
    seq(|input|, i requires 0 <= i < |input| => StripLineBreaks(input[i]))
  }

  /** How many times `x` occurs in `xs`. */
  function Occurrences(xs: seq<string>, x: string): nat
    decreases |xs|
  {
    if xs == [] then 0
    else Occurrences(xs[..|xs| - 1], x) + (if xs[|xs| - 1] == x then 1 else 0)
  }

  /** The distinct elements of `xs`, each at the position of its first occurrence. */
  function FirstSeen(xs: seq<string>): (r: seq<string>)
    ensures NoDuplicates(r)
    ensures forall x :: x in r <==> x in xs
    decreases |xs|
  {
    if xs == [] then []
    else
      var prefix := xs[..|xs| - 1];
      var p := FirstSeen(prefix);
      assert forall x :: x in prefix ==> x in xs;
      assert forall x :: x in xs ==> x in prefix || x == xs[|xs| - 1];
      if xs[|xs| - 1] in p then p else p + [xs[|xs| - 1]]
  }

  /** The index of the first occurrence of `x` in `xs`. */
  function FirstIndex(xs: seq<string>, x: string): (r: nat)
    requires x in xs
    ensures r < |xs| && xs[r] == x
    ensures forall j :: 0 <= j < r ==> xs[j] != x
    decreases |xs|
  {
    if xs[0] == x then 0 else 1 + FirstIndex(xs[1..], x)
  }

  /** Every element occurs at least once; no other string does. */
  lemma {:induction false} OccurrencesPositive(xs: seq<string>, x: string)
    ensures Occurrences(xs, x) > 0 <==> x in xs
    decreases |xs|
  {
    if xs != [] {
      var prefix := xs[..|xs| - 1];
      OccurrencesPositive(prefix, x);
      assert x in xs <==> x in prefix || x == xs[|xs| - 1];
    }
  }

  /** The bins of FirstSeen appear in the order of their first occurrences. */
  lemma {:induction false} FirstSeenOrder(xs: seq<string>)
    ensures forall i, j :: 0 <= i < j < |FirstSeen(xs)| ==>
      FirstIndex(xs, FirstSeen(xs)[i]) < FirstIndex(xs, FirstSeen(xs)[j])
    decreases |xs|
  {
    if xs != [] {
      var prefix := xs[..|xs| - 1];
      var p := FirstSeen(prefix);
      FirstSeenOrder(prefix);
      forall x | x in prefix
        ensures FirstIndex(xs, x) == FirstIndex(prefix, x)
      {
        var k := FirstIndex(prefix, x);
        assert xs[k] == x;
        var r := FirstIndex(xs, x);
        assert r <= k;
        assert prefix[r] == x;
      }
      var r := FirstSeen(xs);
      forall i, j | 0 <= i < j < |r|
        ensures FirstIndex(xs, r[i]) < FirstIndex(xs, r[j])
      {
        assert r[i] == p[i];
        if j < |p| {
          assert r[j] == p[j];
        } else {
          assert r[j] == xs[|xs| - 1] && r[j] !in prefix;
          assert FirstIndex(xs, r[j]) == |xs| - 1;
        }
      }
    }
  }

  /** `bins` and `counts` are what adding each of `lines` once produces. */
  ghost predicate Tallied(lines: seq<string>, bins: seq<string>, counts: map<string, int>)
  {
    && bins == FirstSeen(lines)
    && (forall s :: s in counts <==> s in lines)
    && (forall s :: s in counts ==> counts[s] == Occurrences(lines, s))
  }

  /** Adding the last line with a count of one to the tally of the lines before it gives the tally of all of them. */
  lemma TalliedExtend(lines: seq<string>, bins: seq<string>, counts: map<string, int>)
    requires |lines| > 0
    requires Tallied(lines[..|lines| - 1], bins, counts)
    ensures var after := Added((bins, counts), lines[|lines| - 1], 1);
      Tallied(lines, after.0, after.1)
  {
    var prefix, line := lines[..|lines| - 1], lines[|lines| - 1];
    var after := Added((bins, counts), line, 1);
    assert forall s :: s in lines <==> s in prefix || s == line;
    forall s | s in after.1
      ensures after.1[s] == Occurrences(lines, s)
    {
      if s == line && line !in counts {
        OccurrencesPositive(prefix, s);
      }
    }
  }

  /** The bins and counts after adding `delta` to `bin`, as Add does in place. */
  function Added(state: (seq<string>, map<string, int>), bin: string, delta: int): (seq<string>, map<string, int>)
  {
    var (bins, counts) := state;
    if bin in counts then (bins, counts[bin := counts[bin] + delta])
    else (bins + [bin], counts[bin := delta])
  }

  /** The bins and counts after adding each of `lines` once, in order, to an empty histogram. */
  function TallyOf(lines: seq<string>): (seq<string>, map<string, int>)
    decreases |lines|
  {
    if lines == [] then ([], map[])
    else Added(TallyOf(lines[..|lines| - 1]), lines[|lines| - 1], 1)
  }

  /** Adding the lines one by one lists each distinct line once, in order of first occurrence, with its number of occurrences. */
  lemma {:induction false} TallyOfCounts(lines: seq<string>)
    ensures Tallied(lines, TallyOf(lines).0, TallyOf(lines).1)
    decreases |lines|
  {
    if lines != [] {
      var prefix := lines[..|lines| - 1];
      TallyOfCounts(prefix);
      TalliedExtend(lines, TallyOf(prefix).0, TallyOf(prefix).1);
    }
  }

  /** Adds every input line, stripped of its line breaks, to a fresh histogram with a count of one. */
  method CountLines(input: seq<string>) returns (h: Histogram)
    ensures fresh(h) && h.Valid()
    ensures (h.bins, h.counts) == TallyOf(StripAll(input))
  {
    ghost var lines := StripAll(input);
    h := new Histogram();
    var i := 0;
    while i < |input|
      invariant 0 <= i <= |input|
      invariant fresh(h) && h.Valid()
      invariant (h.bins, h.counts) == TallyOf(lines[..i])
    {
      var line := StripLineBreaks(input[i]);
      assert lines[..i + 1][..i] == lines[..i] && lines[i] == line;
      h.Add(line, 1);
      i := i + 1;
    }
    assert lines[..i] == lines;
  }

  /**
   * Counts the input lines, then computes what writing the histogram would
   * print. Returns the histogram's final bins and counts beside the rows.
   */
  method Tally(input: seq<string>) returns (bins: seq<string>, counts: map<string, int>, rows: Result<seq<BarRow>, WriteError>)
    ensures bins == FirstSeen(StripAll(input))
    ensures forall s :: s in counts <==> s in StripAll(input)
    ensures forall s :: s in counts ==> counts[s] == Occurrences(StripAll(input), s)
    ensures rows == Rows(bins, counts)
    ensures rows.Failure? <==> input == []
  {
    var h := CountLines(input);
    bins, counts := h.bins, h.counts;
    TallyOfCounts(StripAll(input));
    rows := h.Write();
    if input != [] {
      forall b | b in bins
        ensures b in counts && counts[b] > 0
      {
        OccurrencesPositive(StripAll(input), b);
      }
      RowsFullWidth(bins, counts);
    }
  }
}
