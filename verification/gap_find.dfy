/**
 * The gap auditor's detection half (chain/gap/find.go): find heights below the newest
 * processed height that were never processed, check each against the chain to tell a
 * missed epoch from a null round, and re-report every explicitly skipped record.
 */
module GapFind {
  import opened Outcomes

  /** The status a freshly reported gap carries. */
  const GapStatus := "GAP"
  /** The reporter name the auditor writes on its reports. */
  const GapReporter := "gapIndexer"

  /** A tipset as the chain node returns it from a height lookup. */
  datatype TipSet = TipSet(height: int, key: string)

  /** A processing record: the height and task of one unit of extraction work. */
  datatype ProcessingReport = ProcessingReport(height: int, task: string)

  /** A row of the gap ledger, keyed by (height, tipSet, task). */
  datatype GapReport = GapReport(
    height: int, tipSet: string, task: string, status: string, reporter: string, reportedAt: int)

  datatype FindError =
    | OpenFailed(cause: string)
    | QueryFailed(cause: string)
    | TipSetLookupFailed(height: int, cause: string)
    | DetectingProcessingGaps(inner: FindError)
    | DetectingSkippedGaps(inner: FindError)
    | PersistFailed(cause: string)

  /** The chain lookup `ChainGetTipSetByHeight(h, EmptyTSK)`: the tipset at `h`, or an earlier one when `h` was a null round. */
  type ChainLookup = int -> Result<TipSet, string>

  // ---------------------------------------------------------------------------
  // Candidate heights
  // ---------------------------------------------------------------------------

  /** The heights `lo, lo+1, ..., hi-1`; empty when `hi <= lo`. */
  function Range(lo: int, hi: int): seq<int> {
    seq(if lo < hi then hi - lo else 0, i => lo + i)
  }

  lemma RangeMembers(lo: int, hi: int)
    ensures Distinct(Range(lo, hi))
    ensures forall x :: x in Range(lo, hi) <==> lo <= x < hi
  {
    forall x | lo <= x < hi ensures x in Range(lo, hi) {
      assert Range(lo, hi)[x - lo] == x;
    }
  }

  predicate StrictlyDescending(h: seq<int>) {
    forall i, j :: 0 <= i < j < |h| ==> h[i] > h[j]
  }

  predicate NonNegative(h: seq<int>) {
    forall i :: 0 <= i < |h| ==> h[i] >= 0
  }

  predicate Sorted(s: seq<int>) {
    forall i, j :: 0 <= i < j < |s| ==> s[i] <= s[j]
  }

  predicate Distinct(s: seq<int>) {
    forall i, j :: 0 <= i < j < |s| ==> s[i] != s[j]
  }

  /**
   * The heights strictly between each adjacent pair of recorded heights, appended in the
   * order the scan visits the pairs (newest pair first, each run ascending).
   */
  function PairGaps(h: seq<int>): seq<int> {
    if |h| < 2 then [] else PairGaps(h[..|h| - 1]) + Range(h[|h| - 1] + 1, h[|h| - 2])
  }

  /** Every candidate the scan appends, before sorting: the pair gaps, then `0 .. oldest-1`. */
  function Candidates(h: seq<int>): seq<int> {
    if h == [] then [] else PairGaps(h) + Range(0, h[|h| - 1])
  }

  /** Insert `x` into a sorted sequence. */
  function Insert(x: int, s: seq<int>): seq<int> {
    if s == [] || x <= s[0] then [x] + s else [s[0]] + Insert(x, s[1..])
  }

  lemma {:induction false} InsertPermutes(x: int, s: seq<int>)
    ensures multiset(Insert(x, s)) == multiset(s) + multiset{x}
  {
    if s != [] && x > s[0] {
      InsertPermutes(x, s[1..]);
      assert s == [s[0]] + s[1..];
    }
  }

  lemma {:induction false} InsertSorted(x: int, s: seq<int>)
    requires Sorted(s)
    ensures Sorted(Insert(x, s))
    ensures Insert(x, s)[0] == if s == [] || x <= s[0] then x else s[0]
  {
    var r := Insert(x, s);
    if s == [] || x <= s[0] {
      assert r == [x] + s;
      forall i, j | 0 <= i < j < |r| ensures r[i] <= r[j] {
        if i == 0 {
          assert x <= s[0] <= s[j - 1];
        } else {
          assert r[i] == s[i - 1] && r[j] == s[j - 1];
        }
      }
    } else {
      var tail := s[1..];
      assert Sorted(tail) by {
        forall i, j | 0 <= i < j < |tail| ensures tail[i] <= tail[j] {
          assert tail[i] == s[i + 1] && tail[j] == s[j + 1];
        }
      }
      InsertSorted(x, tail);
      var rest := Insert(x, tail);
      assert s[0] <= rest[0];
      assert r == [s[0]] + rest;
      forall i, j | 0 <= i < j < |r| ensures r[i] <= r[j] {
        if i == 0 {
          assert rest[0] <= rest[j - 1];
        } else {
          assert r[i] == rest[i - 1] && r[j] == rest[j - 1];
        }
      }
    }
  }

  /** The ascending sort `sort.Slice` performs, as a pure function of its input. */
  function SortAscending(s: seq<int>): seq<int> {
    if s == [] then [] else Insert(s[0], SortAscending(s[1..]))
  }

  /** The sort yields an ascending permutation of its input. */
  lemma {:induction false} SortAscendingCorrect(s: seq<int>)
    ensures Sorted(SortAscending(s))
    ensures multiset(SortAscending(s)) == multiset(s)
    ensures |SortAscending(s)| == |s|
  {
    if s != [] {
      SortAscendingCorrect(s[1..]);
      InsertSorted(s[0], SortAscending(s[1..]));
      InsertPermutes(s[0], SortAscending(s[1..]));
      assert s == [s[0]] + s[1..];
    }
  }

  /** Two distinct positions holding the same value put that value twice into the multiset. */
  lemma RepeatCounts(s: seq<int>, i: int, j: int)
    requires 0 <= i < j < |s| && s[i] == s[j]
    ensures multiset(s)[s[i]] >= 2
  {
    assert s == s[..j] + s[j..];
    assert s[i] in s[..j];
    assert s[j] in s[j..];
    assert multiset(s) == multiset(s[..j]) + multiset(s[j..]);
  }

  /** A sequence without repeats counts every value at most once. */
  lemma {:induction false} DistinctCountsOnce(s: seq<int>)
    requires Distinct(s)
    ensures forall x :: multiset(s)[x] <= 1
  {
    if s != [] {
      DistinctCountsOnce(s[1..]);
      assert s == [s[0]] + s[1..];
      assert s[0] !in s[1..];
      assert multiset(s) == multiset{s[0]} + multiset(s[1..]);
    }
  }

  /** Sorting a sequence without repeats gives a strictly increasing one. */
  lemma SortedPermutationIncreases(s: seq<int>, r: seq<int>)
    requires Distinct(s) && Sorted(r) && multiset(r) == multiset(s)
    ensures forall i, j :: 0 <= i < j < |r| ==> r[i] < r[j]
  {
    DistinctCountsOnce(s);
    forall i, j | 0 <= i < j < |r| ensures r[i] < r[j] {
      if r[i] == r[j] {
        RepeatCounts(r, i, j);
        assert false;
      }
    }
  }

  lemma DistinctConcat(a: seq<int>, b: seq<int>, pivot: int)
    requires Distinct(a) && Distinct(b)
    requires forall x :: x in a ==> x > pivot
    requires forall x :: x in b ==> x < pivot
    ensures Distinct(a + b)
  {
    var s := a + b;
    forall i, j | 0 <= i < j < |s| ensures s[i] != s[j] {
      if j < |a| {
        assert s[i] == a[i] && s[j] == a[j];
      } else if i < |a| {
        assert s[i] == a[i] && s[j] == b[j - |a|];
        assert a[i] in a && b[j - |a|] in b;
      } else {
        assert s[i] == b[i - |a|] && s[j] == b[j - |a|];
      }
    }
  }

  /**
   * For a strictly descending list of recorded heights, the pair gaps are exactly the
   * unrecorded heights between the oldest and the newest, each once.
   */
  lemma {:induction false} PairGapsExact(h: seq<int>)
    requires |h| >= 1 && StrictlyDescending(h)
    ensures Distinct(PairGaps(h))
    ensures forall x :: x in PairGaps(h) <==> h[|h| - 1] < x < h[0] && x !in h
  {
    var n := |h|;
    if n >= 2 {
      var front := h[..n - 1];
      PairGapsExact(front);
      var run := Range(h[n - 1] + 1, h[n - 2]);
      assert PairGaps(h) == PairGaps(front) + run;
      RangeMembers(h[n - 1] + 1, h[n - 2]);
      assert h == front + [h[n - 1]];
      forall x ensures x in PairGaps(h) <==> h[n - 1] < x < h[0] && x !in h {
        assert x in h <==> x in front || x == h[n - 1];
        if x <= h[n - 1] {
          assert x !in run && x !in PairGaps(front);
        } else if x < h[n - 2] {
          assert x in run;
          forall k | 0 <= k < n ensures h[k] != x {
            if k < n - 1 { assert h[k] >= h[n - 2]; }
          }
        } else if x == h[n - 2] {
          assert x in front;
        } else {
          assert x !in run;
        }
      }
      DistinctConcat(PairGaps(front), run, h[n - 2]);
    }
  }

  /**
   * For strictly descending, non-negative recorded heights, the candidates are exactly
   * the heights in `[0, newest)` that were not recorded, each once.
   */
  lemma CandidatesExact(h: seq<int>)
    requires |h| >= 1 && StrictlyDescending(h) && NonNegative(h)
    ensures Distinct(Candidates(h))
    ensures forall x :: x in Candidates(h) <==> 0 <= x < h[0] && x !in h
  {
    var n := |h|;
    PairGapsExact(h);
    var tail := Range(0, h[n - 1]);
    RangeMembers(0, h[n - 1]);
    assert Candidates(h) == PairGaps(h) + tail;
    forall x ensures x in Candidates(h) <==> 0 <= x < h[0] && x !in h {
      if x < h[n - 1] {
        forall k | 0 <= k < n ensures h[k] != x {
          if k < n - 1 { assert h[k] > h[n - 1]; }
        }
      } else if x == h[n - 1] {
        assert x in h;
      }
    }
    DistinctConcat(PairGaps(h), tail, h[n - 1]);
  }

  /**
   * `findEpochGaps`: scan the recorded heights, collecting every height between two
   * adjacent records and every height below the oldest, then sort ascending.
   */
  method FindEpochGaps(heights: seq<int>) returns (gaps: seq<int>)
    ensures heights == [] ==> gaps == []
    ensures gaps == SortAscending(Candidates(heights))
    ensures Sorted(gaps) && multiset(gaps) == multiset(Candidates(heights))
    ensures |heights| >= 1 && StrictlyDescending(heights) && NonNegative(heights) ==>
      (forall i, j :: 0 <= i < j < |gaps| ==> gaps[i] < gaps[j]) &&
      (forall x :: x in gaps <==> 0 <= x < heights[0] && x !in heights)
  {
    if |heights| == 0 {
      return [];
    }
    var maybeGap: seq<int> := [];
    var prev := heights[0];
    var idx := 1;
    while idx < |heights|
      invariant 1 <= idx <= |heights|
      invariant prev == heights[idx - 1]
      invariant maybeGap == PairGaps(heights[..idx])
    {
      var cur := heights[idx];
      var gap := cur + 1;
      ghost var base := maybeGap;
      while gap < prev
        invariant cur + 1 <= gap || prev <= cur + 1
        invariant maybeGap == base + Range(cur + 1, if gap < prev then gap else prev)
        invariant gap <= prev ==> maybeGap == base + Range(cur + 1, gap)
      {
        assert Range(cur + 1, gap + 1) == Range(cur + 1, gap) + [gap];
        maybeGap := maybeGap + [gap];
        gap := gap + 1;
      }
      assert heights[..idx + 1][..idx] == heights[..idx];
      prev := cur;
      idx := idx + 1;
    }
    assert heights[..idx] == heights;
    var oldest := heights[|heights| - 1];
    var h := 0;
    ghost var pairs := maybeGap;
    while h < oldest
      invariant 0 <= h || oldest <= 0
      invariant maybeGap == pairs + Range(0, if h <= oldest then h else oldest)
      invariant h >= 0
    {
      assert Range(0, h + 1) == Range(0, h) + [h];
      maybeGap := maybeGap + [h];
      h := h + 1;
    }
    assert maybeGap == Candidates(heights);
    gaps := SortAscending(maybeGap);
    SortAscendingCorrect(maybeGap);
    if StrictlyDescending(heights) && NonNegative(heights) {
      SortedCandidatesExact(heights);
    }
  }

  /** Sorting the candidates of well-formed heights lists the missing heights in increasing order. */
  lemma SortedCandidatesExact(heights: seq<int>)
    requires |heights| >= 1 && StrictlyDescending(heights) && NonNegative(heights)
    ensures var gaps := SortAscending(Candidates(heights));
      (forall i, j :: 0 <= i < j < |gaps| ==> gaps[i] < gaps[j]) &&
      (forall x :: x in gaps <==> 0 <= x < heights[0] && x !in heights)
  {
    var cands := Candidates(heights);
    var gaps := SortAscending(cands);
    SortAscendingCorrect(cands);
    CandidatesExact(heights);
    SortedPermutationIncreases(cands, gaps);
    forall x ensures x in gaps <==> x in cands {
      assert x in gaps <==> x in multiset(gaps);
      assert x in cands <==> x in multiset(cands);
    }
  }

  /**
   * The worked example before sorting: the candidates come out in the order the loops
   * visit them, the gap above 8, the gap above 5, then the heights below 5.
   */
  lemma CandidatesOfExample()
    ensures Candidates([10, 8, 5]) == [9, 6, 7, 0, 1, 2, 3, 4]
  {
    var h := [10, 8, 5];
    assert h[..2] == [10, 8];
    assert [10, 8][..1] == [10];
    assert Range(9, 10) == [9];
    assert Range(6, 8) == [6, 7];
    assert Range(0, 5) == [0, 1, 2, 3, 4];
  }

  /** A strictly increasing sequence is determined by its length and its elements. */
  lemma {:induction false} IncreasingUnique(a: seq<int>, b: seq<int>)
    requires forall i, j :: 0 <= i < j < |a| ==> a[i] < a[j]
    requires forall i, j :: 0 <= i < j < |b| ==> b[i] < b[j]
    requires |a| == |b| && forall x :: x in a <==> x in b
    ensures a == b
  {
    if a != [] {
      assert a[0] == b[0] by {
        assert a[0] in a && b[0] in b;
        var i :| 0 <= i < |b| && b[i] == a[0];
        var j :| 0 <= j < |a| && a[j] == b[0];
        assert b[0] <= b[i] && a[0] <= a[j];
      }
      forall x | x in a[1..] ensures x in b[1..] {
        var i :| 0 <= i < |a[1..]| && a[1..][i] == x;
        assert x == a[i + 1] && a[0] < x && x in b;
        var k :| 0 <= k < |b| && b[k] == x;
        assert k != 0 && b[1..][k - 1] == x;
      }
      forall x | x in b[1..] ensures x in a[1..] {
        var i :| 0 <= i < |b[1..]| && b[1..][i] == x;
        assert x == b[i + 1] && b[0] < x && x in a;
        var k :| 0 <= k < |a| && a[k] == x;
        assert k != 0 && a[1..][k - 1] == x;
      }
      IncreasingUnique(a[1..], b[1..]);
      assert a == [a[0]] + a[1..] && b == [b[0]] + b[1..];
    }
  }

  /**
   * The sorted candidates are the increasing enumeration of the missing heights: any
   * strictly increasing sequence of as many heights, holding exactly the non-negative
   * heights below the top that were not recorded, is the sorted candidate list.
   */
  lemma SortedCandidatesDetermined(heights: seq<int>, expected: seq<int>)
    requires |heights| >= 1 && StrictlyDescending(heights) && NonNegative(heights)
    requires forall i, j :: 0 <= i < j < |expected| ==> expected[i] < expected[j]
    requires forall x :: x in expected <==> 0 <= x < heights[0] && x !in heights
    requires |expected| == |Candidates(heights)|
    ensures SortAscending(Candidates(heights)) == expected
  {
    SortedCandidatesExact(heights);
    SortAscendingCorrect(Candidates(heights));
    IncreasingUnique(SortAscending(Candidates(heights)), expected);
  }

  /** The worked example: recorded heights 10, 8 and 5 leave the candidates 0-4, 6, 7 and 9. */
  lemma CandidatesExample()
    ensures SortAscending(Candidates([10, 8, 5])) == [0, 1, 2, 3, 4, 6, 7, 9]
  {
    CandidatesOfExample();
    SortedCandidatesDetermined([10, 8, 5], [0, 1, 2, 3, 4, 6, 7, 9]);
  }

  // ---------------------------------------------------------------------------
  // Reports
  // ---------------------------------------------------------------------------

  /** One GAP report per task at a real epoch's height and tipset. */
  function EpochReports(ts: TipSet, tasks: seq<string>, reportedAt: int): seq<GapReport> {
    seq(|tasks|, i requires 0 <= i < |tasks| =>
      GapReport(ts.height, ts.key, tasks[i], GapStatus, GapReporter, reportedAt))
  }

  /**
   * The reports `detectProcessingGaps` collects from its candidates, in candidate order;
   * the first failed chain lookup replaces them all by its error.
   */
  function HeightReports(cands: seq<int>, lookup: ChainLookup, tasks: seq<string>, reportedAt: int)
    : Result<seq<GapReport>, FindError>
  {
    if cands == [] then Ok([])
    else
      var c := cands[|cands| - 1];
      match HeightReports(cands[..|cands| - 1], lookup, tasks, reportedAt)
      case Err(e) => Err(e)
      case Ok(rs) =>
        match lookup(c)
        case Err(cause) => Err(TipSetLookupFailed(c, cause))
        case Ok(ts) => if ts.height == c then Ok(rs + EpochReports(ts, tasks, reportedAt)) else Ok(rs)
  }

  /** The candidates that the chain confirms as real epochs (not null rounds). */
  function RealEpochs(cands: seq<int>, lookup: ChainLookup): seq<int> {
    if cands == [] then []
    else
      var c := cands[|cands| - 1];
      RealEpochs(cands[..|cands| - 1], lookup) +
        if lookup(c).Ok? && lookup(c).value.height == c then [c] else []
  }

  /** Once a prefix of the candidates has failed, the whole scan fails with that error. */
  lemma {:induction false} HeightReportsErrSticks(cands: seq<int>, i: int, lookup: ChainLookup, tasks: seq<string>, t: int)
    requires 0 <= i <= |cands|
    requires HeightReports(cands[..i], lookup, tasks, t).Err?
    ensures HeightReports(cands, lookup, tasks, t) == HeightReports(cands[..i], lookup, tasks, t)
    decreases |cands| - i
  {
    if i < |cands| {
      assert cands[..i + 1][..i] == cands[..i];
      HeightReportsErrSticks(cands, i + 1, lookup, tasks, t);
    } else {
      assert cands[..i] == cands;
    }
  }

  /**
   * Every report names status GAP and reporter gapIndexer, sits at a candidate that the
   * chain confirms as a real epoch, on that epoch's tipset, for one of the tasks. In
   * particular a candidate the chain resolves to a higher tipset (a null round) gets no
   * report.
   */
  lemma {:induction false} HeightReportsSound(cands: seq<int>, lookup: ChainLookup, tasks: seq<string>, t: int)
    requires HeightReports(cands, lookup, tasks, t).Ok?
    ensures forall r :: r in HeightReports(cands, lookup, tasks, t).value ==>
      && r.status == GapStatus && r.reporter == GapReporter && r.reportedAt == t
      && r.height in cands && r.task in tasks
      && lookup(r.height).Ok? && lookup(r.height).value.height == r.height
      && r.tipSet == lookup(r.height).value.key
  {
    if cands != [] {
      var front := cands[..|cands| - 1];
      var c := cands[|cands| - 1];
      HeightReportsSound(front, lookup, tasks, t);
      assert forall x :: x in front ==> x in cands;
      var rs := HeightReports(front, lookup, tasks, t).value;
      var ts := lookup(c).value;
      var extra := if ts.height == c then EpochReports(ts, tasks, t) else [];
      assert HeightReports(cands, lookup, tasks, t).value == rs + extra by {
        if ts.height != c { assert rs + extra == rs; }
      }
      forall r | r in extra
        ensures r.status == GapStatus && r.reporter == GapReporter && r.reportedAt == t
        ensures r.height == c && r.task in tasks && r.tipSet == ts.key
      {
        var k :| 0 <= k < |extra| && extra[k] == r;
      }
    }
  }

  /** Every real epoch among the candidates gets a report for every task. */
  lemma {:induction false} HeightReportsComplete(cands: seq<int>, lookup: ChainLookup, tasks: seq<string>, t: int)
    requires HeightReports(cands, lookup, tasks, t).Ok?
    ensures forall c, task :: c in cands && task in tasks && lookup(c).Ok? && lookup(c).value.height == c ==>
      GapReport(c, lookup(c).value.key, task, GapStatus, GapReporter, t) in HeightReports(cands, lookup, tasks, t).value
  {
    if cands != [] {
      var front := cands[..|cands| - 1];
      var last := cands[|cands| - 1];
      HeightReportsComplete(front, lookup, tasks, t);
      var rs := HeightReports(front, lookup, tasks, t).value;
      var all := HeightReports(cands, lookup, tasks, t).value;
      assert forall r :: r in rs ==> r in all;
      forall c, task | c in cands && task in tasks && lookup(c).Ok? && lookup(c).value.height == c
        ensures GapReport(c, lookup(c).value.key, task, GapStatus, GapReporter, t) in all
      {
        if c !in front {
          assert c == last;
          var k :| 0 <= k < |tasks| && tasks[k] == task;
          var extra := EpochReports(lookup(c).value, tasks, t);
          assert all == rs + extra;
          assert extra[k] in all;
        }
      }
    }
  }

  /** Exactly one report per task for each confirmed epoch, and none for null rounds. */
  lemma {:induction false} HeightReportsCount(cands: seq<int>, lookup: ChainLookup, tasks: seq<string>, t: int)
    requires HeightReports(cands, lookup, tasks, t).Ok?
    ensures |HeightReports(cands, lookup, tasks, t).value| == |tasks| * |RealEpochs(cands, lookup)|
  {
    if cands != [] {
      var front, c := cands[..|cands| - 1], cands[|cands| - 1];
      HeightReportsCount(front, lookup, tasks, t);
      var rs, ts := HeightReports(front, lookup, tasks, t).value, lookup(c).value;
      var n := |RealEpochs(front, lookup)|;
      assert |rs| == |tasks| * n;
      if ts.height == c {
        assert HeightReports(cands, lookup, tasks, t).value == rs + EpochReports(ts, tasks, t);
        assert |RealEpochs(cands, lookup)| == n + 1;
        assert |tasks| * (n + 1) == |tasks| * n + |tasks|;
      } else {
        assert HeightReports(cands, lookup, tasks, t).value == rs;
        assert |RealEpochs(cands, lookup)| == n;
      }
    }
  }

  /** The scan fails exactly when the chain lookup fails for some candidate. */
  lemma {:induction false} HeightReportsFails(cands: seq<int>, lookup: ChainLookup, tasks: seq<string>, t: int)
    ensures HeightReports(cands, lookup, tasks, t).Err? <==> exists c :: c in cands && lookup(c).Err?
  {
    if cands != [] {
      var front := cands[..|cands| - 1];
      HeightReportsFails(front, lookup, tasks, t);
      assert cands == front + [cands[|cands| - 1]];
      assert forall c :: c in cands <==> c in front || c == cands[|cands| - 1];
    }
  }

  /** The inner loop of `detectProcessingGaps`: append one report per task for a real epoch. */
  method AppendEpochReports(reports: seq<GapReport>, ts: TipSet, tasks: seq<string>, reportedAt: int)
    returns (out: seq<GapReport>)
    ensures out == reports + EpochReports(ts, tasks, reportedAt)
  {
    out := reports;
    var k := 0;
    while k < |tasks|
      invariant 0 <= k <= |tasks|
      invariant out == reports + EpochReports(ts, tasks[..k], reportedAt)
    {
      out := out + [GapReport(ts.height, ts.key, tasks[k], GapStatus, GapReporter, reportedAt)];
      k := k + 1;
      assert EpochReports(ts, tasks[..k], reportedAt)
        == EpochReports(ts, tasks[..k - 1], reportedAt) + [out[|out| - 1]];
    }
    assert tasks[..k] == tasks;
  }

  /** What `detectProcessingGaps` returns for the heights the processing table holds. */
  function ProcessingGaps(queried: Result<seq<int>, string>, lookup: ChainLookup, tasks: seq<string>, t: int)
    : Result<seq<GapReport>, FindError>
  {
    match queried
    case Err(cause) => Err(QueryFailed(cause))
    case Ok(heights) => HeightReports(SortAscending(Candidates(heights)), lookup, tasks, t)
  }

  /** The loop of `detectProcessingGaps` over the candidate heights. */
  method ReportHeights(cands: seq<int>, lookup: ChainLookup, tasks: seq<string>, reportedAt: int)
    returns (r: Result<seq<GapReport>, FindError>)
    ensures r == HeightReports(cands, lookup, tasks, reportedAt)
  {
    var reports: seq<GapReport> := [];
    var i := 0;
    while i < |cands|
      invariant 0 <= i <= |cands|
      invariant HeightReports(cands[..i], lookup, tasks, reportedAt) == Ok(reports)
    {
      var gh := cands[i];
      assert cands[..i + 1][..i] == cands[..i];
      var tsgap := lookup(gh);
      if tsgap.Err? {
        r := Err(TipSetLookupFailed(gh, tsgap.error));
        HeightReportsErrSticks(cands, i + 1, lookup, tasks, reportedAt);
        return;
      }
      if tsgap.value.height == gh {
        reports := AppendEpochReports(reports, tsgap.value, tasks, reportedAt);
      }
      i := i + 1;
    }
    assert cands[..i] == cands;
    r := Ok(reports);
  }

  /**
   * `detectProcessingGaps`: look every candidate height up on the chain and report one
   * gap per task where the chain has a tipset at exactly that height.
   */
  method DetectProcessingGaps(queried: Result<seq<int>, string>, lookup: ChainLookup, tasks: seq<string>, reportedAt: int)
    returns (r: Result<seq<GapReport>, FindError>)
    ensures r == ProcessingGaps(queried, lookup, tasks, reportedAt)
  {
    if queried.Err? {
      return Err(QueryFailed(queried.error));
    }
    var cands := FindEpochGaps(queried.value);
    r := ReportHeights(cands, lookup, tasks, reportedAt);
  }

  /** What `detectSkippedTipSets` returns for the skipped processing records, in their order. */
  function SkippedGaps(records: seq<ProcessingReport>, lookup: ChainLookup, t: int): Result<seq<GapReport>, FindError> {
    if records == [] then Ok([])
    else
      var rec := records[|records| - 1];
      match SkippedGaps(records[..|records| - 1], lookup, t)
      case Err(e) => Err(e)
      case Ok(rs) =>
        match lookup(rec.height)
        case Err(cause) => Err(TipSetLookupFailed(rec.height, cause))
        case Ok(ts) => Ok(rs + [GapReport(rec.height, ts.key, rec.task, GapStatus, GapReporter, t)])
  }

  /**
   * One GAP report per skipped record, in order, carrying the record's own height and
   * task (not the height of the tipset the chain returned), unless some lookup fails.
   */
  lemma {:induction false} SkippedGapsShape(records: seq<ProcessingReport>, lookup: ChainLookup, t: int)
    ensures SkippedGaps(records, lookup, t).Ok? <==> forall i :: 0 <= i < |records| ==> lookup(records[i].height).Ok?
    ensures SkippedGaps(records, lookup, t).Ok? ==>
      var rs := SkippedGaps(records, lookup, t).value;
      |rs| == |records| &&
      forall i :: 0 <= i < |records| ==>
        rs[i] == GapReport(records[i].height, lookup(records[i].height).value.key, records[i].task, GapStatus, GapReporter, t)
  {
    if records != [] {
      var front := records[..|records| - 1];
      SkippedGapsShape(front, lookup, t);
      assert forall i :: 0 <= i < |front| ==> front[i] == records[i];
    }
  }

  /** `detectSkippedTipSets`: re-report every skipped record as a gap. */
  method DetectSkippedTipSets(queried: Result<seq<ProcessingReport>, string>, lookup: ChainLookup, reportedAt: int)
    returns (r: Result<seq<GapReport>, FindError>)
    ensures queried.Err? ==> r == Err(QueryFailed(queried.error))
    ensures queried.Ok? ==> r == SkippedGaps(queried.value, lookup, reportedAt)
  {
    if queried.Err? {
      return Err(QueryFailed(queried.error));
    }
    var skipped := queried.value;
    var gapReport: seq<GapReport> := [];
    var idx := 0;
    while idx < |skipped|
      invariant 0 <= idx <= |skipped|
      invariant SkippedGaps(skipped[..idx], lookup, reportedAt) == Ok(gapReport)
    {
      var rec := skipped[idx];
      assert skipped[..idx + 1][..idx] == skipped[..idx];
      var tsgap := lookup(rec.height);
      if tsgap.Err? {
        r := Err(TipSetLookupFailed(rec.height, tsgap.error));
        SkippedGapsErrSticks(skipped, idx + 1, lookup, reportedAt);
        return;
      }
      gapReport := gapReport + [GapReport(rec.height, tsgap.value.key, rec.task, GapStatus, GapReporter, reportedAt)];
      idx := idx + 1;
    }
    assert skipped[..idx] == skipped;
    r := Ok(gapReport);
  }

  lemma {:induction false} SkippedGapsErrSticks(records: seq<ProcessingReport>, i: int, lookup: ChainLookup, t: int)
    requires 0 <= i <= |records|
    requires SkippedGaps(records[..i], lookup, t).Err?
    ensures SkippedGaps(records, lookup, t) == SkippedGaps(records[..i], lookup, t)
    decreases |records| - i
  {
    if i < |records| {
      assert records[..i + 1][..i] == records[..i];
      SkippedGapsErrSticks(records, i + 1, lookup, t);
    } else {
      assert records[..i] == records;
    }
  }

  /**
   * `GapIndexer.Run`: open the node, run both detectors, and persist the skip reports
   * followed by the height reports in one batch. `persisted` is the batch handed to the
   * store; an error from opening or from either detector means nothing is handed over.
   * Each detector reads the clock for itself: `heightsReportedAt` stamps the height
   * reports and `skipsReportedAt` the skip reports.
   */
  method IndexGaps(
    openError: Option<string>,
    heightsQuery: Result<seq<int>, string>,
    skipsQuery: Result<seq<ProcessingReport>, string>,
    lookup: ChainLookup, tasks: seq<string>, heightsReportedAt: int, skipsReportedAt: int,
    persistError: Option<string>)
    returns (err: Option<FindError>, persisted: seq<GapReport>)
    ensures openError.Some? ==> err == Some(OpenFailed(openError.value)) && persisted == []
    ensures openError.None? ==>
      var hg := ProcessingGaps(heightsQuery, lookup, tasks, heightsReportedAt);
      var sg := if skipsQuery.Err? then Err(QueryFailed(skipsQuery.error))
                else SkippedGaps(skipsQuery.value, lookup, skipsReportedAt);
      if hg.Err? then err == Some(DetectingProcessingGaps(hg.error)) && persisted == []
      else if sg.Err? then err == Some(DetectingSkippedGaps(sg.error)) && persisted == []
      else persisted == sg.value + hg.value &&
           err == (if persistError.Some? then Some(PersistFailed(persistError.value)) else None)
  {
    persisted := [];
    if openError.Some? {
      return Some(OpenFailed(openError.value)), [];
    }
    var heightGaps := DetectProcessingGaps(heightsQuery, lookup, tasks, heightsReportedAt);
    if heightGaps.Err? {
      return Some(DetectingProcessingGaps(heightGaps.error)), [];
    }
    var skipGaps := DetectSkippedTipSets(skipsQuery, lookup, skipsReportedAt);
    if skipGaps.Err? {
      return Some(DetectingSkippedGaps(skipGaps.error)), [];
    }
    persisted := skipGaps.value + heightGaps.value;
    err := if persistError.Some? then Some(PersistFailed(persistError.value)) else None;
  }
}
