/**
 * The gap auditor's filling half (chain/gap/fill.go): select the open gaps, re-drive a
 * single-height, single-task walk for each, record FILLED or the failure text as the
 * gap's status, and write the updated rows back to the gap ledger.
 */
module GapFill {
  import opened Outcomes
  import opened GapFind

  /** The status of a gap whose re-drive succeeded. */
  const FilledStatus := "FILLED"

  /** The walk the filler launches: heights `minHeight..maxHeight` for the listed tasks. */
  datatype WalkJob = WalkJob(minHeight: int, maxHeight: int, tasks: seq<string>)

  /** Creating a tipset indexer for one task: None, or the creation error's text. */
  type IndexerFactory = string -> Option<string>

  /** Running the walker over one job: None, or the walk error's text. */
  type Walker = WalkJob -> Option<string>

  /** The ledger's primary key (height, tip_set, task). */
  datatype GapKey = GapKey(height: int, tipSet: string, task: string)

  function KeyOf(r: GapReport): GapKey {
    GapKey(r.height, r.tipSet, r.task)
  }

  /** No two rows of the ledger share a primary key. */
  predicate UniqueKeys(ledger: seq<GapReport>) {
    forall i, j :: 0 <= i < j < |ledger| ==> KeyOf(ledger[i]) != KeyOf(ledger[j])
  }

  // ---------------------------------------------------------------------------
  // Query
  // ---------------------------------------------------------------------------

  /** The row is an open gap for one of the filler's tasks (any task when none are given). */
  predicate Selected(r: GapReport, tasks: seq<string>) {
    r.status == GapStatus && (|tasks| == 0 || r.task in tasks)
  }

  /** `queryGaps`: the open gaps of the ledger, restricted to the filler's tasks when it has any. */
  function QueryGaps(ledger: seq<GapReport>, tasks: seq<string>): seq<GapReport> {
    if ledger == [] then []
    else
      var last := ledger[|ledger| - 1];
      QueryGaps(ledger[..|ledger| - 1], tasks) + if Selected(last, tasks) then [last] else []
  }

  /** The query returns exactly the selected rows of the ledger. */
  lemma {:induction false} QueryGapsExact(ledger: seq<GapReport>, tasks: seq<string>)
    ensures forall r :: r in QueryGaps(ledger, tasks) <==> r in ledger && Selected(r, tasks)
  {
    if ledger != [] {
      var front := ledger[..|ledger| - 1];
      QueryGapsExact(front, tasks);
      assert ledger == front + [ledger[|ledger| - 1]];
    }
  }

  // ---------------------------------------------------------------------------
  // Filling
  // ---------------------------------------------------------------------------

  /** The single-height, single-task job that re-drives one gap. */
  function JobFor(gap: GapReport): WalkJob {
    WalkJob(gap.height, gap.height, [gap.task])
  }

  /**
   * The status a gap ends with: the indexer-creation error, else the walk error, else
   * FILLED.
   */
  function FillStatus(gap: GapReport, newIndexer: IndexerFactory, walk: Walker): string {
    match newIndexer(gap.task)
    case Some(e) => e
    case None =>
      match walk(JobFor(gap))
      case Some(e) => e
      case None => FilledStatus
  }

  /** The gaps as they are after filling: only their status changes. */
  function Filled(gaps: seq<GapReport>, newIndexer: IndexerFactory, walk: Walker): seq<GapReport> {
    seq(|gaps|, i requires 0 <= i < |gaps| => gaps[i].(status := FillStatus(gaps[i], newIndexer, walk)))
  }

  /** The walks launched, in order: one per gap whose indexer could be created. */
  function WalksFor(gaps: seq<GapReport>, newIndexer: IndexerFactory): seq<WalkJob> {
    if gaps == [] then []
    else
      var last := gaps[|gaps| - 1];
      WalksFor(gaps[..|gaps| - 1], newIndexer) + if newIndexer(last.task).None? then [JobFor(last)] else []
  }

  /**
   * Every walk covers exactly one height and one task, those of a gap whose indexer
   * was created, and every such gap gets its walk.
   */
  lemma {:induction false} WalksAreSingleHeight(gaps: seq<GapReport>, newIndexer: IndexerFactory)
    ensures forall w :: w in WalksFor(gaps, newIndexer) ==>
      w.minHeight == w.maxHeight && |w.tasks| == 1 &&
      exists g :: g in gaps && newIndexer(g.task).None? && w == WalkJob(g.height, g.height, [g.task])
    ensures forall g :: g in gaps && newIndexer(g.task).None? ==> JobFor(g) in WalksFor(gaps, newIndexer)
  {
    if gaps != [] {
      var front := gaps[..|gaps| - 1];
      WalksAreSingleHeight(front, newIndexer);
      assert gaps == front + [gaps[|gaps| - 1]];
      assert forall g :: g in front ==> g in gaps;
    }
  }

  /**
   * The loop of `GapFiller.Run`: every gap is visited, none is skipped after a failure,
   * and each gap's status becomes FILLED or the error text.
   */
  method FillGaps(gaps: array<GapReport>, newIndexer: IndexerFactory, walk: Walker) returns (walks: seq<WalkJob>)
    modifies gaps
    ensures gaps[..] == Filled(old(gaps[..]), newIndexer, walk)
    ensures walks == WalksFor(old(gaps[..]), newIndexer)
  {
    walks := [];
    var idx := 0;
    while idx < gaps.Length
      invariant 0 <= idx <= gaps.Length
      invariant gaps[..idx] == Filled(old(gaps[..idx]), newIndexer, walk)
      invariant gaps[idx..] == old(gaps[idx..])
      invariant walks == WalksFor(old(gaps[..idx]), newIndexer)
    {
      var gap := gaps[idx];
      assert gap == old(gaps[idx]);
      assert old(gaps[..idx + 1])[..idx] == old(gaps[..idx]);
      var indexerError := newIndexer(gap.task);
      if indexerError.Some? {
        gap := gap.(status := indexerError.value);
      } else {
        var job := WalkJob(gap.height, gap.height, [gap.task]);
        walks := walks + [job];
        var walkError := walk(job);
        if walkError.Some? {
          gap := gap.(status := walkError.value);
        } else {
          gap := gap.(status := FilledStatus);
        }
      }
      gaps[idx] := gap;
      idx := idx + 1;
      assert gaps[..idx] == gaps[..idx - 1] + [gap];
    }
    assert gaps[..] == gaps[..idx];
    assert old(gaps[..]) == old(gaps[..idx]);
  }

  // ---------------------------------------------------------------------------
  // Writing back
  // ---------------------------------------------------------------------------

  /** A ledger row after a bulk update by primary key: the last update with its key wins. */
  function UpdateRow(row: GapReport, updates: seq<GapReport>): GapReport {
    if updates == [] then row
    else if KeyOf(updates[|updates| - 1]) == KeyOf(row) then updates[|updates| - 1]
    else UpdateRow(row, updates[..|updates| - 1])
  }

  /** The ledger after `UPDATE ... WHERE pk` with the given rows. */
  function ApplyUpdates(ledger: seq<GapReport>, updates: seq<GapReport>): seq<GapReport> {
    seq(|ledger|, i requires 0 <= i < |ledger| => UpdateRow(ledger[i], updates))
  }

  lemma {:induction false} UpdateRowUntouched(row: GapReport, updates: seq<GapReport>)
    requires forall u :: u in updates ==> KeyOf(u) != KeyOf(row)
    ensures UpdateRow(row, updates) == row
  {
    if updates != [] {
      UpdateRowUntouched(row, updates[..|updates| - 1]);
    }
  }

  lemma {:induction false} UpdateRowReplaced(row: GapReport, updates: seq<GapReport>, v: GapReport)
    requires exists u :: u in updates && KeyOf(u) == KeyOf(row)
    requires forall u :: u in updates && KeyOf(u) == KeyOf(row) ==> u == v
    ensures UpdateRow(row, updates) == v
  {
    var last := updates[|updates| - 1];
    var front := updates[..|updates| - 1];
    assert updates == front + [last];
    if KeyOf(last) != KeyOf(row) {
      UpdateRowReplaced(row, front, v);
    }
  }

  /**
   * Filling the queried gaps and writing them back changes exactly the selected rows of
   * a ledger with unique keys, and only their status: FILLED or the failure text.
   */
  lemma FillOutcome(ledger: seq<GapReport>, tasks: seq<string>, newIndexer: IndexerFactory, walk: Walker)
    requires UniqueKeys(ledger)
    ensures var after := ApplyUpdates(ledger, Filled(QueryGaps(ledger, tasks), newIndexer, walk));
      |after| == |ledger| &&
      forall i :: 0 <= i < |ledger| ==>
        after[i] == if Selected(ledger[i], tasks)
                    then ledger[i].(status := FillStatus(ledger[i], newIndexer, walk))
                    else ledger[i]
  {
    var gaps := QueryGaps(ledger, tasks);
    var filled := Filled(gaps, newIndexer, walk);
    QueryGapsExact(ledger, tasks);
    forall i | 0 <= i < |ledger|
      ensures UpdateRow(ledger[i], filled) == if Selected(ledger[i], tasks)
        then ledger[i].(status := FillStatus(ledger[i], newIndexer, walk)) else ledger[i]
    {
      var row := ledger[i];
      var v := row.(status := FillStatus(row, newIndexer, walk));
      forall u | u in filled && KeyOf(u) == KeyOf(row) ensures Selected(row, tasks) && u == v {
        var j :| 0 <= j < |filled| && filled[j] == u;
        var g := gaps[j];
        assert g in gaps;
        var m :| 0 <= m < |ledger| && ledger[m] == g;
        assert KeyOf(ledger[m]) == KeyOf(row);
        assert m == i;
      }
      if Selected(row, tasks) {
        assert row in gaps;
        var j :| 0 <= j < |gaps| && gaps[j] == row;
        assert filled[j] in filled && KeyOf(filled[j]) == KeyOf(row);
        UpdateRowReplaced(row, filled, v);
      } else {
        UpdateRowUntouched(row, filled);
      }
    }
  }

  /**
   * The filler and the gap ledger it reads and writes back. `tasks` restricts the gaps
   * it picks up; no restriction when it is empty.
   */
  class GapFiller {
    const tasks: seq<string>
    var ledger: seq<GapReport>

    constructor (tasks: seq<string>, ledger: seq<GapReport>)
      ensures this.tasks == tasks && this.ledger == ledger
    {
      this.tasks := tasks;
      this.ledger := ledger;
    }

    /**
     * `updateGaps`: nothing to do for an empty list; otherwise one bulk update by
     * primary key, which either fails as a whole or lands as a whole.
     */
    method UpdateGaps(gaps: seq<GapReport>, updateError: Option<string>) returns (err: Option<string>)
      modifies this
      ensures |gaps| == 0 ==> err == None && ledger == old(ledger)
      ensures |gaps| > 0 ==> err == updateError
      ensures |gaps| > 0 && updateError.None? ==> ledger == ApplyUpdates(old(ledger), gaps)
      ensures |gaps| > 0 && updateError.Some? ==> ledger == old(ledger)
    {
      if |gaps| == 0 {
        return None;
      }
      if updateError.None? {
        ledger := ApplyUpdates(ledger, gaps);
      }
      err := updateError;
    }

    /**
     * `GapFiller.Run`: query the open gaps, re-drive each one, and write every one of
     * them back with its new status. `walks` are the walker jobs launched, in order.
     */
    method Run(queryError: Option<string>, newIndexer: IndexerFactory, walk: Walker, updateError: Option<string>)
      returns (err: Option<string>, walks: seq<WalkJob>)
      modifies this
      ensures queryError.Some? ==>
        err == Some("querying gap reports: " + queryError.value) && walks == [] && ledger == old(ledger)
      ensures queryError.None? ==>
        var gaps := QueryGaps(old(ledger), tasks);
        walks == WalksFor(gaps, newIndexer) &&
        (|gaps| == 0 ==> err == None && ledger == old(ledger)) &&
        (|gaps| > 0 ==> err == updateError) &&
        ledger == (if |gaps| > 0 && updateError.None?
                   then ApplyUpdates(old(ledger), Filled(gaps, newIndexer, walk))
                   else old(ledger))
    {
      if queryError.Some? {
        return Some("querying gap reports: " + queryError.value), [];
      }
      var queried := QueryGaps(ledger, tasks);
      var gaps := new GapReport[|queried|](i requires 0 <= i < |queried| => queried[i]);
      assert gaps[..] == queried;
      walks := FillGaps(gaps, newIndexer, walk);
      err := UpdateGaps(gaps[..], updateError);
    }
  }

  // ---------------------------------------------------------------------------
  // Tipset keys
  // ---------------------------------------------------------------------------

  /** `strings.TrimLeft(s, {c})`: drop every leading `c`. */
  function TrimLeft(s: string, c: char): (r: string)
    ensures |r| <= |s| && r == s[|s| - |r|..]
    ensures r == [] || r[0] != c
    ensures forall i :: 0 <= i < |s| - |r| ==> s[i] == c
  {
    if s != [] && s[0] == c then TrimLeft(s[1..], c) else s
  }

  /** `strings.TrimRight(s, {c})`: drop every trailing `c`. */
  function TrimRight(s: string, c: char): (r: string)
    ensures |r| <= |s| && r == s[..|r|]
    ensures r == [] || r[|r| - 1] != c
    ensures forall i :: |r| <= i < |s| ==> s[i] == c
  {
    if s != [] && s[|s| - 1] == c then TrimRight(s[..|s| - 1], c) else s
  }

  /** `strings.Split(s, sep)`: the pieces between occurrences of `sep`; always at least one. */
  function Split(s: string, sep: char): (r: seq<string>)
    ensures |r| >= 1
  {
    if s == [] then [[]]
    else
      var rest := Split(s[1..], sep);
      if s[0] == sep then [[]] + rest else [[s[0]] + rest[0]] + rest[1..]
  }

  /** `strings.Join(ts, sep)`: the inverse of Split. */
  function Join(ts: seq<string>, sep: char): string
    requires |ts| >= 1
  {
    if |ts| == 1 then ts[0] else ts[0] + [sep] + Join(ts[1..], sep)
  }

  /** Splitting then joining gives the string back, and no piece holds the separator. */
  lemma {:induction false} SplitJoin(s: string, sep: char)
    ensures Join(Split(s, sep), sep) == s
    ensures forall t :: t in Split(s, sep) ==> sep !in t
  {
    JoinOfSplit(s, sep);
    SplitPiecesFree(s, sep);
  }

  lemma {:induction false} JoinOfSplit(s: string, sep: char)
    ensures Join(Split(s, sep), sep) == s
  {
    if s != [] {
      var rest := Split(s[1..], sep);
      JoinOfSplit(s[1..], sep);
      assert s == [s[0]] + s[1..];
      if s[0] != sep {
        var r := Split(s, sep);
        assert r[0] == [s[0]] + rest[0] && r[1..] == rest[1..];
        if |rest| > 1 {
          assert Join(rest, sep) == rest[0] + [sep] + Join(rest[1..], sep);
        }
      } else {
        assert Split(s, sep) == [[]] + rest;
      }
    }
  }

  lemma {:induction false} SplitPiecesFree(s: string, sep: char)
    ensures forall t :: t in Split(s, sep) ==> sep !in t
  {
    if s != [] {
      var rest := Split(s[1..], sep);
      SplitPiecesFree(s[1..], sep);
      var r := Split(s, sep);
      if s[0] != sep {
        assert rest[0] in rest;
        assert r == [[s[0]] + rest[0]] + rest[1..];
        forall t | t in r ensures sep !in t {
          if t != r[0] {
            var k :| 0 <= k < |rest[1..]| && rest[1..][k] == t;
            assert rest[k + 1] == t;
          }
        }
      } else {
        assert r == [[]] + rest;
      }
    }
  }

  /** The tokens of a tipset key's text form `{cid,cid,...}`. */
  function KeyTokens(tss: string): seq<string> {
    Split(TrimRight(TrimLeft(tss, '{'), '}'), ',')
  }

  /** A token that fails to decode after only successes is the first failure. */
  lemma FirstDecodeFailure<Cid>(tokens: seq<string>, decode: string -> Result<Cid, string>, idx: int)
    requires 0 <= idx < |tokens| && decode(tokens[idx]).Err?
    requires forall j :: 0 <= j < idx ==> decode(tokens[j]).Ok?
    ensures !(forall i :: 0 <= i < |tokens| ==> decode(tokens[i]).Ok?)
    ensures exists i :: 0 <= i < |tokens| && decode(tokens[i]) == Err(decode(tokens[idx]).error) &&
                        forall j :: 0 <= j < i ==> decode(tokens[j]).Ok?
  {
  }

  /**
   * The decoding loop of `tipSetKeyFromString`: decode each token in order; on the
   * first token that fails, the empty key and that token's error.
   */
  method DecodeTokens<Cid>(tokens: seq<string>, decode: string -> Result<Cid, string>)
    returns (key: seq<Cid>, err: Option<string>)
    ensures err.None? <==> forall i :: 0 <= i < |tokens| ==> decode(tokens[i]).Ok?
    ensures err.None? ==> |key| == |tokens| && forall i :: 0 <= i < |tokens| ==> key[i] == decode(tokens[i]).value
    ensures err.Some? ==>
      key == [] &&
      exists i :: 0 <= i < |tokens| && decode(tokens[i]) == Err(err.value) &&
                  forall j :: 0 <= j < i ==> decode(tokens[j]).Ok?
  {
    var cids: seq<Cid> := [];
    var idx := 0;
    while idx < |tokens|
      invariant 0 <= idx <= |tokens|
      invariant |cids| == idx
      invariant forall i :: 0 <= i < idx ==> decode(tokens[i]).Ok? && cids[i] == decode(tokens[i]).value
    {
      var decoded := decode(tokens[idx]);
      if decoded.Err? {
        FirstDecodeFailure(tokens, decode, idx);
        return [], Some(decoded.error);
      }
      cids := cids + [decoded.value];
      idx := idx + 1;
    }
    return cids, None;
  }

  /**
   * `tipSetKeyFromString`: strip the braces, split on commas and decode the tokens in
   * order. On the first token that fails to decode, the empty key and that error.
   */
  method TipSetKeyFromString<Cid>(tss: string, decode: string -> Result<Cid, string>)
    returns (key: seq<Cid>, err: Option<string>)
    ensures var tokens := KeyTokens(tss);
      (err.None? <==> forall i :: 0 <= i < |tokens| ==> decode(tokens[i]).Ok?) &&
      (err.None? ==> |key| == |tokens| && forall i :: 0 <= i < |tokens| ==> key[i] == decode(tokens[i]).value) &&
      (err.Some? ==>
        key == [] &&
        exists i :: 0 <= i < |tokens| && decode(tokens[i]) == Err(err.value) &&
                    forall j :: 0 <= j < i ==> decode(tokens[j]).Ok?)
  {
    var trimmed := TrimLeft(tss, '{');
    trimmed := TrimRight(trimmed, '}');
    var tokens := Split(trimmed, ',');
    assert tokens == KeyTokens(tss);
    key, err := DecodeTokens(tokens, decode);
  }
}
