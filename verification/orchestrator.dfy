/** `fetchFines`: the search, then for each result row the detail fetch,
    the duplicate check against the store, the notification and the save.
    The run is a fold over the rows whose state is the store file and whose
    output is the trace of effects. */
module Orchestrator {
  import opened Optional
  import opened Fines
  import opened Effects
  import opened Store
  import opened Listing
  import opened Detail
  import opened Notifier

  /** A result row: its anchors, and what the outside world does if the row
      is processed: the detail-page response and the channel's answers. */
  datatype Row = Row(anchors: seq<Anchor>, detail: DetailResponse, delivery: Delivery)

  /** The search: the landing-page GET or the form POST threw, or the
      result page with its body text and its `.row` elements in order. */
  datatype SearchResponse = SearchThrew | Response(bodyText: string, rows: seq<Row>)

  /** How `fetchFines` returned: after all rows; early on the "nothing
      found" sentinel; from the outer `catch` because the search threw; or
      from the outer `catch` because a message send threw mid-row. */
  datatype Outcome = Completed | NoViolationsFound | SearchFailed | Aborted

  /** The store file afterwards, the effects in order, the fines for which a
      notification was started (in order), and how the run ended. */
  datatype Run = Run(file: StoreFile, trace: seq<Event>, notified: seq<Fine>, outcome: Outcome)

  /** `a` followed by `b`, started where `a` left the store. */
  function Then(a: Run, b: Run): Run {
    Run(b.file, a.trace + b.trace, a.notified + b.notified, b.outcome)
  }

  /** The fine a row yields, or `None` when the row is skipped: no detail
      link, or `getDetailedFine` returned `undefined`. */
  function RowFine(row: Row, tmpDir: string): Option<Fine> {
    match DetailLink(row.anchors)
    case None => None
    case Some(_) => GetDetailedFine(row.detail, tmpDir)
  }

  /** One iteration of the row loop. The store is loaded afresh; a fine
      whose protocol number is already stored is dropped silently; a new
      one is announced and then saved as the old list plus the fine. A
      rejected message aborts before the save. */
  function ProcessRow(file: StoreFile, row: Row, tmpDir: string): (s: Run)
    ensures s.outcome == Completed || s.outcome == Aborted
    ensures |s.notified| <= 1
    ensures s.file == file || s.file == Stored(Load(file) + s.notified)
    ensures s.outcome == Completed ==> Load(s.file) == Load(file) + s.notified
    ensures s.outcome == Aborted ==> s.file == file && |s.notified| == 1
    ensures s.notified == [] <==>
              RowFine(row, tmpDir).None? || HasKey(Load(file), RowFine(row, tmpDir).value.protocolNumber)
    ensures s.notified != [] ==>
              RowFine(row, tmpDir) == Some(s.notified[0]) && !HasKey(Load(file), s.notified[0].protocolNumber)
    ensures s.notified == [] ==> s.file == file && s.outcome == Completed && |s.trace| <= 1
    ensures DetailLink(row.anchors).None? ==> s.trace == []
    ensures DetailLink(row.anchors).Some? ==>
              0 < |s.trace| && s.trace[0] == FetchDetail(DetailLink(row.anchors).value)
    ensures s.notified != [] ==>
              && s.trace[1..] == Notify(s.notified[0], row.delivery).trace
              && (s.outcome == Aborted <==> !Notify(s.notified[0], row.delivery).delivered)
  {
    match DetailLink(row.anchors)
    case None => Run(file, [], [], Completed)
    case Some(link) =>
      match GetDetailedFine(row.detail, tmpDir)
      case None => Run(file, [FetchDetail(link)], [], Completed)
      case Some(fine) =>
        var known := Load(file);
        if AlreadyExists(known, fine.protocolNumber) then
          Run(file, [FetchDetail(link)], [], Completed)
        else
          var n := Notify(fine, row.delivery);
          if n.delivered then
            Run(Save(known + [fine]), [FetchDetail(link)] + n.trace, [fine], Completed)
          else
            Run(file, [FetchDetail(link)] + n.trace, [fine], Aborted)
  }

  /** Chaining two steps keeps the announced keys distinct and new. */
  lemma ChainedKeysFresh(known: seq<Fine>, first: seq<Fine>, second: seq<Fine>)
    requires UniqueKeys(first) && UniqueKeys(second)
    requires forall k :: 0 <= k < |first| ==> !HasKey(known, first[k].protocolNumber)
    requires forall k :: 0 <= k < |second| ==> !HasKey(known + first, second[k].protocolNumber)
    ensures UniqueKeys(first + second)
    ensures forall k :: 0 <= k < |first + second| ==> !HasKey(known, (first + second)[k].protocolNumber)
  {
    forall k | 0 <= k < |second|
      ensures !HasKey(first, second[k].protocolNumber) && !HasKey(known, second[k].protocolNumber)
    {
      HasKeyAppend(known, first, second[k].protocolNumber);
    }
    AppendFreshKeepsUnique(first, second);
    forall k | 0 <= k < |first + second|
      ensures !HasKey(known, (first + second)[k].protocolNumber)
    {
      if k >= |first| {
        assert (first + second)[k] == second[k - |first|];
      }
    }
  }

  /** What a run does to the store: it ends normally or aborted; the
      stored list grows by exactly the announced fines (all but the last
      when a send aborted the run); and the announced protocol numbers are
      pairwise distinct and none was stored before. */
  ghost predicate FreshAppend(file: StoreFile, r: Run) {
    && (r.outcome == Completed || r.outcome == Aborted)
    && (r.outcome == Completed ==> Load(r.file) == Load(file) + r.notified)
    && (r.outcome == Aborted ==>
          0 < |r.notified| && Load(r.file) == Load(file) + r.notified[..|r.notified| - 1])
    && (r.notified == [] ==> r.file == file)
    && UniqueKeys(r.notified)
    && forall k :: 0 <= k < |r.notified| ==> !HasKey(Load(file), r.notified[k].protocolNumber)
  }

  lemma RowFreshAppend(file: StoreFile, row: Row, tmpDir: string)
    ensures FreshAppend(file, ProcessRow(file, row, tmpDir))
  {
  }

  lemma ThenFreshAppend(file: StoreFile, s: Run, rest: Run)
    requires FreshAppend(file, s) && s.outcome == Completed
    requires FreshAppend(s.file, rest)
    ensures FreshAppend(file, Then(s, rest))
  {
    ChainedKeysFresh(Load(file), s.notified, rest.notified);
    var r := Then(s, rest);
    if rest.outcome == Aborted {
      assert r.notified[..|r.notified| - 1] == s.notified + rest.notified[..|rest.notified| - 1];
    }
  }

  /** The row loop: rows in order, stopping at the first aborted row. */
  function ProcessRows(file: StoreFile, rows: seq<Row>, tmpDir: string): (r: Run)
    ensures FreshAppend(file, r)
    decreases |rows|
  {
    if |rows| == 0 then Run(file, [], [], Completed)
    else
      var s := ProcessRow(file, rows[0], tmpDir);
      RowFreshAppend(file, rows[0], tmpDir);
      if s.outcome == Aborted then s
      else
        var rest := ProcessRows(s.file, rows[1..], tmpDir);
        ThenFreshAppend(file, s, rest);
        Then(s, rest)
  }

  /** `fetchFines`: stop when the search throws or reports no violations,
      otherwise run the row loop on the listed rows. */
  function FetchFines(file: StoreFile, response: SearchResponse, tmpDir: string): (r: Run)
    ensures r.outcome == SearchFailed <==> response.SearchThrew?
    ensures r.outcome == NoViolationsFound <==> response.Response? && NoViolations(response.bodyText)
    ensures r.outcome == SearchFailed || r.outcome == NoViolationsFound ==>
              r.file == file && r.trace == [] && r.notified == []
    ensures Load(file) <= Load(r.file)
    ensures UniqueKeys(Load(file)) ==> UniqueKeys(Load(r.file))
  {
    match response
    case SearchThrew => Run(file, [], [], SearchFailed)
    case Response(bodyText, rows) =>
      if NoViolations(bodyText) then Run(file, [], [], NoViolationsFound)
      else
        var r := ProcessRows(file, rows, tmpDir);
        var saved := if r.outcome == Completed then r.notified else r.notified[..|r.notified| - 1];
        assert forall k :: 0 <= k < |saved| ==> saved[k] == r.notified[k];
        AppendFreshKeepsUnique(Load(file), saved);
        r
  }
}
