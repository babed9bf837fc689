/** What the row loop guarantees across rows and across runs. */
module RunProperties {
  import opened Optional
  import opened Sequences
  import opened Fines
  import opened Effects
  import opened Store
  import opened Listing
  import opened Detail
  import opened Notifier
  import opened Orchestrator

  /** Pairwise distinct stored protocol numbers stay pairwise distinct
      after one more row. */
  lemma RowKeepsKeysUnique(file: StoreFile, row: Row, tmpDir: string)
    requires UniqueKeys(Load(file))
    ensures UniqueKeys(Load(ProcessRow(file, row, tmpDir).file))
  {
    var s := ProcessRow(file, row, tmpDir);
    AppendFreshKeepsUnique(Load(file), s.notified);
  }

  /** A row whose fine is already stored costs one detail fetch and nothing
      else: no message, no save, and its downloaded images stay on disk. */
  lemma KnownFineIsSilent(file: StoreFile, row: Row, tmpDir: string)
    requires RowFine(row, tmpDir).Some?
    requires HasKey(Load(file), RowFine(row, tmpDir).value.protocolNumber)
    ensures DetailLink(row.anchors).Some?
    ensures ProcessRow(file, row, tmpDir) == Run(file, [FetchDetail(DetailLink(row.anchors).value)], [], Completed)
    ensures Deleted(ProcessRow(file, row, tmpDir).trace) == []
  {
    var s := ProcessRow(file, row, tmpDir);
    assert s.trace == [FetchDetail(DetailLink(row.anchors).value)];
    assert Deleted(s.trace) == Deleted(s.trace[1..]) == Deleted([]);
  }

  /** The rows that yield a fine: a detail link and a detail record. */
  function Contributing(rows: seq<Row>, tmpDir: string): seq<Row> {
    Filter(rows, (row: Row) => RowFine(row, tmpDir).Some?)
  }

  /** The fines the rows yield, in row order, one per row that has a
      detail link and a detail record. */
  function Yielded(rows: seq<Row>, tmpDir: string): seq<Fine>
    decreases |rows|
  {
    if |rows| == 0 then []
    else match RowFine(rows[0], tmpDir)
      case None => Yielded(rows[1..], tmpDir)
      case Some(f) => [f] + Yielded(rows[1..], tmpDir)
  }

  /** Nothing is announced out of thin air: every fine a run starts to
      announce is a fine one of its rows yields, even when the run aborts. */
  lemma {:induction false} AnnouncedFinesComeFromRows(file: StoreFile, rows: seq<Row>, tmpDir: string)
    ensures forall x :: x in ProcessRows(file, rows, tmpDir).notified ==> x in Yielded(rows, tmpDir)
    decreases |rows|
  {
    if |rows| > 0 {
      var s := ProcessRow(file, rows[0], tmpDir);
      var here := Yielded(rows, tmpDir);
      var later := Yielded(rows[1..], tmpDir);
      assert forall x :: x in later ==> x in here;
      assert forall x :: x in s.notified ==> x in here;
      if s.outcome == Completed {
        var rest := ProcessRows(s.file, rows[1..], tmpDir);
        AnnouncedFinesComeFromRows(s.file, rows[1..], tmpDir);
        assert ProcessRows(file, rows, tmpDir).notified == s.notified + rest.notified;
      }
    }
  }

  /** Rows skipped for want of a payment link or detail link, or whose
      detail fetch failed, change nothing: dropping them leaves the store,
      the announcements and the outcome as they were, and the rows after
      them are processed as before. */
  lemma {:induction false} SkippedRowsContributeNothing(file: StoreFile, rows: seq<Row>, tmpDir: string)
    ensures ProcessRows(file, rows, tmpDir).file == ProcessRows(file, Contributing(rows, tmpDir), tmpDir).file
    ensures ProcessRows(file, rows, tmpDir).notified == ProcessRows(file, Contributing(rows, tmpDir), tmpDir).notified
    ensures ProcessRows(file, rows, tmpDir).outcome == ProcessRows(file, Contributing(rows, tmpDir), tmpDir).outcome
    decreases |rows|
  {
    if |rows| > 0 {
      var p := (row: Row) => RowFine(row, tmpDir).Some?;
      var s := ProcessRow(file, rows[0], tmpDir);
      var tail := Contributing(rows[1..], tmpDir);
      if RowFine(rows[0], tmpDir).None? {
        assert Contributing(rows, tmpDir) == tail;
        SkippedRowsContributeNothing(file, rows[1..], tmpDir);
      } else {
        var kept := Contributing(rows, tmpDir);
        assert kept == [rows[0]] + tail;
        assert kept[0] == rows[0] && kept[1..] == tail;
        if s.outcome == Completed {
          SkippedRowsContributeNothing(s.file, rows[1..], tmpDir);
        }
      }
    }
  }

  /** Every protocol number the listed rows yield is in the store: the
      rows' fines have all been seen. */
  ghost predicate RowsKnown(known: seq<Fine>, rows: seq<Row>, tmpDir: string) {
    forall k :: 0 <= k < |rows| && RowFine(rows[k], tmpDir).Some? ==>
      HasKey(known, RowFine(rows[k], tmpDir).value.protocolNumber)
  }

  /** After a run that went through all its rows, every fine those rows
      yield is stored, whether it was announced now or before. */
  lemma {:induction false} CompletedRunStoresEveryKey(file: StoreFile, rows: seq<Row>, tmpDir: string)
    requires ProcessRows(file, rows, tmpDir).outcome == Completed
    ensures RowsKnown(Load(ProcessRows(file, rows, tmpDir).file), rows, tmpDir)
    decreases |rows|
  {
    if |rows| > 0 {
      var s := ProcessRow(file, rows[0], tmpDir);
      var rest := ProcessRows(s.file, rows[1..], tmpDir);
      var r := ProcessRows(file, rows, tmpDir);
      assert s.outcome == Completed;
      assert r == Then(s, rest);
      CompletedRunStoresEveryKey(s.file, rows[1..], tmpDir);
      forall k | 0 <= k < |rows| && RowFine(rows[k], tmpDir).Some?
        ensures HasKey(Load(r.file), RowFine(rows[k], tmpDir).value.protocolNumber)
      {
        var key := RowFine(rows[k], tmpDir).value.protocolNumber;
        if k == 0 {
          if s.notified != [] {
            assert Load(s.file)[|Load(file)|] == s.notified[0];
          }
          assert HasKey(Load(s.file), key);
          HasKeyAppend(Load(s.file), rest.notified, key);
        } else {
          assert rows[k] == rows[1..][k - 1];
        }
      }
    }
  }

  /** A run over rows whose fines are all stored changes nothing and sends
      nothing: its only effects are detail fetches. */
  lemma {:induction false} KnownRowsChangeNothing(file: StoreFile, rows: seq<Row>, tmpDir: string)
    requires RowsKnown(Load(file), rows, tmpDir)
    ensures ProcessRows(file, rows, tmpDir).file == file
    ensures ProcessRows(file, rows, tmpDir).notified == []
    ensures ProcessRows(file, rows, tmpDir).outcome == Completed
    ensures forall k :: 0 <= k < |ProcessRows(file, rows, tmpDir).trace| ==>
              ProcessRows(file, rows, tmpDir).trace[k].FetchDetail?
    decreases |rows|
  {
    if |rows| > 0 {
      var s := ProcessRow(file, rows[0], tmpDir);
      assert s.notified == [];
      assert forall k :: 0 <= k < |s.trace| ==> s.trace[k].FetchDetail?;
      assert RowsKnown(Load(file), rows[1..], tmpDir) by {
        forall k | 0 <= k < |rows[1..]|
          ensures rows[1..][k] == rows[k + 1]
        {
        }
      }
      KnownRowsChangeNothing(file, rows[1..], tmpDir);
    }
  }

  /** Running the row loop again over the same rows, after a run that got
      through them all, leaves the store as it is and announces nothing. */
  lemma RerunIsIdempotent(file: StoreFile, rows: seq<Row>, tmpDir: string)
    requires ProcessRows(file, rows, tmpDir).outcome == Completed
    ensures var first := ProcessRows(file, rows, tmpDir);
            var second := ProcessRows(first.file, rows, tmpDir);
            && second.file == first.file
            && second.notified == []
            && second.outcome == Completed
            && forall k :: 0 <= k < |second.trace| ==> second.trace[k].FetchDetail?
  {
    CompletedRunStoresEveryKey(file, rows, tmpDir);
    KnownRowsChangeNothing(ProcessRows(file, rows, tmpDir).file, rows, tmpDir);
  }

  /** The same, for the whole `fetchFines` run on an unchanged search
      result: unless the first run was aborted by a failed send, the second
      changes nothing, sends nothing and ends the same way. */
  lemma FetchFinesTwiceChangesNothing(file: StoreFile, response: SearchResponse, tmpDir: string)
    requires FetchFines(file, response, tmpDir).outcome != Aborted
    ensures var first := FetchFines(file, response, tmpDir);
            var second := FetchFines(first.file, response, tmpDir);
            && second.file == first.file
            && second.notified == []
            && second.outcome == first.outcome
            && forall k :: 0 <= k < |second.trace| ==> second.trace[k].FetchDetail?
  {
    if response.Response? && !NoViolations(response.bodyText) {
      RerunIsIdempotent(file, response.rows, tmpDir);
    }
  }

  /** Because the store is reloaded for every row, a protocol number that
      several rows yield in one completed run, and that was not stored
      before, is announced exactly once. */
  lemma EachNewKeyAnnouncedOnce(file: StoreFile, rows: seq<Row>, tmpDir: string, key: string)
    requires ProcessRows(file, rows, tmpDir).outcome == Completed
    requires exists k :: 0 <= k < |rows| && RowFine(rows[k], tmpDir).Some? && RowFine(rows[k], tmpDir).value.protocolNumber == key
    requires !HasKey(Load(file), key)
    ensures var r := ProcessRows(file, rows, tmpDir);
            exists i :: 0 <= i < |r.notified| && r.notified[i].protocolNumber == key
                        && forall j :: 0 <= j < |r.notified| && r.notified[j].protocolNumber == key ==> j == i
  {
    var r := ProcessRows(file, rows, tmpDir);
    CompletedRunStoresEveryKey(file, rows, tmpDir);
    HasKeyAppend(Load(file), r.notified, key);
    var i :| 0 <= i < |r.notified| && r.notified[i].protocolNumber == key;
    assert forall j :: 0 <= j < |r.notified| && r.notified[j].protocolNumber == key ==> j == i;
  }

  /** Once a send has aborted the loop, later rows are never looked at. */
  lemma {:induction false} AbortedRunIgnoresLaterRows(file: StoreFile, rows: seq<Row>, more: seq<Row>, tmpDir: string)
    requires ProcessRows(file, rows, tmpDir).outcome == Aborted
    ensures ProcessRows(file, rows + more, tmpDir) == ProcessRows(file, rows, tmpDir)
    decreases |rows|
  {
    var s := ProcessRow(file, rows[0], tmpDir);
    AppendHeadTail(rows, more);
    if s.outcome == Completed {
      AbortedRunIgnoresLaterRows(s.file, rows[1..], more, tmpDir);
    }
  }

  lemma ThenAssociative(a: Run, b: Run, c: Run)
    ensures Then(a, Then(b, c)) == Then(Then(a, b), c)
  {
    assert a.trace + (b.trace + c.trace) == (a.trace + b.trace) + c.trace;
    assert a.notified + (b.notified + c.notified) == (a.notified + b.notified) + c.notified;
  }

  /** The loop over one row is that row's step. */
  lemma SingleRow(file: StoreFile, row: Row, tmpDir: string)
    ensures ProcessRows(file, [row], tmpDir) == ProcessRow(file, row, tmpDir)
  {
    var s := ProcessRow(file, row, tmpDir);
    assert [row][1..] == [];
    assert s.trace + [] == s.trace && s.notified + [] == s.notified;
  }

  /** A first row that completes is followed by the run over the rest. */
  lemma UnfoldCompleted(file: StoreFile, rows: seq<Row>, tmpDir: string)
    requires |rows| > 0 && ProcessRow(file, rows[0], tmpDir).outcome == Completed
    ensures var s := ProcessRow(file, rows[0], tmpDir);
            ProcessRows(file, rows, tmpDir) == Then(s, ProcessRows(s.file, rows[1..], tmpDir))
  {
  }

  /** A run that gets through its rows continues with the next rows from
      the store it left. */
  lemma {:induction false} CompletedRunContinues(file: StoreFile, rows: seq<Row>, more: seq<Row>, tmpDir: string)
    requires ProcessRows(file, rows, tmpDir).outcome == Completed
    ensures var first := ProcessRows(file, rows, tmpDir);
            ProcessRows(file, rows + more, tmpDir) == Then(first, ProcessRows(first.file, more, tmpDir))
    decreases |rows|
  {
    if |rows| == 0 {
      assert rows + more == more;
    } else {
      var s := ProcessRow(file, rows[0], tmpDir);
      assert s.outcome == Completed;
      var rest := ProcessRows(s.file, rows[1..], tmpDir);
      var last := ProcessRows(rest.file, more, tmpDir);
      UnfoldCompleted(file, rows, tmpDir);
      AppendHeadTail(rows, more);
      UnfoldCompleted(file, rows + more, tmpDir);
      CompletedRunContinues(s.file, rows[1..], more, tmpDir);
      ThenAssociative(s, rest, last);
    }
  }
}
