/** The row loop of `fetchFines` in the shape the source gives it: a `for`
    loop over the rows that leaves through the outer `catch` as soon as a
    send throws. */
module RowLoop {
  import opened Optional
  import opened Sequences
  import opened Fines
  import opened Effects
  import opened Store
  import opened Listing
  import opened Detail
  import opened Notifier
  import opened Orchestrator
  import opened RunProperties

  /** One more row extends the fold by one step. */
  lemma LoopExtends(file: StoreFile, rows: seq<Row>, i: nat, r: Run, tmpDir: string)
    requires i < |rows|
    requires r == ProcessRows(file, rows[..i], tmpDir) && r.outcome == Completed
    ensures ProcessRows(file, rows[..i + 1], tmpDir) == Then(r, ProcessRow(r.file, rows[i], tmpDir))
  {
    var prefix, row := rows[..i], rows[i];
    CompletedRunContinues(file, prefix, [row], tmpDir);
    SingleRow(r.file, row, tmpDir);
    ExtendPrefix(rows, i);
  }

  /** An aborted step is where the fold of all the rows ends. */
  lemma LoopAbortEnds(file: StoreFile, rows: seq<Row>, i: nat, tmpDir: string)
    requires i < |rows|
    requires ProcessRows(file, rows[..i + 1], tmpDir).outcome == Aborted
    ensures ProcessRows(file, rows, tmpDir) == ProcessRows(file, rows[..i + 1], tmpDir)
  {
    var prefix, suffix := rows[..i + 1], rows[i + 1..];
    AbortedRunIgnoresLaterRows(file, prefix, suffix, tmpDir);
    SplitAt(rows, i + 1);
  }

  /** The `for` loop over the rows computes exactly the fold: same store
      file, same effects in the same order, same announcements, same way of
      ending. */
  method RunRows(file: StoreFile, rows: seq<Row>, tmpDir: string) returns (r: Run)
    ensures r == ProcessRows(file, rows, tmpDir)
  {
    r := Run(file, [], [], Completed);
    for i := 0 to |rows|
      invariant r == ProcessRows(file, rows[..i], tmpDir)
      invariant r.outcome == Completed
    {
      var step := ProcessRow(r.file, rows[i], tmpDir);
      LoopExtends(file, rows, i, r, tmpDir);
      if step.outcome == Aborted {
        LoopAbortEnds(file, rows, i, tmpDir);
        return Then(r, step);
      }
      r := Then(r, step);
    }
    assert rows[..|rows|] == rows;
  }
}
