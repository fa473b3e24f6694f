/** The ReplacingMergeTree table behind a report: stored versions, the FINAL view, the insert-token
    window, background merges and deletion by run. */
module Warehouse {
  import opened Frames

  type RunId = string

  /** A data row with its two lineage columns. */
  datatype StoredRow = StoredRow(key: Key, record: Record, runId: RunId, version: nat)

  /** insert_deduplication_token */
  datatype Token = Token(runId: RunId, batch: nat)

  const DEDUP_WINDOW: nat := 1000

  // --- the FINAL view ----------------------------------------------------------------------------

  /** The data consumers read: per natural key the record of the newest version, the later row on a tie. */
  function FinalView(rows: seq<StoredRow>): map<Key, Record> {
    if rows == [] then map[]
    else
      var earlier, last := rows[..|rows| - 1], rows[|rows| - 1];
      var view := FinalView(earlier);
      if forall r | r in earlier && r.key == last.key :: r.version <= last.version
      then view[last.key := last.record] else view
  }

  /** Within a key a version identifies one row: versions differ between runs, keys within a run. */
  ghost predicate OneRowPerVersion(rows: seq<StoredRow>) {
    forall r, s :: r in rows && s in rows && r.key == s.key && r.version == s.version ==> r == s
  }

  ghost predicate Newest(rows: seq<StoredRow>, row: StoredRow) {
    row in rows && forall r | r in rows && r.key == row.key :: r.version <= row.version
  }

  /** Every shown record is that of a newest stored row. */
  lemma {:induction false} ShownRow(rows: seq<StoredRow>, key: Key) returns (row: StoredRow)
    requires key in FinalView(rows)
    ensures Newest(rows, row) && row.key == key && row.record == FinalView(rows)[key]
  {
    var earlier, last := rows[..|rows| - 1], rows[|rows| - 1];
    assert rows == earlier + [last];
    if last.key == key && forall r | r in earlier && r.key == last.key :: r.version <= last.version {
      row := last;
    } else {
      row := ShownRow(earlier, key);
    }
  }

  lemma {:induction false} StoredKeyIsShown(rows: seq<StoredRow>, row: StoredRow)
    requires row in rows
    ensures row.key in FinalView(rows)
  {
    var earlier, last := rows[..|rows| - 1], rows[|rows| - 1];
    assert rows == earlier + [last];
    if row in earlier {
      StoredKeyIsShown(earlier, row);
    } else if r :| r in earlier && r.key == last.key && r.version > last.version {
      StoredKeyIsShown(earlier, r);
    }
  }

  /** With one row per version, a newest row is the one FINAL shows. */
  lemma NewestIsShown(rows: seq<StoredRow>, row: StoredRow)
    requires OneRowPerVersion(rows) && Newest(rows, row)
    ensures row.key in FinalView(rows) && FinalView(rows)[row.key] == row.record
  {
    StoredKeyIsShown(rows, row);
    var shown := ShownRow(rows, row.key);
  }

  // --- background merges -------------------------------------------------------------------------

  ghost predicate Outlived(rows: seq<StoredRow>, row: StoredRow) {
    exists s :: s in rows && s.key == row.key && row.version <= s.version
  }

  /** Any number of merges: rows only disappear, and never the last newest one of a key. */
  ghost predicate Merged(before: seq<StoredRow>, after: seq<StoredRow>) {
    && multiset(after) <= multiset(before)
    && forall r | r in before :: Outlived(after, r)
  }

  lemma MergedMembers(before: seq<StoredRow>, after: seq<StoredRow>)
    requires multiset(after) <= multiset(before)
    ensures forall r | r in after :: r in before
  {
    forall r | r in after ensures r in before {
      assert r in multiset(after);
    }
  }

  lemma MergesCompose(a: seq<StoredRow>, b: seq<StoredRow>, c: seq<StoredRow>)
    requires Merged(a, b) && Merged(b, c)
    ensures Merged(a, c)
  {
    forall r | r in a ensures Outlived(c, r) {
      var s :| s in b && s.key == r.key && r.version <= s.version;
      assert Outlived(c, s);
    }
  }

  /** A newest row survives every merge. */
  lemma NewestSurvives(before: seq<StoredRow>, after: seq<StoredRow>, row: StoredRow)
    requires OneRowPerVersion(before) && Merged(before, after) && Newest(before, row)
    ensures Newest(after, row)
  {
    MergedMembers(before, after);
    assert Outlived(after, row);
  }

  /** Only some of the rows, each of the others outlived by one of them. */
  ghost predicate Thinned(before: seq<StoredRow>, after: seq<StoredRow>) {
    && (forall r | r in after :: r in before)
    && (forall r | r in before :: Outlived(after, r))
  }

  lemma ThinnedShowsTheKey(before: seq<StoredRow>, after: seq<StoredRow>, key: Key)
    requires OneRowPerVersion(before) && OneRowPerVersion(after) && Thinned(before, after)
    requires key in FinalView(before)
    ensures key in FinalView(after) && FinalView(after)[key] == FinalView(before)[key]
  {
    var r := ShownRow(before, key);
    hide FinalView;
    assert Outlived(after, r);
    NewestIsShown(after, r);
  }

  lemma ThinnedShowsTheSame(before: seq<StoredRow>, after: seq<StoredRow>)
    requires OneRowPerVersion(before) && Thinned(before, after)
    ensures OneRowPerVersion(after) && FinalView(after) == FinalView(before)
  {
    forall k | k in FinalView(before)
      ensures k in FinalView(after) && FinalView(after)[k] == FinalView(before)[k]
    {
      ThinnedShowsTheKey(before, after, k);
    }
    forall k | k in FinalView(after) ensures k in FinalView(before) {
      var r := ShownRow(after, k);
      StoredKeyIsShown(before, r);
    }
  }

  /** Merge immunity of readers: FINAL shows the same data before and after any merges. */
  lemma MergesKeepTheView(before: seq<StoredRow>, after: seq<StoredRow>)
    requires OneRowPerVersion(before) && Merged(before, after)
    ensures OneRowPerVersion(after) && FinalView(after) == FinalView(before)
  {
    MergedMembers(before, after);
    ThinnedShowsTheSame(before, after);
  }

  // --- rows of one run ---------------------------------------------------------------------------

  /** WHERE _run_id = runId */
  function RunRows(rows: seq<StoredRow>, runId: RunId): seq<StoredRow> {
    if rows == [] then []
    else (if rows[0].runId == runId then [rows[0]] else []) + RunRows(rows[1..], runId)
  }

  /** What DELETE ... WHERE _run_id = runId leaves. */
  function Without(rows: seq<StoredRow>, runId: RunId): seq<StoredRow> {
    if rows == [] then []
    else (if rows[0].runId != runId then [rows[0]] else []) + Without(rows[1..], runId)
  }

  lemma {:induction false} SplitByRun(rows: seq<StoredRow>, runId: RunId)
    ensures forall r :: multiset(RunRows(rows, runId))[r] == if r.runId == runId then multiset(rows)[r] else 0
    ensures forall r :: multiset(Without(rows, runId))[r] == if r.runId != runId then multiset(rows)[r] else 0
  {
    if rows != [] {
      SplitByRun(rows[1..], runId);
      assert rows == [rows[0]] + rows[1..];
    }
  }

  lemma WithoutMembers(rows: seq<StoredRow>, runId: RunId)
    ensures forall r :: r in Without(rows, runId) <==> r in rows && r.runId != runId
    ensures forall r :: r in RunRows(rows, runId) <==> r in rows && r.runId == runId
  {
    SplitByRun(rows, runId);
    forall r ensures (r in Without(rows, runId) <==> r in rows && r.runId != runId)
                  && (r in RunRows(rows, runId) <==> r in rows && r.runId == runId)
    {
      assert r in rows <==> multiset(rows)[r] > 0;
      assert r in Without(rows, runId) <==> multiset(Without(rows, runId))[r] > 0;
      assert r in RunRows(rows, runId) <==> multiset(RunRows(rows, runId))[r] > 0;
    }
  }

  // --- overlaying datasets -----------------------------------------------------------------------

  /** Loading a dataset over a view, key by key. */
  function Overlay(view: map<Key, Record>, dataset: seq<Record>, keyColumns: seq<string>): map<Key, Record>
    decreases dataset
  {
    if dataset == [] then view
    else Overlay(view[KeyOf(dataset[0], keyColumns) := dataset[0]], dataset[1..], keyColumns)
  }

  /** The view a sequence of loads should leave behind. */
  function OverlayAll(datasets: seq<seq<Record>>, keyColumns: seq<string>): map<Key, Record> {
    if datasets == [] then map[]
    else Overlay(OverlayAll(datasets[..|datasets| - 1], keyColumns), datasets[|datasets| - 1], keyColumns)
  }

  lemma {:induction false} OverlayAt(view: map<Key, Record>, dataset: seq<Record>, keyColumns: seq<string>)
    requires UniqueKeys(dataset, keyColumns)
    ensures forall r | r in dataset ::
              var o := Overlay(view, dataset, keyColumns);
              KeyOf(r, keyColumns) in o && o[KeyOf(r, keyColumns)] == r
    ensures forall k | (forall r | r in dataset :: KeyOf(r, keyColumns) != k) ::
              var o := Overlay(view, dataset, keyColumns);
              (k in o <==> k in view) && (k in o ==> o[k] == view[k])
    decreases dataset
  {
    if dataset != [] {
      var head := dataset[0];
      OverlayAt(view[KeyOf(head, keyColumns) := head], dataset[1..], keyColumns);
      assert dataset == [head] + dataset[1..];
      assert forall r | r in dataset[1..] :: KeyOf(r, keyColumns) != KeyOf(head, keyColumns);
    }
  }

  /** Loading a dataset whose records the view already shows changes nothing. */
  lemma {:induction false} OverlayOfShownRecords(view: map<Key, Record>, dataset: seq<Record>, keyColumns: seq<string>)
    requires forall r | r in dataset :: KeyOf(r, keyColumns) in view && view[KeyOf(r, keyColumns)] == r
    ensures Overlay(view, dataset, keyColumns) == view
  {
    if dataset != [] {
      assert view[KeyOf(dataset[0], keyColumns) := dataset[0]] == view;
      OverlayOfShownRecords(view, dataset[1..], keyColumns);
    }
  }

  /** Loading a dataset changes nothing exactly when the view shows all its records already. */
  lemma OverlayChangesNothingIff(view: map<Key, Record>, dataset: seq<Record>, keyColumns: seq<string>)
    requires UniqueKeys(dataset, keyColumns)
    ensures Overlay(view, dataset, keyColumns) == view <==>
            forall r | r in dataset :: KeyOf(r, keyColumns) in view && view[KeyOf(r, keyColumns)] == r
  {
    OverlayAt(view, dataset, keyColumns);
    hide Overlay;
    if forall r | r in dataset :: KeyOf(r, keyColumns) in view && view[KeyOf(r, keyColumns)] == r {
      OverlayOfShownRecords(view, dataset, keyColumns);
    }
  }

  /** X, then Y over the same key, then X again: the third load changes the view although the same data was
      loaded before, so only the latest load may be compared. */
  lemma ReloadAfterAnotherLoadMatters(x: Record, y: Record, keyColumns: seq<string>)
    requires KeyOf(x, keyColumns) == KeyOf(y, keyColumns) && x != y
    ensures var view := OverlayAll([[x], [y]], keyColumns); Overlay(view, [x], keyColumns) != view
  {
    var view := OverlayAll([[x], [y]], keyColumns);
    assert [[x], [y]][..1] == [[x]];
    OverlayAt(OverlayAll([[x]], keyColumns), [y], keyColumns);
    assert y in [y];
    OverlayChangesNothingIff(view, [x], keyColumns);
    assert x in [x];
  }
}
