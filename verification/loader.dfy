/** The report table as the loader meets it, and WarehouseLoader's batched inserts, count and delete. */
module Loader {
  import opened Frames
  import opened Errors
  import opened Warehouse
  import opened LoadProtocol

  /** The server side of one table. Every method may answer with an error, whether or not it took effect. */
  class ClickHouseTable {
    var rows: seq<StoredRow>
    var window: seq<Token>
    /** Whether a merge has dropped a row since this was last reset. */
    ghost var merged: bool
    /** Whether the last DELETE was answered with an error. */
    ghost var deleteFailed: bool
    const outside: Outside

    constructor (outside: Outside)
      ensures rows == [] && window == [] && !merged && !deleteFailed && this.outside == outside
    {
      rows, window, merged, deleteFailed := [], [], false, false;
      this.outside := outside;
    }

    /** Any number of background merges: each drops a row that another row of its key outlives. */
    method BackgroundMerge()
      modifies this`rows, this`merged
      ensures Merged(old(rows), rows)
      ensures old(merged) ==> merged
      ensures !merged ==> rows == old(rows)
    {
      assert forall r | r in rows :: Outlived(rows, r) by {
        assert forall r | r in rows :: r.key == r.key && r.version <= r.version;
      }
      while *
        invariant Merged(old(rows), rows)
        invariant old(merged) ==> merged
        invariant !merged ==> rows == old(rows)
        decreases |rows|
      {
        if i, j :| 0 <= i < |rows| && 0 <= j < |rows| && i != j
                   && rows[i].key == rows[j].key && rows[i].version <= rows[j].version
        {
          DropKeepsOutlived(rows, i, j);
          MergesCompose(old(rows), rows, rows[..i] + rows[i + 1..]);
          rows, merged := rows[..i] + rows[i + 1..], true;
        } else {
          break;
        }
      }
    }

    /** INSERT with a deduplication token. No error means the block reached the server; an error leaves
        open whether it did. */
    method InsertBlock(token: Token, block: seq<StoredRow>) returns (error: Option<Error>, ghost landed: bool)
      modifies this`rows, this`window, outside
      ensures outside.faults == old(outside.faults) + Raised(error)
      ensures error.None? ==> landed
      ensures rows == if landed then InsertRows(old(rows), old(window), token, block) else old(rows)
      ensures window == if landed then PushToken(old(window), token) else old(window)
    {
      error := outside.Ask();
      var reached: bool := *;
      landed := reached || error.None?;
      if reached || error.None? {
        rows, window := InsertRows(rows, window, token, block), PushToken(window, token);
      }
    }

    /** SELECT count() WHERE _run_id = runId */
    method CountRun(runId: RunId) returns (count: Result<nat>)
      modifies outside
      ensures outside.faults == old(outside.faults) + Raised(ErrorOf(count))
      ensures count.Success? ==> count.value == |RunRows(rows, runId)|
    {
      var error := outside.Ask();
      if error.Some? {
        count := Failure(error.value);
      } else {
        count := Success(|RunRows(rows, runId)|);
      }
    }

    /** DELETE WHERE _run_id = runId */
    method DeleteRun(runId: RunId) returns (error: Option<Error>)
      modifies this`rows, this`deleteFailed, outside
      ensures outside.faults == old(outside.faults) + Raised(error)
      ensures rows == old(rows) || rows == Without(old(rows), runId)
      ensures error.None? ==> rows == Without(old(rows), runId)
      ensures deleteFailed == error.Some?
    {
      error := outside.Ask();
      deleteFailed := error.Some?;
      var reached: bool := *;
      if reached || error.None? {
        rows := Without(rows, runId);
      }
    }
  }

  lemma DropKeepsOutlived(rows: seq<StoredRow>, i: nat, j: nat)
    requires i < |rows| && j < |rows| && i != j
    requires rows[i].key == rows[j].key && rows[i].version <= rows[j].version
    ensures Merged(rows, rows[..i] + rows[i + 1..])
  {
    var kept := rows[..i] + rows[i + 1..];
    assert rows == rows[..i] + [rows[i]] + rows[i + 1..];
    assert kept[if j < i then j else j - 1] == rows[j];
    forall r | r in rows ensures Outlived(kept, r) {
      var k :| 0 <= k < |rows| && rows[k] == r;
      if k == i {
        assert rows[j] in kept && rows[j].key == r.key && r.version <= rows[j].version;
      } else {
        assert kept[if k < i then k else k - 1] == r;
        assert r in kept && r.key == r.key && r.version <= r.version;
      }
    }
  }

  function JobOf(dataset: seq<Record>, keyColumns: seq<string>, batchSize: nat, runId: RunId, version: nat): Job
    requires batchSize > 0
  {
    Job(Chunks(StoredRows(dataset, keyColumns, runId, version), batchSize), runId, version)
  }

  class WarehouseLoader {
    const table: ClickHouseTable
    const keyColumns: seq<string>
    const batchSize: nat

    constructor (table: ClickHouseTable, keyColumns: seq<string>, batchSize: nat)
      requires batchSize > 0
      ensures this.table == table && this.keyColumns == keyColumns && this.batchSize == batchSize
    {
      this.table, this.keyColumns, this.batchSize := table, keyColumns, batchSize;
    }

    /** One tokened insert, with merges in the background. */
    method InsertBatch(batch: seq<StoredRow>, batchNo: nat, ghost job: Job,
                       ghost base: seq<StoredRow>, ghost w0: seq<Token>, ghost committed: set<nat>)
      returns (error: Option<Error>, ghost now: set<nat>)
      requires job.Valid() && Fresh(base, w0, job) && Progress(base, table.rows, table.window, job, committed)
      requires batchNo < |job.blocks| && batch == job.blocks[batchNo] && batch != []
      modifies table, table.outside
      ensures table.outside.faults == old(table.outside.faults) + Raised(error)
      ensures Progress(base, table.rows, table.window, job, now)
      ensures now == committed || now == committed + {batchNo}
      ensures error.None? ==> batchNo in now
      ensures batchNo !in committed && StoredOnce(old(table.rows), job, committed) ==> StoredOnce(table.rows, job, now)
      ensures old(table.merged) ==> table.merged
      ensures !table.merged ==>
                multiset(Without(table.rows, job.runId)) == multiset(Without(old(table.rows), job.runId))
    {
      hide Progress, Fresh, Without, Merged, StoredOnce;
      now := committed;
      ghost var before := table.rows;
      table.BackgroundMerge();
      MergeKeepsProgress(base, before, table.rows, table.window, w0, job, now);
      if StoredOnce(before, job, committed) {
        MergeKeepsStoredOnce(base, before, table.rows, table.window, w0, job, committed);
        if batchNo !in committed {
          FirstInsertKeepsStoredOnce(base, table.rows, table.window, job, committed, batchNo);
        }
      }
      InsertKeepsProgress(base, table.rows, table.window, job, now, batchNo);
      AppendKeepsOtherRuns(table.rows, batch, job.runId);
      ghost var landed;
      error, landed := table.InsertBlock(Token(batch[0].runId, batchNo), batch);
      if landed { now := now + {batchNo}; }
    }

    /** Insert the dataset batch by batch; the number of rows sent. `base` and `w0` are the table and its
        token window before the run's first attempt, `committed` the blocks earlier attempts left behind. */
    method Load(dataset: seq<Record>, runId: RunId, version: nat, ghost job: Job,
                ghost base: seq<StoredRow>, ghost w0: seq<Token>, ghost committed: set<nat>)
      returns (sent: Result<nat>, ghost now: set<nat>)
      requires batchSize > 0
      requires job == JobOf(dataset, keyColumns, batchSize, runId, version) && job.Valid()
      requires Fresh(base, w0, job) && Progress(base, table.rows, table.window, job, committed)
      modifies table, table.outside
      ensures table.outside.faults == old(table.outside.faults) + Raised(ErrorOf(sent))
      ensures Progress(base, table.rows, table.window, job, now)
      ensures committed <= now
      ensures sent.Success? ==> sent.value == |dataset| && now == AllBlocks(job)
      ensures committed == {} && StoredOnce(old(table.rows), job, {}) ==> StoredOnce(table.rows, job, now)
      ensures old(table.merged) ==> table.merged
      ensures !table.merged ==> multiset(Without(table.rows, runId)) == multiset(Without(old(table.rows), runId))
    {
      hide Progress, Fresh, Without, job.Valid, StoredOnce;
      CommittedBlocksExist(base, table.rows, table.window, job, committed);
      now := committed;
      var start, batchNo := 0, 0;
      while start < |dataset|
        invariant AtBatch(job, StoredRows(dataset, keyColumns, runId, version), batchSize, start, batchNo)
        invariant Progress(base, table.rows, table.window, job, now)
        invariant committed <= now <= AllBlocks(job) && Below(batchNo) <= now
        invariant committed == {} ==> now == Below(batchNo)
        invariant committed == {} && StoredOnce(old(table.rows), job, {}) ==> StoredOnce(table.rows, job, now)
        invariant table.outside.faults == old(table.outside.faults)
        invariant old(table.merged) ==> table.merged
        invariant !table.merged ==> multiset(Without(table.rows, runId)) == multiset(Without(old(table.rows), runId))
        decreases |dataset| - start
      {
        var end := if start + batchSize < |dataset| then start + batchSize else |dataset|;
        var batch := StoredRows(dataset[start..end], keyColumns, runId, version);
        assert batch == StoredRows(dataset, keyColumns, runId, version)[start..end];
        NextBatch(job, StoredRows(dataset, keyColumns, runId, version), start, end, batchNo, batchSize);
        var error;
        error, now := InsertBatch(batch, batchNo, job, base, w0, now);
        if error.Some? {
          sent := Failure(error.value);
          return;
        }
        start, batchNo := end, batchNo + 1;
      }
      sent := Success(|dataset|);
    }

    /** The run's rows, if there are as many as expected. */
    method Verify(runId: RunId, expected: nat) returns (found: Result<nat>)
      modifies table`rows, table`merged, table.outside
      ensures Merged(old(table.rows), table.rows)
      ensures found.Success? ==>
                && found.value == expected == |RunRows(table.rows, runId)|
                && table.outside.faults == old(table.outside.faults)
      ensures found.Failure? ==>
                if table.outside.faults == old(table.outside.faults)
                then found.error == DomainError(Stage.Verify, false) && |RunRows(table.rows, runId)| != expected
                else table.outside.faults == old(table.outside.faults) + [found.error]
      ensures old(table.merged) ==> table.merged
      ensures !table.merged ==> table.rows == old(table.rows)
    {
      table.BackgroundMerge();
      found := table.CountRun(runId);
      if found.Success? && found.value != expected {
        found := Failure(DomainError(Stage.Verify, false));
      }
    }

    /** Delete the rows of a failed run, whatever part of them it inserted. */
    method Rollback(runId: RunId) returns (error: Option<Error>)
      modifies table`rows, table`merged, table`deleteFailed, table.outside
      ensures table.outside.faults == old(table.outside.faults) + Raised(error)
      ensures table.deleteFailed == error.Some?
      ensures old(table.merged) ==> table.merged
      ensures error.None? ==> forall r | r in table.rows :: r.runId != runId
      ensures error.None? && !table.merged ==> table.rows == Without(old(table.rows), runId)
      ensures exists between ::
                && Merged(old(table.rows), between)
                && (table.rows == Without(between, runId) || (error.Some? && table.rows == between))
    {
      table.BackgroundMerge();
      ghost var between := table.rows;
      WithoutMembers(between, runId);
      error := table.DeleteRun(runId);
      assert Merged(old(table.rows), between);
    }
  }

  /** Batches before batchNo cover exactly the rows before start. */
  ghost predicate AtBatch(job: Job, stored: seq<StoredRow>, size: nat, start: nat, batchNo: nat)
    requires size > 0
  {
    start <= |stored| && batchNo <= |job.blocks| && job.blocks[batchNo..] == Chunks(stored[start..], size)
  }

  lemma NextBatch(job: Job, stored: seq<StoredRow>, start: nat, end: nat, batchNo: nat, size: nat)
    requires size > 0 && start < |stored| && AtBatch(job, stored, size, start, batchNo)
    requires end == if start + size < |stored| then start + size else |stored|
    ensures batchNo < |job.blocks| && job.blocks[batchNo] == stored[start..end]
    ensures AtBatch(job, stored, size, end, batchNo + 1)
  {
    var rest := stored[start..];
    assert rest != [];
    assert job.blocks[batchNo..][0] == job.blocks[batchNo];
    assert job.blocks[batchNo + 1..] == job.blocks[batchNo..][1..];
    if |rest| <= size {
      assert stored[start..end] == rest && stored[end..] == [];
    } else {
      assert stored[start..end] == rest[..size] && stored[end..] == rest[size..];
    }
  }
}
