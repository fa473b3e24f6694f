/** Where the load guarantees end: rollback when merges run in between, and retries past the token window. */
module LoadLimits {
  import opened Frames
  import opened Warehouse
  import opened LoadProtocol

  // --- rollback under merges ---------------------------------------------------------------------

  ghost predicate Shows(rows: seq<StoredRow>, key: Key, record: Record) {
    key in FinalView(rows) && FinalView(rows)[key] == record
  }

  /** Every key shows what `base` shows for it, or nothing. */
  ghost predicate OldOrNothing(base: seq<StoredRow>, rows: seq<StoredRow>) {
    forall k, record | Shows(rows, k, record) :: Shows(base, k, record)
  }

  /** Whatever merges ran between the inserts of `block` and the rollback. */
  ghost predicate RollbackSafe(base: seq<StoredRow>, block: seq<StoredRow>, runId: RunId) {
    forall rows: seq<StoredRow> | Merged(base + block, rows) :: OldOrNothing(base, Without(rows, runId))
  }

  function KeysIn(rows: seq<StoredRow>): set<Key> {
    set r | r in rows :: r.key
  }

  /** The natural keys of a dataset. */
  function CarriedKeys(frame: seq<Record>, keyColumns: seq<string>): set<Key> {
    set r | r in frame :: KeyOf(r, keyColumns)
  }

  lemma StoredKeys(frame: seq<Record>, keyColumns: seq<string>, runId: RunId, version: nat)
    ensures KeysIn(StoredRows(frame, keyColumns, runId, version)) == CarriedKeys(frame, keyColumns)
  {
    var stored := StoredRows(frame, keyColumns, runId, version);
    forall r | r in frame ensures KeyOf(r, keyColumns) in KeysIn(stored) {
      var i :| 0 <= i < |frame| && frame[i] == r;
      assert stored[i] in stored;
    }
  }

  /** No stored version of a key the run touches differs from the shown one. */
  ghost predicate VersionsAgree(base: seq<StoredRow>, keys: set<Key>) {
    forall r | r in base && r.key in keys :: Shows(base, r.key, r.record)
  }

  /** None of the keys is stored. */
  ghost predicate AreNew(base: seq<StoredRow>, keys: set<Key>) {
    forall r | r in base :: r.key !in keys
  }

  /** A run's inserted rows over an older table. */
  ghost predicate InsertedOver(base: seq<StoredRow>, block: seq<StoredRow>, runId: RunId, version: nat) {
    && OneRowPerVersion(base)
    && (forall r | r in base :: r.version < version && r.runId != runId)
    && (forall b | b in block :: b.version == version && b.runId == runId)
  }

  /** With merges in the way, a rollback shows the earlier data or nothing for every key, under every
      merge schedule, exactly when no outdated version with other data was still stored for a touched
      key. Otherwise some schedule makes an outdated version resurface. */
  lemma RollbackSafeIffVersionsAgree(base: seq<StoredRow>, block: seq<StoredRow>, runId: RunId, version: nat)
    requires InsertedOver(base, block, runId, version)
    ensures RollbackSafe(base, block, runId) <==> VersionsAgree(base, KeysIn(block))
  {
    if VersionsAgree(base, KeysIn(block)) {
      AgreeingVersionsAreSafe(base, block, runId, version);
    }
    if RollbackSafe(base, block, runId) {
      forall r | r in base && r.key in KeysIn(block) ensures Shows(base, r.key, r.record) {
        var b :| b in block && b.key == r.key;
        SafeRollbackNeedsAgreement(base, block, runId, version, r, b);
      }
    }
  }

  /** Merges between two inserts are merges after both, so one block stands for all inserts of a run. */
  lemma MergesBetweenInserts(base: seq<StoredRow>, first: seq<StoredRow>, rows: seq<StoredRow>, second: seq<StoredRow>)
    requires Merged(base + first, rows)
    ensures Merged(base + (first + second), rows + second)
  {
    assert base + (first + second) == (base + first) + second;
    forall r | r in base + (first + second) ensures Outlived(rows + second, r) {
      if r in base + first {
        var s :| s in rows && s.key == r.key && r.version <= s.version;
        assert s in rows + second;
      } else {
        assert r in rows + second && r.key == r.key && r.version <= r.version;
      }
    }
  }

  lemma SafeRollbackNeedsAgreement(base: seq<StoredRow>, block: seq<StoredRow>, runId: RunId, version: nat,
        r: StoredRow, b: StoredRow)
    requires InsertedOver(base, block, runId, version) && RollbackSafe(base, block, runId)
    requires r in base && b in block && r.key == b.key
    ensures Shows(base, r.key, r.record)
  {
    var rows := OutdatedVersionResurfaces(base, block, runId, version, r, b);
    assert OldOrNothing(base, Without(rows, runId));
  }

  lemma AgreeingVersionsAreSafe(base: seq<StoredRow>, block: seq<StoredRow>, runId: RunId, version: nat)
    requires InsertedOver(base, block, runId, version) && VersionsAgree(base, KeysIn(block))
    ensures RollbackSafe(base, block, runId)
  {
    forall rows: seq<StoredRow> | Merged(base + block, rows) ensures OldOrNothing(base, Without(rows, runId)) {
      forall k, record | Shows(Without(rows, runId), k, record) ensures Shows(base, k, record) {
        SurvivorShowsOldData(base, block, runId, version, rows, k, record);
      }
    }
  }

  lemma SurvivorShowsOldData(base: seq<StoredRow>, block: seq<StoredRow>, runId: RunId, version: nat,
                             rows: seq<StoredRow>, k: Key, record: Record)
    requires InsertedOver(base, block, runId, version) && VersionsAgree(base, KeysIn(block))
    requires Merged(base + block, rows) && Shows(Without(rows, runId), k, record)
    ensures Shows(base, k, record)
  {
    var r := ShownRow(Without(rows, runId), k);
    RemainingRowIsOld(base, block, runId, version, rows, r);
    if b :| b in block && b.key == k {
    } else {
      UntouchedRowIsNewest(base, block, runId, version, rows, r);
      NewestIsShown(base, r);
    }
  }

  lemma RemainingRowIsOld(base: seq<StoredRow>, block: seq<StoredRow>, runId: RunId, version: nat,
                          rows: seq<StoredRow>, r: StoredRow)
    requires InsertedOver(base, block, runId, version) && Merged(base + block, rows) && r in Without(rows, runId)
    ensures r in base
  {
    WithoutMembers(rows, runId);
    MergedMembers(base + block, rows);
  }

  lemma UntouchedRowIsNewest(base: seq<StoredRow>, block: seq<StoredRow>, runId: RunId, version: nat,
                             rows: seq<StoredRow>, r: StoredRow)
    requires InsertedOver(base, block, runId, version) && Merged(base + block, rows)
    requires Newest(Without(rows, runId), r) && r in base
    requires forall b | b in block :: b.key != r.key
    ensures Newest(base, r)
  {
    WithoutMembers(rows, runId);
    MergedMembers(base + block, rows);
    hide Without;
    forall s | s in base && s.key == r.key ensures s.version <= r.version {
      assert s in base + block;
      var t :| t in rows && t.key == s.key && s.version <= t.version;
      assert t in Without(rows, runId);
    }
  }

  function OtherKeys(rows: seq<StoredRow>, key: Key): seq<StoredRow> {
    if rows == [] then []
    else (if rows[0].key != key then [rows[0]] else []) + OtherKeys(rows[1..], key)
  }

  lemma {:induction false} OtherKeysCounts(rows: seq<StoredRow>, key: Key)
    ensures forall r :: multiset(OtherKeys(rows, key))[r] == if r.key != key then multiset(rows)[r] else 0
    ensures forall r :: r in OtherKeys(rows, key) <==> r in rows && r.key != key
  {
    if rows != [] {
      OtherKeysCounts(rows[1..], key);
      assert rows == [rows[0]] + rows[1..];
    }
  }

  /** The merge schedule that lets a stale version r survive next to the failed run's row b. */
  lemma OutdatedVersionResurfaces(base: seq<StoredRow>, block: seq<StoredRow>, runId: RunId, version: nat,
        r: StoredRow, b: StoredRow)
    returns (rows: seq<StoredRow>)
    requires InsertedOver(base, block, runId, version)
    requires r in base && b in block && r.key == b.key
    ensures rows == OtherKeys(base, r.key) + [r] + block
    ensures Merged(base + block, rows)
    ensures Shows(Without(rows, runId), r.key, r.record)
  {
    var kept := OtherKeys(base, r.key) + [r];
    rows := kept + block;
    OtherKeysCounts(base, r.key);
    assert multiset(base)[r] > 0;
    assert multiset(kept) <= multiset(base);
    forall x | x in base + block ensures Outlived(kept + block, x) {
      if x.key == r.key {
        assert b in kept + block && b.key == x.key && x.version <= b.version;
      } else {
        assert x in kept + block && x.key == x.key && x.version <= x.version;
      }
    }
    WithoutMembers(kept + block, runId);
    forall x, y | x in Without(kept + block, runId) && y in Without(kept + block, runId)
                  && x.key == y.key && x.version == y.version
      ensures x == y
    {
      assert x in base && y in base;
    }
    NewestIsShown(Without(kept + block, runId), r);
  }

  /** The smallest case: runs 1 and 2 loaded a key, run 3 fails; a merge of run 2's and run 3's parts
      before the rollback makes run 1's data visible again. */
  lemma StaleVersionAfterRollback(one: StoredRow, two: StoredRow, three: StoredRow) returns (rows: seq<StoredRow>)
    requires one == StoredRow([Number(1.0)], map["v" := Number(10.0)], "run1", 1)
    requires two == StoredRow([Number(1.0)], map["v" := Number(20.0)], "run2", 2)
    requires three == StoredRow([Number(1.0)], map["v" := Number(30.0)], "run3", 3)
    ensures Shows([one, two], one.key, two.record)
    ensures Merged([one, two] + [three], rows)
    ensures Shows(Without(rows, "run3"), one.key, one.record) && one.record != two.record
  {
    rows := OutdatedVersionResurfaces([one, two], [three], "run3", 3, one, three);
    NewestIsShown([one, two], two);
    assert one.record["v"] != two.record["v"];
  }

  /** FINAL after the delete is what it was before the run, whatever merges ran in between. */
  ghost predicate RollbackRestores(base: seq<StoredRow>, block: seq<StoredRow>, runId: RunId) {
    forall rows: seq<StoredRow> | Merged(base + block, rows) :: FinalView(Without(rows, runId)) == FinalView(base)
  }

  /** The promise of the rollback, that each key shows its previous version again, holds under every merge
      schedule exactly when the run only inserted keys that were not stored before. */
  lemma RollbackRestoresIffKeysAreNew(base: seq<StoredRow>, block: seq<StoredRow>, runId: RunId, version: nat)
    requires InsertedOver(base, block, runId, version)
    ensures RollbackRestores(base, block, runId) <==> AreNew(base, KeysIn(block))
  {
    if AreNew(base, KeysIn(block)) {
      forall rows: seq<StoredRow> | Merged(base + block, rows)
        ensures FinalView(Without(rows, runId)) == FinalView(base)
      {
        NewKeysRollBack(base, block, runId, version, rows);
      }
    }
    if RollbackRestores(base, block, runId) {
      forall r | r in base ensures r.key !in KeysIn(block) {
        if b :| b in block && b.key == r.key {
          var rows := TouchedKeyVanishes(base, block, runId, version, r, b);
          StoredKeyIsShown(base, r);
        }
      }
    }
  }

  lemma NewKeysRollBack(base: seq<StoredRow>, block: seq<StoredRow>, runId: RunId, version: nat, rows: seq<StoredRow>)
    requires InsertedOver(base, block, runId, version) && Merged(base + block, rows)
    requires AreNew(base, KeysIn(block))
    ensures FinalView(Without(rows, runId)) == FinalView(base)
  {
    UntouchedRowsAreOutlived(base, block, runId, version, rows);
    hide Without, FinalView, KeysIn;
    ThinnedShowsTheSame(base, Without(rows, runId));
  }

  /** What is left is earlier rows, and every earlier row of a key the run did not insert is still outlived. */
  lemma UntouchedRowsAreOutlived(base: seq<StoredRow>, block: seq<StoredRow>, runId: RunId, version: nat,
                                 rows: seq<StoredRow>)
    requires InsertedOver(base, block, runId, version) && Merged(base + block, rows)
    ensures forall r | r in Without(rows, runId) :: r in base
    ensures forall r | r in base && r.key !in KeysIn(block) :: Outlived(Without(rows, runId), r)
  {
    var left := Without(rows, runId);
    WithoutMembers(rows, runId);
    MergedMembers(base + block, rows);
    hide Without;
    forall r | r in base && r.key !in KeysIn(block) ensures Outlived(left, r) {
      assert forall b | b in block :: b.key in KeysIn(block);
      hide KeysIn;
      BaseRowIsOutlived(base, block, runId, rows, left, r);
    }
  }

  lemma BaseRowIsOutlived(base: seq<StoredRow>, block: seq<StoredRow>, runId: RunId,
                          rows: seq<StoredRow>, left: seq<StoredRow>, r: StoredRow)
    requires forall x | x in base :: x.runId != runId
    requires (forall x | x in rows :: x in base + block) && Outlived(rows, r) && r in base
    requires forall x | x in rows && x.runId != runId :: x in left
    requires forall b | b in block :: b.key != r.key
    ensures Outlived(left, r)
  {
    var t :| t in rows && t.key == r.key && r.version <= t.version;
    assert t in base;
  }

  /** The merge schedule that drops every earlier version of a key the failed run inserted too. */
  lemma TouchedKeyVanishes(base: seq<StoredRow>, block: seq<StoredRow>, runId: RunId, version: nat, r: StoredRow,
        b: StoredRow)
    returns (rows: seq<StoredRow>)
    requires InsertedOver(base, block, runId, version)
    requires r in base && b in block && r.key == b.key
    ensures Merged(base + block, rows) && r.key !in FinalView(Without(rows, runId))
  {
    var kept := OtherKeys(base, r.key);
    rows := kept + block;
    OtherKeysCounts(base, r.key);
    assert multiset(kept) <= multiset(base);
    forall x | x in base + block ensures Outlived(kept + block, x) {
      if x.key == r.key {
        assert b in kept + block && b.key == x.key && x.version <= b.version;
      } else {
        assert x in kept + block && x.key == x.key && x.version <= x.version;
      }
    }
    WithoutMembers(kept + block, runId);
    if r.key in FinalView(Without(kept + block, runId)) {
      var x := ShownRow(Without(kept + block, runId), r.key);
    }
  }

  // --- the rollback of a run ---------------------------------------------------------------------

  /** Both tables show the same for the key. */
  ghost predicate SameAt(a: seq<StoredRow>, b: seq<StoredRow>, key: Key) {
    (key in FinalView(a) <==> key in FinalView(b)) && (key in FinalView(a) ==> FinalView(a)[key] == FinalView(b)[key])
  }

  /** Every key but these shows what it showed. */
  ghost predicate OthersKept(base: seq<StoredRow>, rows: seq<StoredRow>, keys: set<Key>) {
    forall k | k !in keys :: SameAt(rows, base, k)
  }

  /** What readers can rely on after the rollback of a run that carried these keys: only earlier rows are left,
      other keys show what they showed; the keys themselves do, or show nothing, if their stored versions
      agreed; and everything is as before if the keys were new, or if every earlier row is still outlived. */
  ghost predicate RolledBack(base: seq<StoredRow>, left: seq<StoredRow>, keys: set<Key>) {
    && (forall r | r in left :: r in base)
    && OthersKept(base, left, keys)
    && (VersionsAgree(base, keys) ==> OldOrNothing(base, left))
    && (AreNew(base, keys) ==> Thinned(base, left))
    && (Thinned(base, left) ==> FinalView(left) == FinalView(base))
  }

  /** What a run in flight has stored, merges included, is a merge of the earlier rows and its own. */
  lemma RunIsInsertedOver(base: seq<StoredRow>, rows: seq<StoredRow>, between: seq<StoredRow>, window: seq<Token>,
                          w0: seq<Token>, job: Job, committed: set<nat>)
    requires job.Valid() && Fresh(base, w0, job) && InFlight(base, rows, window, job, committed)
    requires Merged(rows, between)
    ensures var own := RunRows(rows, job.runId);
            InsertedOver(base, own, job.runId, job.version) && Merged(base + own, between)
  {
    var own := RunRows(rows, job.runId);
    WithoutMembers(rows, job.runId);
    forall b | b in own ensures b.version == job.version && b.runId == job.runId {
      assert InBlocks(job, committed, b);
    }
    OwnAndEarlierRows(base, rows, job.runId);
    hide Without, RunRows, Job.Valid, Fresh;
    forall r | r in base + own ensures Outlived(between, r) {
      if r in base {
        var s :| s in rows && s.key == r.key && r.version <= s.version;
        assert Outlived(between, s);
      }
    }
  }

  lemma OwnAndEarlierRows(base: seq<StoredRow>, rows: seq<StoredRow>, runId: RunId)
    requires multiset(Without(rows, runId)) <= multiset(base)
    ensures multiset(rows) <= multiset(base + RunRows(rows, runId))
  {
    SplitByRun(rows, runId);
    hide Without, RunRows;
    forall r ensures multiset(rows)[r] <= multiset(base + RunRows(rows, runId))[r] {
      assert multiset(Without(rows, runId))[r] <= multiset(base)[r];
    }
  }

  /** Rolling a run back, whatever it had inserted and whatever merges ran: the results above hold of it. */
  lemma RunRollsBack(base: seq<StoredRow>, rows: seq<StoredRow>, between: seq<StoredRow>, window: seq<Token>,
                     w0: seq<Token>, job: Job, committed: set<nat>)
    requires job.Valid() && Fresh(base, w0, job) && InFlight(base, rows, window, job, committed)
    requires Merged(rows, between)
    ensures RolledBack(base, Without(between, job.runId), KeysIn(Flatten(job.blocks)))
  {
    var own, left := RunRows(rows, job.runId), Without(between, job.runId);
    RunIsInsertedOver(base, rows, between, window, w0, job, committed);
    OwnKeysAreCarried(base, rows, window, job, committed);
    UntouchedRowsAreOutlived(base, own, job.runId, job.version, between);
    hide Without, RunRows, KeysIn, InFlight, Flatten, FinalView, Fresh, Job.Valid, Merged;
    var keys := KeysIn(Flatten(job.blocks));
    forall k | k !in keys ensures SameAt(left, base, k) {
      OutlivedKeyShowsTheSame(base, left, k);
    }
    if VersionsAgree(base, keys) {
      AgreeingVersionsAreSafe(base, own, job.runId, job.version);
    }
    if Thinned(base, left) { ThinnedShowsTheSame(base, left); }
  }

  /** Before any rollback, and whatever merges run, a run shows only in the keys it carries. */
  lemma RunKeepsOthers(base: seq<StoredRow>, rows: seq<StoredRow>, window: seq<Token>, w0: seq<Token>, job: Job,
                       committed: set<nat>)
    requires job.Valid() && Fresh(base, w0, job) && InFlight(base, rows, window, job, committed)
    ensures OthersKept(base, rows, KeysIn(Flatten(job.blocks)))
  {
    OwnKeysAreCarried(base, rows, window, job, committed);
    WithoutMembers(rows, job.runId);
    hide Flatten, FinalView, Fresh, Job.Valid;
    forall k | k !in KeysIn(Flatten(job.blocks)) ensures SameAt(rows, base, k) {
      forall r | InBlocks(job, committed, r) ensures r.key != k {
        assert r in RunRows(rows, job.runId);
      }
      UncommittedKeyIsKept(base, rows, window, w0, job, committed, k);
    }
  }

  lemma OwnKeysAreCarried(base: seq<StoredRow>, rows: seq<StoredRow>, window: seq<Token>, job: Job, committed: set<nat>)
    requires job.Valid() && InFlight(base, rows, window, job, committed)
    ensures KeysIn(RunRows(rows, job.runId)) <= KeysIn(Flatten(job.blocks))
  {
    WithoutMembers(rows, job.runId);
    forall r | r in RunRows(rows, job.runId) ensures r in Flatten(job.blocks) {
      assert InBlocks(job, committed, r);
      var b :| b in committed && b < |job.blocks| && r in job.blocks[b];
      var i :| 0 <= i < |job.blocks[b]| && job.blocks[b][i] == r;
      FlattenAt(job.blocks, b, i);
    }
  }

  lemma OutlivedKeyShowsTheSame(base: seq<StoredRow>, left: seq<StoredRow>, key: Key)
    requires OneRowPerVersion(base) && forall r | r in left :: r in base
    requires forall r | r in base && r.key == key :: Outlived(left, r)
    ensures SameAt(left, base, key)
  {
    if key in FinalView(base) {
      var r := ShownRow(base, key);
      assert Outlived(left, r);
      NewestIsShown(left, r);
    } else if key in FinalView(left) {
      var r := ShownRow(left, key);
      StoredKeyIsShown(base, r);
    }
  }

  /** Merges before the run do not change what its rollback promises. */
  lemma RolledBackAfterMerges(before: seq<StoredRow>, base: seq<StoredRow>, left: seq<StoredRow>, keys: set<Key>)
    requires OneRowPerVersion(before) && Merged(before, base) && RolledBack(base, left, keys)
    ensures RolledBack(before, left, keys) && (Thinned(before, left) <==> Thinned(base, left))
  {
    MergesKeepTheView(before, base);
    MergedMembers(before, base);
    hide Outlived, FinalView, OthersKept, VersionsAgree, OldOrNothing, OneRowPerVersion;
    ThinnedAfterMerges(before, base, left);
    hide Thinned, Merged;
    OthersKeptAfterMerges(before, base, left, keys);
    AgreementAfterMerges(before, base, left, keys);
    if AreNew(before, keys) {
      assert AreNew(base, keys);
    }
  }

  lemma ThinnedAfterMerges(before: seq<StoredRow>, base: seq<StoredRow>, left: seq<StoredRow>)
    requires (forall r | r in base :: r in before) && (forall r | r in before :: Outlived(base, r))
    requires forall r | r in left :: r in base
    ensures Thinned(before, left) <==> Thinned(base, left)
  {
    hide Outlived;
    if forall s | s in base :: Outlived(left, s) {
      forall r | r in before ensures Outlived(left, r) {
        OutlivedThrough(base, left, r);
      }
    }
  }

  lemma OutlivedThrough(base: seq<StoredRow>, left: seq<StoredRow>, r: StoredRow)
    requires Outlived(base, r) && forall s | s in base :: Outlived(left, s)
    ensures Outlived(left, r)
  {
    var s :| s in base && s.key == r.key && r.version <= s.version;
    var x :| x in left && x.key == s.key && s.version <= x.version;
  }

  lemma AgreementAfterMerges(before: seq<StoredRow>, base: seq<StoredRow>, left: seq<StoredRow>, keys: set<Key>)
    requires FinalView(base) == FinalView(before) && forall r | r in base :: r in before
    ensures VersionsAgree(before, keys) ==> VersionsAgree(base, keys)
    ensures OldOrNothing(base, left) ==> OldOrNothing(before, left)
  {
    hide FinalView;
    if OldOrNothing(base, left) {
      forall k, record | Shows(left, k, record) ensures Shows(before, k, record) {
        assert Shows(base, k, record);
      }
    }
  }

  lemma OthersKeptAfterMerges(before: seq<StoredRow>, base: seq<StoredRow>, rows: seq<StoredRow>, keys: set<Key>)
    requires FinalView(base) == FinalView(before) && OthersKept(base, rows, keys)
    ensures OthersKept(before, rows, keys)
  {
    hide FinalView;
    forall k | k !in keys ensures SameAt(rows, before, k) {
      assert SameAt(rows, base, k);
    }
  }

  /** A table nobody touched. */
  lemma NothingRolledBack(rows: seq<StoredRow>, keys: set<Key>)
    ensures Thinned(rows, rows) && RolledBack(rows, rows, keys)
  {
    hide FinalView;
    forall r | r in rows ensures Outlived(rows, r) {
      assert r in rows && r.key == r.key && r.version <= r.version;
    }
  }

  // --- failures that are not rolled back ---------------------------------------------------------

  /** Rows left behind by a failure that is not rolled back are visible: readers see the earlier view
      exactly when every block that had landed only repeated records already shown. */
  lemma LeftBehindRowsAreVisible(base: seq<StoredRow>, rows: seq<StoredRow>, window: seq<Token>, w0: seq<Token>,
                                 job: Job, committed: set<nat>)
    requires job.Valid() && Fresh(base, w0, job) && InFlight(base, rows, window, job, committed)
    ensures FinalView(rows) == FinalView(base) <==> forall r | InBlocks(job, committed, r) ::
        Shows(base, r.key, r.record)
  {
    InFlightVersions(base, rows, window, job, committed, w0);
    hide FinalView, InFlight, Fresh, Job.Valid;
    forall r | InBlocks(job, committed, r) ensures Shows(rows, r.key, r.record) {
      NewestIsShown(rows, r);
    }
    if forall r | InBlocks(job, committed, r) :: Shows(base, r.key, r.record) {
      forall k ensures (k in FinalView(rows) <==> k in FinalView(base))
        && (k in FinalView(rows) ==> FinalView(rows)[k] == FinalView(base)[k])
      {
        if r :| InBlocks(job, committed, r) && r.key == k {
          assert Shows(rows, k, r.record) && Shows(base, k, r.record);
        } else {
          UncommittedKeyIsKept(base, rows, window, w0, job, committed, k);
        }
      }
    }
  }

  // --- retries past the token window -------------------------------------------------------------

  datatype Stored = Stored(rows: seq<StoredRow>, window: seq<Token>)

  /** The table after the first n blocks of a job were all committed. */
  function InsertAll(start: Stored, job: Job, n: nat): Stored
    requires n <= |job.blocks|
  {
    if n == 0 then start
    else
      var before := InsertAll(start, job, n - 1);
      var token := Token(job.runId, n - 1);
      Stored(InsertRows(before.rows, before.window, token, job.blocks[n - 1]), PushToken(before.window, token))
  }

  function UpTo(n: nat): seq<nat> {
    seq(n, i requires 0 <= i < n => i)
  }

  function Last(tokens: seq<Token>, n: nat): seq<Token> {
    if |tokens| <= n then tokens else tokens[|tokens| - n..]
  }

  lemma {:induction false} WindowAfter(start: Stored, job: Job, n: nat)
    requires Fresh(start.rows, start.window, job) && n <= |job.blocks|
    ensures InsertAll(start, job, n).window == Last(start.window + Tokens(job.runId, UpTo(n)), DEDUP_WINDOW)
  {
    if n == 0 {
      assert start.window + Tokens(job.runId, UpTo(0)) == start.window;
    } else {
      WindowAfter(start, job, n - 1);
      var all := start.window + Tokens(job.runId, UpTo(n - 1));
      assert start.window + Tokens(job.runId, UpTo(n)) == all + [Token(job.runId, n - 1)];
      assert Token(job.runId, n - 1) !in all;
    }
  }

  /** A load whose last block was committed but reported failed is retried from block 0. That block is
      dropped as already stored exactly when the whole load fits the token window; beyond it, the block
      is stored a second time. */
  lemma RetryIsDroppedIffWithinWindow(start: Stored, job: Job)
    requires Fresh(start.rows, start.window, job)
    requires job.blocks != [] && job.blocks[0] != []
    ensures var after := InsertAll(start, job, |job.blocks|);
            var retried := InsertRows(after.rows, after.window, Token(job.runId, 0), job.blocks[0]);
            && (retried == after.rows <==> |job.blocks| <= 1000)
            && (|job.blocks| > 1000 ==> retried == after.rows + job.blocks[0])
  {
    var n := |job.blocks|;
    WindowAfter(start, job, n);
    var all := start.window + Tokens(job.runId, UpTo(n));
    assert all[|start.window|] == Token(job.runId, 0);
    forall i | 0 <= i < |all| && all[i] == Token(job.runId, 0) ensures i == |start.window| {}
    var kept := Last(all, DEDUP_WINDOW);
    if n <= DEDUP_WINDOW {
      assert kept[|start.window| - (|all| - |kept|)] == Token(job.runId, 0);
    } else {
      assert forall i | 0 <= i < |kept| :: kept[i] == all[|all| - |kept| + i];
    }
  }
}
