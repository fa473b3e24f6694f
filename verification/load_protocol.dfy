/** What the batched, tokened inserts of one run do to its table, for every mix of lost, acknowledged
    and committed-but-reported-failed inserts and every background merge in between. */
module LoadProtocol {
  import opened Frames
  import opened Warehouse

  /** The blocks one run inserts. Block b carries the token (runId, b). */
  datatype Job = Job(blocks: seq<seq<StoredRow>>, runId: RunId, version: nat) {
    ghost predicate Valid() {
      && (forall b, i | 0 <= b < |blocks| && 0 <= i < |blocks[b]| ::
            blocks[b][i].runId == runId && blocks[b][i].version == version)
      && (forall b, i, c, j | 0 <= b < |blocks| && 0 <= i < |blocks[b]| && 0 <= c < |blocks| && 0 <= j < |blocks[c]|
                              && blocks[b][i].key == blocks[c][j].key :: b == c && i == j)
    }
  }

  function StoredRows(dataset: seq<Record>, keyColumns: seq<string>, runId: RunId, version: nat): seq<StoredRow> {
    seq(|dataset|, i requires 0 <= i < |dataset| =>
      StoredRow(KeyOf(dataset[i], keyColumns), dataset[i], runId, version))
  }

  /** Consecutive slices of `size` rows; the last one may be shorter. */
  function Chunks(rows: seq<StoredRow>, size: nat): seq<seq<StoredRow>>
    requires size > 0
  {
    if rows == [] then []
    else if |rows| <= size then [rows]
    else [rows[..size]] + Chunks(rows[size..], size)
  }

  function Flatten(blocks: seq<seq<StoredRow>>): seq<StoredRow> {
    if blocks == [] then [] else blocks[0] + Flatten(blocks[1..])
  }

  lemma {:induction false} FlattenChunks(rows: seq<StoredRow>, size: nat)
    requires size > 0
    ensures Flatten(Chunks(rows, size)) == rows
  {
    if |rows| > size {
      FlattenChunks(rows[size..], size);
      var chunks := Chunks(rows, size);
      assert chunks[1..] == Chunks(rows[size..], size);
      assert rows == rows[..size] + rows[size..];
    } else if rows != [] {
      assert Flatten([rows]) == rows + Flatten([]);
    }
  }

  /** Rows fit in so many batches exactly when there are at most so many times the batch size. */
  lemma {:induction false} ChunkCount(rows: seq<StoredRow>, size: nat, n: nat)
    requires size > 0
    ensures |Chunks(rows, size)| <= n <==> |rows| <= n * size
  {
    if |rows| > size && n > 0 {
      ChunkCount(rows[size..], size, n - 1);
      assert |rows| - size <= (n - 1) * size <==> |rows| <= n * size;
    } else if n > 0 {
      assert size <= n * size;
    }
  }

  function Offset(blocks: seq<seq<StoredRow>>, b: nat): nat
    requires b <= |blocks|
  {
    if b == 0 then 0 else |blocks[0]| + Offset(blocks[1..], b - 1)
  }

  lemma {:induction false} FlattenAt(blocks: seq<seq<StoredRow>>, b: nat, i: nat)
    requires b < |blocks| && i < |blocks[b]|
    ensures Offset(blocks, b) + i < |Flatten(blocks)| && Flatten(blocks)[Offset(blocks, b) + i] == blocks[b][i]
  {
    if b > 0 {
      FlattenAt(blocks[1..], b - 1, i);
    }
  }

  lemma {:induction false} OffsetsIncrease(blocks: seq<seq<StoredRow>>, b: nat, c: nat)
    requires b < c < |blocks|
    ensures Offset(blocks, b) + |blocks[b]| <= Offset(blocks, c)
  {
    if b > 0 {
      OffsetsIncrease(blocks[1..], b - 1, c - 1);
    }
  }

  /** A dataset with unique natural keys, cut into batches, is a valid job. */
  lemma JobOfDataset(dataset: seq<Record>, keyColumns: seq<string>, runId: RunId, version: nat, size: nat)
    requires size > 0 && UniqueKeys(dataset, keyColumns)
    ensures var job := Job(Chunks(StoredRows(dataset, keyColumns, runId, version), size), runId, version);
            job.Valid() && Flatten(job.blocks) == StoredRows(dataset, keyColumns, runId, version)
  {
    var stored := StoredRows(dataset, keyColumns, runId, version);
    var blocks: seq<seq<StoredRow>> := Chunks(stored, size);
    FlattenChunks(stored, size);
    forall b, i | 0 <= b < |blocks| && 0 <= i < |blocks[b]|
      ensures blocks[b][i].runId == runId && blocks[b][i].version == version
    {
      FlattenAt(blocks, b, i);
    }
    forall b, i, c, j | 0 <= b < |blocks| && 0 <= i < |blocks[b]| && 0 <= c < |blocks| && 0 <= j < |blocks[c]|
                        && blocks[b][i].key == blocks[c][j].key
      ensures b == c && i == j
    {
      FlattenAt(blocks, b, i);
      FlattenAt(blocks, c, j);
      if b < c { OffsetsIncrease(blocks, b, c); }
      if c < b { OffsetsIncrease(blocks, c, b); }
    }
  }

  lemma InFirstOrRest(job: Job, rest: Job, r: StoredRow)
    requires job.blocks != [] && rest == job.(blocks := job.blocks[1..])
    ensures InBlocks(job, AllBlocks(job), r) <==> r in job.blocks[0] || InBlocks(rest, AllBlocks(rest), r)
  {
    if r in job.blocks[0] {
      assert 0 in AllBlocks(job);
    }
    if InBlocks(job, AllBlocks(job), r) && r !in job.blocks[0] {
      var b :| b in AllBlocks(job) && r in job.blocks[b];
      assert b - 1 in AllBlocks(rest) && r in rest.blocks[b - 1];
    }
    if InBlocks(rest, AllBlocks(rest), r) {
      var b :| b in AllBlocks(rest) && r in rest.blocks[b];
      assert b + 1 in AllBlocks(job) && r in job.blocks[b + 1];
    }
  }

  lemma NotInBoth(job: Job, rest: Job, r: StoredRow)
    requires job.Valid() && job.blocks != [] && rest == job.(blocks := job.blocks[1..])
    requires r in job.blocks[0]
    ensures !InBlocks(rest, AllBlocks(rest), r)
  {
    forall b: nat | b < |rest.blocks| ensures r !in rest.blocks[b] {
      assert rest.blocks[b] == job.blocks[b + 1];
    }
  }

  /** Each row of a valid job is in its blocks once. */
  lemma {:induction false} FlattenCounts(job: Job, r: StoredRow)
    requires job.Valid()
    ensures multiset(Flatten(job.blocks))[r] == if InBlocks(job, AllBlocks(job), r) then 1 else 0
    decreases |job.blocks|
  {
    if job.blocks != [] {
      var rest := job.(blocks := job.blocks[1..]);
      assert forall b | 0 <= b < |rest.blocks| :: rest.blocks[b] == job.blocks[b + 1];
      assert rest.Valid();
      CountInDistinct(job.blocks[0], r);
      InFirstOrRest(job, rest, r);
      if r in job.blocks[0] { NotInBoth(job, rest, r); }
      hide InBlocks, Job.Valid;
      FlattenCounts(rest, r);
    }
  }

  lemma {:induction false} CountInDistinct(rows: seq<StoredRow>, r: StoredRow)
    requires forall i, j | 0 <= i < |rows| && 0 <= j < |rows| && rows[i].key == rows[j].key :: i == j
    ensures multiset(rows)[r] == if r in rows then 1 else 0
  {
    if rows != [] {
      CountInDistinct(rows[1..], r);
      assert rows == [rows[0]] + rows[1..];
    }
  }

  function Below(n: nat): (numbers: set<nat>)
    ensures forall b: nat :: b in numbers <==> b < n
  {
    if n == 0 then {} else Below(n - 1) + {n - 1}
  }

  function AllBlocks(job: Job): set<nat> {
    Below(|job.blocks|)
  }

  ghost predicate InBlocks(job: Job, committed: set<nat>, r: StoredRow) {
    exists b :: b in committed && b < |job.blocks| && r in job.blocks[b]
  }

  // --- one insert --------------------------------------------------------------------------------

  /** The table keeps the newest DEDUP_WINDOW tokens. */
  function PushToken(window: seq<Token>, token: Token): seq<Token> {
    if token in window then window
    else if |window| < DEDUP_WINDOW then window + [token]
    else window[|window| + 1 - DEDUP_WINDOW..] + [token]
  }

  /** A block that reaches the server is stored unless its token is still in the window. */
  function InsertRows(rows: seq<StoredRow>, window: seq<Token>, token: Token, block: seq<StoredRow>): seq<StoredRow> {
    if token in window then rows else rows + block
  }

  // --- progress of a job -------------------------------------------------------------------------

  /** What a table may look like before a run: versions are older than the run's, its id is fresh. */
  ghost predicate Fresh(base: seq<StoredRow>, window: seq<Token>, job: Job) {
    && OneRowPerVersion(base)
    && (forall r | r in base :: r.version < job.version && r.runId != job.runId)
    && (forall t | t in window :: t.runId != job.runId)
    && |window| <= DEDUP_WINDOW
  }

  /** `committed` blocks are in the table in full, nothing else of the run is, and the earlier rows
      have only been thinned out by merges. */
  ghost predicate InFlight(base: seq<StoredRow>, rows: seq<StoredRow>, window: seq<Token>, job: Job,
        committed: set<nat>)
  {
    && committed <= AllBlocks(job)
    && (forall r | InBlocks(job, committed, r) :: r in rows)
    && (forall r | r in rows && r.runId == job.runId :: InBlocks(job, committed, r))
    && (forall t | t in window && t.runId == job.runId :: t.batch in committed)
    && multiset(Without(rows, job.runId)) <= multiset(base)
    && (forall r | r in base :: Outlived(rows, r))
  }

  function Tokens(runId: RunId, order: seq<nat>): seq<Token> {
    seq(|order|, i requires 0 <= i < |order| => Token(runId, order[i]))
  }

  /** Every row of a committed block is stored exactly once, every other row of the job not at all. */
  ghost predicate StoredOnce(rows: seq<StoredRow>, job: Job, committed: set<nat>) {
    forall b, r | 0 <= b < |job.blocks| && r in job.blocks[b] :: multiset(rows)[r] == if b in committed then 1 else 0
  }

  /** While at most DEDUP_WINDOW batches exist the window still holds every token of the run, in commit
      order, and every committed row is stored exactly once. */
  ghost predicate Tracked(rows: seq<StoredRow>, window: seq<Token>, job: Job, committed: set<nat>,
                          older: seq<Token>, order: seq<nat>)
  {
    && window == older + Tokens(job.runId, order)
    && |window| <= DEDUP_WINDOW
    && (forall i, j | 0 <= i < j < |order| :: order[i] != order[j])
    && (forall b :: b in committed <==> b in order)
    && StoredOnce(rows, job, committed)
  }

  ghost predicate WithinWindow(rows: seq<StoredRow>, window: seq<Token>, job: Job, committed: set<nat>) {
    exists older, order :: Tracked(rows, window, job, committed, older, order)
  }

  ghost predicate Progress(base: seq<StoredRow>, rows: seq<StoredRow>, window: seq<Token>, job: Job,
        committed: set<nat>)
  {
    && InFlight(base, rows, window, job, committed)
    && |window| <= DEDUP_WINDOW
    && (|job.blocks| <= DEDUP_WINDOW ==> WithinWindow(rows, window, job, committed))
  }

  lemma CommittedBlocksExist(base: seq<StoredRow>, rows: seq<StoredRow>, window: seq<Token>, job: Job,
        committed: set<nat>)
    requires Progress(base, rows, window, job, committed)
    ensures committed <= AllBlocks(job)
  {
  }

  lemma NoRowOfRun(base: seq<StoredRow>, runId: RunId)
    requires forall r | r in base :: r.runId != runId
    ensures multiset(Without(base, runId)) == multiset(base)
  {
    SplitByRun(base, runId);
    hide Without;
    forall r ensures multiset(Without(base, runId))[r] == multiset(base)[r] {
      assert r in base <==> multiset(base)[r] > 0;
    }
  }

  lemma ProgressStarts(base: seq<StoredRow>, window: seq<Token>, job: Job)
    requires job.Valid() && Fresh(base, window, job)
    ensures Progress(base, base, window, job, {}) && StoredOnce(base, job, {})
    ensures multiset(Without(base, job.runId)) == multiset(base)
  {
    hide OneRowPerVersion, Without;
    NoRowOfRun(base, job.runId);
    SameRowsAreMerged(base, base);
    forall b, r | 0 <= b < |job.blocks| && r in job.blocks[b] ensures multiset(base)[r] == 0 {
      assert r.runId == job.runId;
      assert r !in base;
    }
    assert window == window + Tokens(job.runId, []);
    assert Tracked(base, window, job, {}, window, []);
  }

  lemma InFlightVersions(base: seq<StoredRow>, rows: seq<StoredRow>, window: seq<Token>, job: Job,
        committed: set<nat>, w0: seq<Token>)
    requires job.Valid() && Fresh(base, w0, job) && InFlight(base, rows, window, job, committed)
    ensures OneRowPerVersion(rows)
    ensures forall r | r in rows && r.runId != job.runId :: r in base
    ensures forall r | InBlocks(job, committed, r) :: Newest(rows, r)
  {
    WithoutMembers(rows, job.runId);
    forall r | r in rows && r.runId != job.runId ensures r in base {
      assert r in multiset(Without(rows, job.runId));
    }
    forall r | r in rows ensures r.version <= job.version && (r.runId == job.runId <==> r.version == job.version) {
      if r.runId == job.runId { assert InBlocks(job, committed, r); }
    }
    forall r, s | r in rows && s in rows && r.key == s.key && r.version == s.version ensures r == s {
      if r.runId == job.runId { assert InBlocks(job, committed, r) && InBlocks(job, committed, s); }
    }
  }

  lemma AppendKeepsOtherRuns(rows: seq<StoredRow>, block: seq<StoredRow>, runId: RunId)
    requires forall r | r in block :: r.runId == runId
    ensures multiset(Without(rows + block, runId)) == multiset(Without(rows, runId))
  {
    SplitByRun(rows, runId);
    SplitByRun(rows + block, runId);
    forall r ensures multiset(Without(rows + block, runId))[r] == multiset(Without(rows, runId))[r] {
      if r.runId != runId {
        assert r !in block;
        assert multiset(block)[r] == 0;
      }
    }
  }

  lemma AppendKeepsOutlived(base: seq<StoredRow>, rows: seq<StoredRow>, block: seq<StoredRow>)
    requires forall r | r in base :: Outlived(rows, r)
    ensures forall r | r in base :: Outlived(rows + block, r)
  {
    forall r | r in base ensures Outlived(rows + block, r) {
      var s :| s in rows && s.key == r.key && r.version <= s.version;
      assert s in rows + block;
    }
  }

  lemma CommittedRowsOnly(job: Job, rows: seq<StoredRow>, committed: set<nat>, b: nat)
    requires b < |job.blocks|
    requires forall r | InBlocks(job, committed, r) :: r in rows
    requires forall r | r in rows && r.runId == job.runId :: InBlocks(job, committed, r)
    ensures forall r | InBlocks(job, committed + {b}, r) :: r in rows + job.blocks[b]
    ensures forall r | r in rows + job.blocks[b] && r.runId == job.runId :: InBlocks(job, committed + {b}, r)
  {
    forall r | InBlocks(job, committed + {b}, r) ensures r in rows + job.blocks[b] {
      var c :| c in committed + {b} && c < |job.blocks| && r in job.blocks[c];
      if c != b { assert InBlocks(job, committed, r); }
    }
    forall r | r in rows + job.blocks[b] && r.runId == job.runId ensures InBlocks(job, committed + {b}, r) {
      if r !in job.blocks[b] {
        var c :| c in committed && c < |job.blocks| && r in job.blocks[c];
        assert c in committed + {b};
      } else {
        assert b in committed + {b};
      }
    }
  }

  /** A block whose token is not in the window arrives. */
  lemma CommitKeepsInFlight(base: seq<StoredRow>, rows: seq<StoredRow>, window: seq<Token>, job: Job,
        committed: set<nat>, b: nat)
    requires job.Valid() && b < |job.blocks| && InFlight(base, rows, window, job, committed)
    requires Token(job.runId, b) !in window
    ensures InFlight(base, rows + job.blocks[b], PushToken(window, Token(job.runId, b)), job, committed + {b})
  {
    AppendKeepsOtherRuns(rows, job.blocks[b], job.runId);
    hide Without, Job.Valid;
    AppendKeepsOutlived(base, rows, job.blocks[b]);
    CommittedRowsOnly(job, rows, committed, b);
    hide Outlived, InBlocks;
    PushedBatches(window, job.runId, committed, b);
  }

  lemma PushedBatches(window: seq<Token>, runId: RunId, committed: set<nat>, b: nat)
    requires forall t | t in window && t.runId == runId :: t.batch in committed
    ensures forall t | t in PushToken(window, Token(runId, b)) && t.runId == runId :: t.batch in committed + {b}
  {
  }

  lemma {:induction false} DistinctBelow(order: seq<nat>, n: nat)
    requires forall i, j | 0 <= i < j < |order| :: order[i] != order[j]
    requires forall i | 0 <= i < |order| :: order[i] < n
    ensures |order| <= n
  {
    if order == [] {
      return;
    }
    assert order[0] < n;
    if n - 1 in order {
      var i :| 0 <= i < |order| && order[i] == n - 1;
      var rest := order[..i] + order[i + 1..];
      assert forall k | 0 <= k < |rest| :: rest[k] == order[if k < i then k else k + 1];
      DistinctBelow(rest, n - 1);
    } else {
      assert forall k | 0 <= k < |order| :: order[k] in order;
      DistinctBelow(order, n - 1);
    }
  }

  lemma TokensOfOrder(runId: RunId, order: seq<nat>, b: nat)
    ensures b in order ==> Token(runId, b) in Tokens(runId, order)
  {
    if i :| 0 <= i < |order| && order[i] == b {
      assert Tokens(runId, order)[i] == Token(runId, b);
    }
  }

  lemma PushedTokens(older: seq<Token>, runId: RunId, order: seq<nat>, b: nat) returns (older': seq<Token>)
    requires |older| + |order| <= DEDUP_WINDOW && |order| < DEDUP_WINDOW
    requires Token(runId, b) !in older + Tokens(runId, order)
    ensures PushToken(older + Tokens(runId, order), Token(runId, b)) == older' + Tokens(runId, order + [b])
    ensures |older'| + |order| + 1 <= DEDUP_WINDOW
  {
    var window := older + Tokens(runId, order);
    older' := if |window| < DEDUP_WINDOW then older else older[|window| + 1 - DEDUP_WINDOW..];
    assert Tokens(runId, order + [b]) == Tokens(runId, order) + [Token(runId, b)];
  }

  lemma CommitOrder(job: Job, committed: set<nat>, order: seq<nat>, b: nat)
    requires b < |job.blocks| && committed <= AllBlocks(job) && b !in order
    requires forall i, j | 0 <= i < j < |order| :: order[i] != order[j]
    requires forall c :: c in committed <==> c in order
    ensures |order + [b]| <= |job.blocks|
    ensures forall i, j | 0 <= i < j < |order + [b]| :: (order + [b])[i] != (order + [b])[j]
    ensures forall c :: c in committed + {b} <==> c in order + [b]
  {
    var order' := order + [b];
    forall i | 0 <= i < |order'| ensures order'[i] < |job.blocks| {
      if i < |order| { assert order[i] in committed; }
    }
    DistinctBelow(order', |job.blocks|);
  }

  lemma CommitCounts(rows: seq<StoredRow>, job: Job, committed: set<nat>, b: nat, c: nat, r: StoredRow)
    requires job.Valid() && b < |job.blocks| && b !in committed && c < |job.blocks| && r in job.blocks[c]
    requires multiset(rows)[r] == if c in committed then 1 else 0
    ensures multiset(rows + job.blocks[b])[r] == if c in committed + {b} then 1 else 0
  {
    CountInDistinct(job.blocks[b], r);
  }

  /** The first insert of a block stores each of its rows once, however many blocks there are. */
  lemma CommitKeepsStoredOnce(rows: seq<StoredRow>, job: Job, committed: set<nat>, b: nat)
    requires job.Valid() && b < |job.blocks| && b !in committed && StoredOnce(rows, job, committed)
    ensures StoredOnce(rows + job.blocks[b], job, committed + {b})
  {
    forall c, r | 0 <= c < |job.blocks| && r in job.blocks[c]
      ensures multiset(rows + job.blocks[b])[r] == if c in committed + {b} then 1 else 0
    {
      CommitCounts(rows, job, committed, b, c, r);
    }
  }

  lemma CommitKeepsTracked(rows: seq<StoredRow>, window: seq<Token>, job: Job, committed: set<nat>, b: nat)
    requires job.Valid() && b < |job.blocks| <= DEDUP_WINDOW && committed <= AllBlocks(job)
    requires WithinWindow(rows, window, job, committed) && Token(job.runId, b) !in window
    ensures WithinWindow(rows + job.blocks[b], PushToken(window, Token(job.runId, b)), job, committed + {b})
  {
    var older, order :| Tracked(rows, window, job, committed, older, order);
    hide PushToken, Job.Valid, StoredOnce;
    TokensOfOrder(job.runId, order, b);
    CommitOrder(job, committed, order, b);
    var older' := PushedTokens(older, job.runId, order, b);
    CommitKeepsStoredOnce(rows, job, committed, b);
    assert Tracked(rows + job.blocks[b], PushToken(window, Token(job.runId, b)), job, committed + {b}, older',
        order + [b]);
  }

  /** Whatever the reply, a block that reached the server leaves the job in progress with that block
      committed: either it is stored now, or its token shows it was stored before. */
  lemma InsertKeepsProgress(base: seq<StoredRow>, rows: seq<StoredRow>, window: seq<Token>, job: Job,
                            committed: set<nat>, b: nat)
    requires job.Valid() && b < |job.blocks| && Progress(base, rows, window, job, committed)
    ensures var token := Token(job.runId, b);
            Progress(base, InsertRows(rows, window, token, job.blocks[b]), PushToken(window, token), job,
                     committed + {b})
  {
    if Token(job.runId, b) in window {
      assert committed + {b} == committed;
    } else {
      hide InFlight, WithinWindow;
      CommittedBlocksExist(base, rows, window, job, committed);
      CommitKeepsInFlight(base, rows, window, job, committed, b);
      if |job.blocks| <= DEDUP_WINDOW {
        CommitKeepsTracked(rows, window, job, committed, b);
      }
    }
  }

  /** Inserting a block for the first time never doubles a row: only a retry of a block whose token left the
      window can. */
  lemma FirstInsertKeepsStoredOnce(base: seq<StoredRow>, rows: seq<StoredRow>, window: seq<Token>, job: Job,
                                   committed: set<nat>, b: nat)
    requires job.Valid() && b < |job.blocks| && b !in committed
    requires Progress(base, rows, window, job, committed) && StoredOnce(rows, job, committed)
    ensures StoredOnce(InsertRows(rows, window, Token(job.runId, b), job.blocks[b]), job, committed + {b})
  {
    hide StoredOnce;
    assert Token(job.runId, b) !in window;
    CommitKeepsStoredOnce(rows, job, committed, b);
  }

  lemma ProgressWithinWindow(base: seq<StoredRow>, rows: seq<StoredRow>, window: seq<Token>, job: Job,
        committed: set<nat>)
    requires Progress(base, rows, window, job, committed) && |job.blocks| <= DEDUP_WINDOW
    ensures StoredOnce(rows, job, committed)
  {
    hide StoredOnce, InFlight;
    var older, order :| Tracked(rows, window, job, committed, older, order);
  }

  lemma MergeThinsOtherRuns(rows: seq<StoredRow>, rows': seq<StoredRow>, runId: RunId)
    requires Merged(rows, rows')
    ensures multiset(Without(rows', runId)) <= multiset(Without(rows, runId))
  {
    SplitByRun(rows, runId);
    SplitByRun(rows', runId);
    hide Without, Outlived;
    forall r ensures multiset(Without(rows', runId))[r] <= multiset(Without(rows, runId))[r] {
      assert multiset(rows')[r] <= multiset(rows)[r];
    }
  }

  lemma MergeKeepsOutlived(base: seq<StoredRow>, rows: seq<StoredRow>, rows': seq<StoredRow>)
    requires Merged(rows, rows')
    requires forall r | r in base :: Outlived(rows, r)
    ensures forall r | r in base :: Outlived(rows', r)
  {
    forall r | r in base ensures Outlived(rows', r) {
      var s :| s in rows && s.key == r.key && r.version <= s.version;
      assert Outlived(rows', s);
    }
  }

  lemma MergeKeepsInFlight(base: seq<StoredRow>, rows: seq<StoredRow>, rows': seq<StoredRow>, window: seq<Token>,
        w0: seq<Token>, job: Job, committed: set<nat>)
    requires job.Valid() && Fresh(base, w0, job) && InFlight(base, rows, window, job, committed)
    requires Merged(rows, rows')
    ensures InFlight(base, rows', window, job, committed)
  {
    InFlightVersions(base, rows, window, job, committed, w0);
    MergedMembers(rows, rows');
    forall r | InBlocks(job, committed, r) ensures r in rows' {
      NewestSurvives(rows, rows', r);
    }
    MergeThinsOtherRuns(rows, rows', job.runId);
    MergeKeepsOutlived(base, rows, rows');
  }

  /** Background merges never take a row of the current run away. */
  lemma MergeKeepsProgress(base: seq<StoredRow>, rows: seq<StoredRow>, rows': seq<StoredRow>, window: seq<Token>,
        w0: seq<Token>, job: Job, committed: set<nat>)
    requires job.Valid() && Fresh(base, w0, job) && Progress(base, rows, window, job, committed)
    requires Merged(rows, rows')
    ensures Progress(base, rows', window, job, committed)
  {
    MergeKeepsInFlight(base, rows, rows', window, w0, job, committed);
    if |job.blocks| <= DEDUP_WINDOW {
      var older, order :| Tracked(rows, window, job, committed, older, order);
      MergeKeepsStoredOnce(base, rows, rows', window, w0, job, committed);
      hide StoredOnce, InFlight;
      assert Tracked(rows', window, job, committed, older, order);
    }
  }

  /** Merges never double or drop a row of the current run. */
  lemma MergeKeepsStoredOnce(base: seq<StoredRow>, rows: seq<StoredRow>, rows': seq<StoredRow>, window: seq<Token>,
        w0: seq<Token>, job: Job, committed: set<nat>)
    requires job.Valid() && Fresh(base, w0, job) && Progress(base, rows, window, job, committed)
    requires Merged(rows, rows') && StoredOnce(rows, job, committed)
    ensures StoredOnce(rows', job, committed)
  {
    MergeKeepsInFlight(base, rows, rows', window, w0, job, committed);
    hide Fresh, Job.Valid;
    forall b, r | 0 <= b < |job.blocks| && r in job.blocks[b]
      ensures multiset(rows')[r] == if b in committed then 1 else 0
    {
      assert multiset(rows')[r] <= multiset(rows)[r];
      if b in committed {
        assert InBlocks(job, committed, r);
        assert r in rows';
      }
    }
  }

  // --- what verification and rollback may rely on ------------------------------------------------

  /** A completed load that stored each row once holds exactly the dataset under the run's id. */
  lemma StoredOnceIsExact(base: seq<StoredRow>, rows: seq<StoredRow>, window: seq<Token>, job: Job)
    requires job.Valid() && InFlight(base, rows, window, job, AllBlocks(job)) && StoredOnce(rows, job, AllBlocks(job))
    ensures multiset(RunRows(rows, job.runId)) == multiset(Flatten(job.blocks))
  {
    SplitByRun(rows, job.runId);
    forall r ensures multiset(RunRows(rows, job.runId))[r] == multiset(Flatten(job.blocks))[r] {
      FlattenCounts(job, r);
      if InBlocks(job, AllBlocks(job), r) {
        var b :| b in AllBlocks(job) && r in job.blocks[b];
        assert r.runId == job.runId;
      } else if r.runId == job.runId {
        assert r !in rows;
      }
    }
  }

  /** Exactly once: when a load whose batches fit the token window returns, the table holds each
      dataset row once under the run's id, whatever was retried and merged on the way. */
  lemma ExactlyOnce(base: seq<StoredRow>, rows: seq<StoredRow>, window: seq<Token>, job: Job)
    requires job.Valid() && |job.blocks| <= DEDUP_WINDOW
    requires Progress(base, rows, window, job, AllBlocks(job))
    ensures multiset(RunRows(rows, job.runId)) == multiset(Flatten(job.blocks))
  {
    ProgressWithinWindow(base, rows, window, job, AllBlocks(job));
    StoredOnceIsExact(base, rows, window, job);
  }

  /** Beyond the window a retry may double a batch, but not undetected: a completed load whose row count
      matches holds exactly the dataset, with no row missing, doubled or foreign. */
  lemma VerifiedCountIsExact(base: seq<StoredRow>, rows: seq<StoredRow>, window: seq<Token>, job: Job)
    requires job.Valid() && InFlight(base, rows, window, job, AllBlocks(job))
    requires |RunRows(rows, job.runId)| == |Flatten(job.blocks)|
    ensures multiset(RunRows(rows, job.runId)) == multiset(Flatten(job.blocks))
  {
    forall r ensures multiset(Flatten(job.blocks))[r] <= multiset(RunRows(rows, job.runId))[r] {
      LoadedRowIsStored(base, rows, window, job, r);
    }
    SameSizeSameRows(multiset(Flatten(job.blocks)), multiset(RunRows(rows, job.runId)));
  }

  lemma LoadedRowIsStored(base: seq<StoredRow>, rows: seq<StoredRow>, window: seq<Token>, job: Job, r: StoredRow)
    requires job.Valid() && InFlight(base, rows, window, job, AllBlocks(job))
    ensures multiset(Flatten(job.blocks))[r] <= multiset(RunRows(rows, job.runId))[r]
  {
    FlattenCounts(job, r);
    SplitByRun(rows, job.runId);
    hide Flatten, RunRows;
    if InBlocks(job, AllBlocks(job), r) {
      assert r in rows && r.runId == job.runId;
    }
  }

  lemma SameSizeSameRows(sent: multiset<StoredRow>, found: multiset<StoredRow>)
    requires sent <= found && |sent| == |found|
    ensures sent == found
  {
    assert found == sent + (found - sent);
  }

  lemma SameRowsAreMerged(a: seq<StoredRow>, b: seq<StoredRow>)
    requires multiset(a) == multiset(b)
    ensures Merged(a, b)
  {
    forall r | r in a ensures Outlived(b, r) {
      assert r in multiset(b);
      assert r in b && r.key == r.key && r.version <= r.version;
    }
  }

  lemma SameRowsSameView(a: seq<StoredRow>, b: seq<StoredRow>)
    requires OneRowPerVersion(a) && multiset(a) == multiset(b)
    ensures OneRowPerVersion(b) && FinalView(a) == FinalView(b)
  {
    hide FinalView, Merged, OneRowPerVersion;
    SameRowsAreMerged(a, b);
    MergesKeepTheView(a, b);
  }

  /** Rollback: if no merge touched earlier rows while the run was in flight, deleting the run's rows
      leaves exactly the view from before the run, however many batches had landed. */
  lemma RollbackRestoresTheView(base: seq<StoredRow>, rows: seq<StoredRow>, job: Job)
    requires OneRowPerVersion(base)
    requires multiset(Without(rows, job.runId)) == multiset(base)
    ensures FinalView(Without(rows, job.runId)) == FinalView(base)
  {
    SameRowsSameView(base, Without(rows, job.runId));
  }

  /** A completed load overlays its dataset on the earlier view, with or without merges. */
  lemma CompletedLoadOverlays(base: seq<StoredRow>, rows: seq<StoredRow>, window: seq<Token>, w0: seq<Token>,
                              job: Job, dataset: seq<Record>, keyColumns: seq<string>)
    requires job.Valid() && Fresh(base, w0, job) && InFlight(base, rows, window, job, AllBlocks(job))
    requires UniqueKeys(dataset, keyColumns)
    requires Flatten(job.blocks) == StoredRows(dataset, keyColumns, job.runId, job.version)
    ensures OneRowPerVersion(rows)
    ensures FinalView(rows) == Overlay(FinalView(base), dataset, keyColumns)
  {
    InFlightVersions(base, rows, window, job, AllBlocks(job), w0);
    OverlayAt(FinalView(base), dataset, keyColumns);
    forall k ensures (k in FinalView(rows) <==> k in Overlay(FinalView(base), dataset, keyColumns))
      && (k in FinalView(rows) ==> FinalView(rows)[k] == Overlay(FinalView(base), dataset, keyColumns)[k])
    {
      if i :| 0 <= i < |dataset| && KeyOf(dataset[i], keyColumns) == k {
        LoadedKeyIsShown(base, rows, window, w0, job, dataset, keyColumns, i);
      } else {
        UntouchedKeyIsKept(base, rows, window, w0, job, dataset, keyColumns, k);
      }
    }
  }

  lemma LoadedKeyIsShown(base: seq<StoredRow>, rows: seq<StoredRow>, window: seq<Token>, w0: seq<Token>,
                         job: Job, dataset: seq<Record>, keyColumns: seq<string>, i: nat)
    requires job.Valid() && Fresh(base, w0, job) && InFlight(base, rows, window, job, AllBlocks(job))
    requires Flatten(job.blocks) == StoredRows(dataset, keyColumns, job.runId, job.version)
    requires i < |dataset|
    ensures var k := KeyOf(dataset[i], keyColumns); k in FinalView(rows) && FinalView(rows)[k] == dataset[i]
  {
    InFlightVersions(base, rows, window, job, AllBlocks(job), w0);
    var r := StoredRows(dataset, keyColumns, job.runId, job.version)[i];
    FlattenCounts(job, r);
    assert r in Flatten(job.blocks);
    assert multiset(Flatten(job.blocks))[r] > 0;
    assert InBlocks(job, AllBlocks(job), r);
    NewestIsShown(rows, r);
  }

  lemma LoadedKeyIsInDataset(job: Job, dataset: seq<Record>, keyColumns: seq<string>, r: StoredRow)
    requires job.Valid() && InBlocks(job, AllBlocks(job), r)
    requires Flatten(job.blocks) == StoredRows(dataset, keyColumns, job.runId, job.version)
    ensures exists d :: d in dataset && KeyOf(d, keyColumns) == r.key
  {
    FlattenCounts(job, r);
    assert multiset(Flatten(job.blocks))[r] == 1;
    var i :| 0 <= i < |dataset| && Flatten(job.blocks)[i] == r;
    assert dataset[i] in dataset;
  }

  lemma UntouchedKeyIsKept(base: seq<StoredRow>, rows: seq<StoredRow>, window: seq<Token>, w0: seq<Token>,
                           job: Job, dataset: seq<Record>, keyColumns: seq<string>, k: Key)
    requires job.Valid() && Fresh(base, w0, job) && InFlight(base, rows, window, job, AllBlocks(job))
    requires Flatten(job.blocks) == StoredRows(dataset, keyColumns, job.runId, job.version)
    requires forall r | r in dataset :: KeyOf(r, keyColumns) != k
    ensures k in FinalView(rows) <==> k in FinalView(base)
    ensures k in FinalView(rows) ==> FinalView(rows)[k] == FinalView(base)[k]
  {
    forall r | InBlocks(job, AllBlocks(job), r) ensures r.key != k {
      LoadedKeyIsInDataset(job, dataset, keyColumns, r);
    }
    UncommittedKeyIsKept(base, rows, window, w0, job, AllBlocks(job), k);
  }

  /** A key without a committed row of the run shows what it showed before. */
  lemma UncommittedKeyIsKept(base: seq<StoredRow>, rows: seq<StoredRow>, window: seq<Token>, w0: seq<Token>,
                             job: Job, committed: set<nat>, k: Key)
    requires job.Valid() && Fresh(base, w0, job) && InFlight(base, rows, window, job, committed)
    requires forall r | InBlocks(job, committed, r) :: r.key != k
    ensures k in FinalView(rows) <==> k in FinalView(base)
    ensures k in FinalView(rows) ==> FinalView(rows)[k] == FinalView(base)[k]
  {
    InFlightVersions(base, rows, window, job, committed, w0);
    if k in FinalView(base) {
      var r := ShownRow(base, k);
      assert Outlived(rows, r);
      NewestIsShown(rows, r);
    } else if k in FinalView(rows) {
      var r := ShownRow(rows, k);
      StoredKeyIsShown(base, r);
    }
  }
}
