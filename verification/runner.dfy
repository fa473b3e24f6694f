/** Starting runs from any thread of any process: the claim set of each process, the lock of each report
    across processes, and every interleaving of submit, run_now and execution. */
module Runner {
  import opened Frames

  /** Where a requested run is on its way. Holding the lock: Locked to Ended. */
  datatype Phase =
    | Prepared            // configuration loaded, nothing claimed
    | Claimed             // submit put the report into the process's claim set
    | Queued              // waiting for a worker thread
    | Starting            // in _execute, about to take the lock
    | Locked              // took the lock
    | Started(at: nat)    // the orchestrator set started_at
    | Ended               // the orchestrator returned
    | Refused             // the lock was busy: recorded as FAILED, nothing was started
    | Leaving             // in _execute's finally, the lock released
    | Over

  datatype Request = Request(process: nat, report: string, submitted: bool, phase: Phase) {
    predicate HoldsLock() { phase.Locked? || phase.Started? || phase.Ended? }

    predicate IsPending() { submitted && !phase.Prepared? && !phase.Over? }
  }

  datatype LoadRecord = LoadRecord(report: string, startedAt: nat)

  datatype State = State(
    requests: seq<Request>,
    active: map<nat, set<string>>,     // by process
    locks: map<string, nat>,           // report to the request that holds its lock
    clock: nat,
    loads: seq<LoadRecord>)            // SUCCESS records, in the order the loads ended
  {
    function ActiveIn(process: nat): set<string> {
      if process in active then active[process] else {}
    }

    function At(i: nat, phase: Phase): seq<Request>
      requires i < |requests|
    {
      requests[i := requests[i].(phase := phase)]
    }
  }

  const INITIAL: State := State([], map[], map[], 0, [])

  /** What a request can do next. */
  datatype Move = Claim | Enqueue | EnqueueFails | RunHere | GiveUp | Dequeue | TryLock | Start | Finish(loaded: bool)
                | Unlock | Discard

  datatype Action =
    | Arrive(process: nat, report: string, submitted: bool)
    | Step(i: nat, move: Move)
    | Crash(process: nat)

  /** A process dies: its requests are gone, the system releases its locks, a new process claims nothing. */
  function Killed(s: State, process: nat): State {
    s.(requests := seq(|s.requests|, i requires 0 <= i < |s.requests| =>
                     if s.requests[i].process == process then s.requests[i].(phase := Over) else s.requests[i]),
       active := s.active[process := {}],
       locks := map r | r in s.locks && s.locks[r] < |s.requests| && s.requests[s.locks[r]].process != process ::
           s.locks[r])
  }

  /** One atomic step of request i, None when it is not enabled. */
  function Advance(s: State, i: nat, move: Move): Option<State>
    requires i < |s.requests|
  {
    var r := s.requests[i];
    match move
    case Claim =>
      if !r.submitted || r.phase != Prepared then None
      else if r.report in s.ActiveIn(r.process) then Some(s.(requests := s.At(i, Over)))
      else Some(s.(requests := s.At(i, Claimed), active := s.active[r.process := s.ActiveIn(r.process) + {r.report}]))
    case Enqueue => if r.phase != Claimed then None else Some(s.(requests := s.At(i, Queued)))
    case EnqueueFails =>
      if r.phase != Claimed then None
      else Some(s.(requests := s.At(i, Over), active := s.active[r.process := s.ActiveIn(r.process) - {r.report}]))
    case RunHere => if r.submitted || r.phase != Prepared then None else Some(s.(requests := s.At(i, Starting)))
    case GiveUp => if r.submitted || r.phase != Prepared then None else Some(s.(requests := s.At(i, Over)))
    case Dequeue => if r.phase != Queued then None else Some(s.(requests := s.At(i, Starting)))
    case TryLock =>
      if r.phase != Starting then None
      else if r.report in s.locks then Some(s.(requests := s.At(i, Refused)))
      else Some(s.(requests := s.At(i, Locked), locks := s.locks[r.report := i]))
    case Start =>
      if r.phase != Locked then None
      else Some(s.(requests := s.At(i, Started(s.clock + 1)), clock := s.clock + 1))
    case Finish(loaded) =>
      if r.phase == Locked && !loaded then Some(s.(requests := s.At(i, Ended)))
      else if !r.phase.Started? then None
      else if loaded then Some(s.(requests := s.At(i, Ended), loads := s.loads + [LoadRecord(r.report, r.phase.at)]))
      else Some(s.(requests := s.At(i, Ended)))
    case Unlock =>
      if r.phase != Ended then None
      else Some(s.(requests := s.At(i, Leaving), locks := s.locks - {r.report}))
    case Discard =>
      if r.phase != Leaving && r.phase != Refused then None
      else Some(s.(requests := s.At(i, Over), active := s.active[r.process := s.ActiveIn(r.process) - {r.report}]))
  }

  lemma MoveShape(s: State, i: nat, move: Move)
    requires i < |s.requests| && Advance(s, i, move).Some?
    ensures var s' := Advance(s, i, move).value;
            |s'.requests| == |s.requests| && s'.requests == s.At(i, s'.requests[i].phase)
  {
  }

  /** One atomic step of the whole system. */
  function Apply(s: State, action: Action): Option<State> {
    match action
    case Arrive(process, report, submitted) =>
      Some(s.(requests := s.requests + [Request(process, report, submitted, Prepared)]))
    case Step(i, move) => if i < |s.requests| then Advance(s, i, move) else None
    case Crash(process) => Some(Killed(s, process))
  }

  // --- locks -------------------------------------------------------------------------------------

  /** The lock table names exactly the requests that hold a lock. */
  ghost predicate LocksHeld(requests: seq<Request>, locks: map<string, nat>) {
    && (forall r | r in locks ::
          locks[r] < |requests| && requests[locks[r]].report == r && requests[locks[r]].HoldsLock())
    && (forall i | 0 <= i < |requests| && requests[i].HoldsLock() ::
          requests[i].report in locks && locks[requests[i].report] == i)
  }

  lemma LockUntouched(requests: seq<Request>, locks: map<string, nat>, i: nat, phase: Phase)
    requires i < |requests| && LocksHeld(requests, locks)
    requires requests[i].HoldsLock() == requests[i].(phase := phase).HoldsLock()
    ensures LocksHeld(requests[i := requests[i].(phase := phase)], locks)
  {
  }

  lemma LockTaken(requests: seq<Request>, locks: map<string, nat>, i: nat)
    requires i < |requests| && LocksHeld(requests, locks) && requests[i].report !in locks
    ensures LocksHeld(requests[i := requests[i].(phase := Locked)], locks[requests[i].report := i])
  {
  }

  lemma LockReleased(requests: seq<Request>, locks: map<string, nat>, i: nat)
    requires i < |requests| && LocksHeld(requests, locks) && requests[i].HoldsLock()
    ensures LocksHeld(requests[i := requests[i].(phase := Leaving)], locks - {requests[i].report})
  {
  }

  lemma MoveKeepsLocks(s: State, i: nat, move: Move)
    requires LocksHeld(s.requests, s.locks) && i < |s.requests| && Advance(s, i, move).Some?
    ensures var s' := Advance(s, i, move).value; LocksHeld(s'.requests, s'.locks)
  {
    hide LocksHeld;
    var s' := Advance(s, i, move).value;
    if move == TryLock && s.requests[i].report !in s.locks {
      LockTaken(s.requests, s.locks, i);
    } else if move == Unlock {
      LockReleased(s.requests, s.locks, i);
    } else {
      LockUntouched(s.requests, s.locks, i, s'.requests[i].phase);
    }
  }

  lemma CrashKeepsLocks(s: State, process: nat)
    requires LocksHeld(s.requests, s.locks)
    ensures LocksHeld(Killed(s, process).requests, Killed(s, process).locks)
  {
    var s' := Killed(s, process);
    forall i | 0 <= i < |s'.requests| && s'.requests[i].HoldsLock()
      ensures s'.requests[i].report in s'.locks && s'.locks[s'.requests[i].report] == i
    {
      assert s.requests[i] == s'.requests[i];
    }
  }

  /** A run is refused exactly when another request of its report, of any process, holds the lock; the
      others, the locks and the loads stay as they are. */
  lemma RefusedIffLockHeld(s: State, i: nat)
    requires LocksHeld(s.requests, s.locks) && i < |s.requests| && s.requests[i].phase == Starting
    ensures var s' := Advance(s, i, TryLock).value;
            && (s'.requests[i].phase == Refused <==> HeldByAnother(s.requests, i))
            && (HeldByAnother(s.requests, i) ==> s' == s.(requests := s.At(i, Refused)))
  {
    var report := s.requests[i].report;
    if report in s.locks {
      var j := s.locks[report];
      assert s.requests[j].report == report && s.requests[j].HoldsLock();
    }
  }

  ghost predicate HeldByAnother(requests: seq<Request>, i: nat)
    requires i < |requests|
  {
    exists j :: 0 <= j < |requests| && j != i && requests[j].report == requests[i].report && requests[j].HoldsLock()
  }

  // --- the way of a request ------------------------------------------------------------------------

  /** The phases a request may be in after one step of its own. */
  ghost predicate MayBecome(s: State, i: nat, next: Phase)
    requires i < |s.requests|
  {
    var r := s.requests[i];
    match next
    case Prepared => false
    case Claimed => r.submitted && r.phase == Prepared && r.report !in s.ActiveIn(r.process)
    case Queued => r.phase == Claimed
    case Starting => r.phase == Queued || (r.phase == Prepared && !r.submitted)
    case Locked => r.phase == Starting && !HeldByAnother(s.requests, i)
    case Started(at) => r.phase == Locked && at == s.clock + 1
    case Ended => r.phase == Locked || r.phase.Started?
    case Refused => r.phase == Starting && HeldByAnother(s.requests, i)
    case Leaving => r.phase == Ended
    case Over =>
      || r.phase == Leaving || r.phase == Refused || r.phase == Claimed
      || (r.phase == Prepared && (!r.submitted || r.report in s.ActiveIn(r.process)))
  }

  ghost predicate Leads(s: State, i: nat, move: Move, next: Phase)
    requires i < |s.requests|
  {
    var after := Advance(s, i, move);
    after.Some? && i < |after.value.requests| && after.value.requests[i].phase == next
  }

  lemma LeadsWhereItMay(s: State, i: nat, move: Move, next: Phase)
    requires LocksHeld(s.requests, s.locks) && i < |s.requests| && Leads(s, i, move, next)
    ensures MayBecome(s, i, next)
  {
    if !s.requests[i].HoldsLock() { LockedIffHeld(s, i); }
    hide LocksHeld, HeldByAnother;
  }

  function MoveTo(r: Request, next: Phase): Move {
    match next
    case Claimed => Claim
    case Queued => Enqueue
    case Starting => if r.phase == Prepared then RunHere else Dequeue
    case Locked | Refused => TryLock
    case Started(_) => Start
    case Ended => Finish(false)
    case Leaving => Unlock
    case _ =>
      if r.phase == Claimed then EnqueueFails
      else if r.phase != Prepared then Discard
      else if r.submitted then Claim
      else GiveUp
  }

  lemma MoveToLeads(s: State, i: nat, next: Phase)
    requires LocksHeld(s.requests, s.locks) && i < |s.requests| && MayBecome(s, i, next)
    ensures Leads(s, i, MoveTo(s.requests[i], next), next)
  {
    if !s.requests[i].HoldsLock() { LockedIffHeld(s, i); }
    hide LocksHeld, HeldByAnother;
  }

  /** Each step leads where it may, and wherever a request may come there is a step. */
  lemma NextPhaseIff(s: State, i: nat, next: Phase)
    requires LocksHeld(s.requests, s.locks) && i < |s.requests|
    ensures (exists move :: Leads(s, i, move, next)) <==> MayBecome(s, i, next)
  {
    hide MayBecome, Leads, MoveTo;
    if MayBecome(s, i, next) { MoveToLeads(s, i, next); }
    if move :| Leads(s, i, move, next) { LeadsWhereItMay(s, i, move, next); }
  }

  lemma LockedIffHeld(s: State, i: nat)
    requires LocksHeld(s.requests, s.locks) && i < |s.requests| && !s.requests[i].HoldsLock()
    ensures s.requests[i].report in s.locks <==> HeldByAnother(s.requests, i)
  {
  }

  /** Several steps of one request, one after the other. */
  function Moves(s: State, i: nat, moves: seq<Move>): Option<State>
    requires i < |s.requests|
    decreases |moves|
  {
    if moves == [] then Some(s)
    else if Advance(s, i, moves[0]).None? then None
    else
      MoveShape(s, i, moves[0]);
      Moves(Advance(s, i, moves[0]).value, i, moves[1..])
  }

  function ToGo(phase: Phase): nat {
    match phase
    case Prepared => 8
    case Claimed => 7
    case Queued => 6
    case Starting => 5
    case Locked => 4
    case Started(_) => 3
    case Ended => 2
    case Leaving | Refused => 1
    case Over => 0
  }

  /** Nobody is in the way of this request, and it has not loaded yet. */
  ghost predicate IsFree(s: State, i: nat)
    requires i < |s.requests|
  {
    var r := s.requests[i];
    && !HeldByAnother(s.requests, i)
    && (r.phase == Prepared && r.submitted ==> r.report !in s.ActiveIn(r.process))
    && !r.phase.Ended? && !r.phase.Refused? && !r.phase.Leaving? && !r.phase.Over?
  }

  /** What it does when everything goes well. */
  function NextMove(r: Request): Move
    requires r.phase != Over
  {
    match r.phase
    case Prepared => if r.submitted then Claim else RunHere
    case Claimed => Enqueue
    case Queued => Dequeue
    case Starting => TryLock
    case Locked => Start
    case Started(_) => Finish(true)
    case Ended => Unlock
    case _ => Discard
  }

  function StartOf(s: State, i: nat): nat
    requires i < |s.requests|
  {
    if s.requests[i].phase.Started? then s.requests[i].phase.at else s.clock + 1
  }

  lemma OthersStillHold(s: State, i: nat, phase: Phase)
    requires i < |s.requests|
    ensures HeldByAnother(s.At(i, phase), i) <==> HeldByAnother(s.requests, i)
  {
    var after := s.At(i, phase);
    assert forall j | 0 <= j < |s.requests| && j != i :: after[j] == s.requests[j];
  }

  /** The next step is enabled and leads on. */
  lemma OneStepOn(s: State, i: nat)
    requires LocksHeld(s.requests, s.locks) && i < |s.requests| && s.requests[i].phase != Over
    ensures var next := Advance(s, i, NextMove(s.requests[i]));
            && next.Some? && |next.value.requests| == |s.requests| && LocksHeld(next.value.requests, next.value.locks)
            && next.value.requests[i].report == s.requests[i].report
            && ToGo(next.value.requests[i].phase) < ToGo(s.requests[i].phase)
            && (IsFree(s, i) && !s.requests[i].phase.Started? ==>
                 IsFree(next.value, i) && next.value.loads == s.loads && StartOf(next.value, i) == StartOf(s, i))
            && (IsFree(s, i) && s.requests[i].phase.Started? ==>
                 && next.value.loads == s.loads + [LoadRecord(s.requests[i].report, StartOf(s, i))]
                 && !IsFree(next.value, i))
            && (!IsFree(s, i) ==> next.value.loads == s.loads && !IsFree(next.value, i))
  {
    var move := NextMove(s.requests[i]);
    MoveKeepsLocks(s, i, move);
    HolderIsAlone(s, i);
    if !s.requests[i].HoldsLock() {
      LockedIffHeld(s, i);
    }
    var s' := Advance(s, i, move).value;
    MoveShape(s, i, move);
    OthersStillHold(s, i, s'.requests[i].phase);
    hide LocksHeld, HeldByAnother;
  }

  lemma HolderIsAlone(s: State, i: nat)
    requires LocksHeld(s.requests, s.locks) && i < |s.requests|
    ensures s.requests[i].HoldsLock() ==> !HeldByAnother(s.requests, i)
  {
  }

  /** A request can always end, in at most eight steps of its own and whatever others do not do; if nobody is in
      its way it can load, once. */
  lemma {:induction false} EveryRequestCanEnd(s: State, i: nat) returns (moves: seq<Move>)
    requires LocksHeld(s.requests, s.locks) && i < |s.requests|
    ensures |moves| <= ToGo(s.requests[i].phase) <= 8 && Moves(s, i, moves).Some?
    ensures var s' := Moves(s, i, moves).value;
            && i < |s'.requests| && s'.requests[i].phase == Over && LocksHeld(s'.requests, s'.locks)
            && s'.loads == s.loads + if IsFree(s, i) then [LoadRecord(s.requests[i].report, StartOf(s, i))] else []
    decreases ToGo(s.requests[i].phase)
  {
    if s.requests[i].phase == Over {
      return [];
    }
    var move := NextMove(s.requests[i]);
    OneStepOn(s, i);
    var s' := Advance(s, i, move).value;
    hide LocksHeld, IsFree, Advance, ToGo, StartOf, NextMove;
    var rest := EveryRequestCanEnd(s', i);
    moves := [move] + rest;
    assert moves[1..] == rest;
  }

  // --- the order of loads ------------------------------------------------------------------------

  /** Loads of a report start in the order they end, and a run in progress started after all of them. */
  ghost predicate LoadsInOrder(requests: seq<Request>, clock: nat, loads: seq<LoadRecord>) {
    && (forall k | 0 <= k < |loads| :: loads[k].startedAt <= clock)
    && (forall k, l | 0 <= k < l < |loads| && loads[k].report == loads[l].report ::
        loads[k].startedAt < loads[l].startedAt)
    && (forall i | 0 <= i < |requests| && requests[i].phase.Started? :: requests[i].phase.at <= clock)
    && (forall i, k | 0 <= i < |requests| && 0 <= k < |loads| && requests[i].phase.Started?
                      && requests[i].report == loads[k].report :: loads[k].startedAt < requests[i].phase.at)
  }

  lemma NobodyStarts(requests: seq<Request>, clock: nat, loads: seq<LoadRecord>, i: nat, phase: Phase)
    requires i < |requests| && LoadsInOrder(requests, clock, loads) && !phase.Started?
    ensures LoadsInOrder(requests[i := requests[i].(phase := phase)], clock, loads)
  {
  }

  lemma OneStarts(requests: seq<Request>, clock: nat, loads: seq<LoadRecord>, i: nat)
    requires i < |requests| && LoadsInOrder(requests, clock, loads)
    ensures LoadsInOrder(requests[i := requests[i].(phase := Started(clock + 1))], clock + 1, loads)
  {
  }

  lemma OneLoads(requests: seq<Request>, locks: map<string, nat>, clock: nat, loads: seq<LoadRecord>, i: nat)
    requires i < |requests| && LocksHeld(requests, locks) && LoadsInOrder(requests, clock, loads)
    requires requests[i].phase.Started?
    ensures LoadsInOrder(requests[i := requests[i].(phase := Ended)], clock,
                         loads + [LoadRecord(requests[i].report, requests[i].phase.at)])
  {
    assert forall j | 0 <= j < |requests| && j != i && requests[j].phase.Started? ::
        requests[j].report != requests[i].report;
  }

  lemma MoveKeepsLoads(s: State, i: nat, move: Move)
    requires LocksHeld(s.requests, s.locks) && LoadsInOrder(s.requests, s.clock, s.loads)
    requires i < |s.requests| && Advance(s, i, move).Some?
    ensures var s' := Advance(s, i, move).value; LoadsInOrder(s'.requests, s'.clock, s'.loads)
  {
    hide LocksHeld, LoadsInOrder;
    var s' := Advance(s, i, move).value;
    if move == Start {
      OneStarts(s.requests, s.clock, s.loads, i);
    } else if move == Finish(true) {
      OneLoads(s.requests, s.locks, s.clock, s.loads, i);
    } else {
      NobodyStarts(s.requests, s.clock, s.loads, i, s'.requests[i].phase);
    }
  }

  lemma CrashKeepsLoads(s: State, process: nat)
    requires LoadsInOrder(s.requests, s.clock, s.loads)
    ensures LoadsInOrder(Killed(s, process).requests, s.clock, s.loads)
  {
    var s' := Killed(s, process);
    assert forall j | 0 <= j < |s.requests| && s'.requests[j].phase.Started? :: s'.requests[j] == s.requests[j];
  }

  // --- claims ------------------------------------------------------------------------------------

  /** Nobody in the process asked for the report with run_now. */
  ghost predicate SubmitsOnly(requests: seq<Request>, process: nat, report: string) {
    forall i | 0 <= i < |requests| && requests[i].process == process && requests[i].report == report ::
      requests[i].submitted
  }

  predicate Pending(requests: seq<Request>, process: nat, report: string, i: nat) {
    i < |requests| && requests[i].process == process && requests[i].report == report && requests[i].IsPending()
  }

  /** The report is claimed exactly while one submitted run of it is in progress, queued or executing. */
  ghost predicate ClaimMatches(requests: seq<Request>, claimed: set<string>, process: nat, report: string) {
    && (report in claimed <==> exists i :: Pending(requests, process, report, i))
    && (forall i, j | Pending(requests, process, report, i) && Pending(requests, process, report, j) :: i == j)
  }

  lemma ClaimUntouched(requests: seq<Request>, claimed: set<string>, claimed': set<string>, process: nat,
                       report: string, i: nat, phase: Phase)
    requires i < |requests| && ClaimMatches(requests, claimed, process, report)
    requires report in claimed <==> report in claimed'
    requires requests[i].process == process && requests[i].report == report ==>
               requests[i].IsPending() == requests[i].(phase := phase).IsPending()
    ensures ClaimMatches(requests[i := requests[i].(phase := phase)], claimed', process, report)
  {
    var after := requests[i := requests[i].(phase := phase)];
    assert forall j :: Pending(after, process, report, j) <==> Pending(requests, process, report, j);
  }

  lemma ClaimMade(requests: seq<Request>, claimed: set<string>, i: nat)
    requires i < |requests| && ClaimMatches(requests, claimed, requests[i].process, requests[i].report)
    requires requests[i].submitted && requests[i].report !in claimed
    ensures ClaimMatches(requests[i := requests[i].(phase := Claimed)], claimed + {requests[i].report},
        requests[i].process, requests[i].report)
  {
    var after := requests[i := requests[i].(phase := Claimed)];
    var process, report := requests[i].process, requests[i].report;
    assert Pending(after, process, report, i);
    assert forall j | j != i :: Pending(after, process, report, j) <==> Pending(requests, process, report, j);
  }

  lemma ClaimDropped(requests: seq<Request>, claimed: set<string>, i: nat)
    requires i < |requests| && requests[i].IsPending()
    requires ClaimMatches(requests, claimed, requests[i].process, requests[i].report)
    ensures ClaimMatches(requests[i := requests[i].(phase := Over)], claimed - {requests[i].report},
        requests[i].process, requests[i].report)
  {
    var after := requests[i := requests[i].(phase := Over)];
    var process, report := requests[i].process, requests[i].report;
    assert Pending(requests, process, report, i);
    assert forall j | j != i :: Pending(after, process, report, j) <==> Pending(requests, process, report, j);
  }

  lemma MoveKeepsClaims(s: State, i: nat, move: Move, process: nat, report: string)
    requires i < |s.requests| && Advance(s, i, move).Some? && SubmitsOnly(s.requests, process, report)
    requires ClaimMatches(s.requests, s.ActiveIn(process), process, report)
    ensures var s' := Advance(s, i, move).value; ClaimMatches(s'.requests, s'.ActiveIn(process), process, report)
  {
    hide ClaimMatches;
    var s' := Advance(s, i, move).value;
    var r := s.requests[i];
    var ours := r.process == process && r.report == report;
    if ours && move == Claim && report !in s.ActiveIn(process) {
      ClaimMade(s.requests, s.ActiveIn(process), i);
    } else if ours && (move == EnqueueFails || move == Discard) {
      ClaimDropped(s.requests, s.ActiveIn(process), i);
    } else {
      ClaimUntouched(s.requests, s.ActiveIn(process), s'.ActiveIn(process), process, report, i, s'.requests[i].phase);
    }
  }

  lemma CrashKeepsClaims(s: State, crashed: nat, process: nat, report: string)
    requires ClaimMatches(s.requests, s.ActiveIn(process), process, report)
    ensures ClaimMatches(Killed(s, crashed).requests, Killed(s, crashed).ActiveIn(process), process, report)
  {
    var s' := Killed(s, crashed);
    if process == crashed {
      assert forall i :: !Pending(s'.requests, process, report, i);
    } else {
      assert forall i :: Pending(s'.requests, process, report, i) <==> Pending(s.requests, process, report, i);
    }
  }

  // --- claims in any process, run_now included ---------------------------------------------------

  /** Whatever is claimed, some submitted run of it is still on its way: a claim never outlives its run. */
  ghost predicate NoStaleClaim(requests: seq<Request>, claimed: set<string>, process: nat) {
    forall report | report in claimed :: exists i :: Pending(requests, process, report, i)
  }

  lemma StillPending(requests: seq<Request>, claimed: set<string>, process: nat, i: nat, phase: Phase)
    requires i < |requests| && NoStaleClaim(requests, claimed, process)
    ensures requests[i].(phase := phase).IsPending() || !requests[i].IsPending() || requests[i].process != process ==>
              NoStaleClaim(requests[i := requests[i].(phase := phase)], claimed, process)
    ensures requests[i].process == process ==>
              NoStaleClaim(requests[i := requests[i].(phase := phase)], claimed - {requests[i].report}, process)
    ensures requests[i].process == process && requests[i].(phase := phase).IsPending() ==>
              NoStaleClaim(requests[i := requests[i].(phase := phase)], claimed + {requests[i].report}, process)
  {
    var after := requests[i := requests[i].(phase := phase)];
    assert forall report, j | j != i :: Pending(after, process, report, j) <==> Pending(requests, process, report, j);
    assert requests[i].process == process && requests[i].(phase := phase).IsPending() ==>
             Pending(after, process, requests[i].report, i);
  }

  lemma MoveKeepsNoStaleClaim(s: State, i: nat, move: Move, process: nat)
    requires i < |s.requests| && Advance(s, i, move).Some? && NoStaleClaim(s.requests, s.ActiveIn(process), process)
    ensures var s' := Advance(s, i, move).value; NoStaleClaim(s'.requests, s'.ActiveIn(process), process)
  {
    hide NoStaleClaim;
    var s' := Advance(s, i, move).value;
    StillPending(s.requests, s.ActiveIn(process), process, i, s'.requests[i].phase);
  }

  lemma CrashKeepsNoStaleClaim(s: State, crashed: nat, process: nat)
    requires NoStaleClaim(s.requests, s.ActiveIn(process), process)
    ensures NoStaleClaim(Killed(s, crashed).requests, Killed(s, crashed).ActiveIn(process), process)
  {
    var s' := Killed(s, crashed);
    if process != crashed {
      assert forall report, i :: Pending(s'.requests, process, report, i) <==> Pending(s.requests, process, report, i);
    }
  }

  // --- every run of the system -------------------------------------------------------------------

  ghost predicate Safe(s: State) {
    && LocksHeld(s.requests, s.locks)
    && LoadsInOrder(s.requests, s.clock, s.loads)
    && (forall process :: NoStaleClaim(s.requests, s.ActiveIn(process), process))
    && (forall process, report | SubmitsOnly(s.requests, process, report) ::
          ClaimMatches(s.requests, s.ActiveIn(process), process, report))
  }

  lemma ArrivalIsSafe(s: State, request: Request)
    requires Safe(s) && request.phase == Prepared
    ensures Safe(s.(requests := s.requests + [request]))
  {
    var s' := s.(requests := s.requests + [request]);
    assert forall process, report, i ::
             Pending(s'.requests, process, report, i) <==> Pending(s.requests, process, report, i);
    hide Pending;
    forall process, report | SubmitsOnly(s'.requests, process, report)
      ensures ClaimMatches(s'.requests, s'.ActiveIn(process), process, report)
    {
      assert forall i | 0 <= i < |s.requests| :: s'.requests[i] == s.requests[i];
      assert SubmitsOnly(s.requests, process, report);
      assert s'.ActiveIn(process) == s.ActiveIn(process);
    }
    forall process ensures NoStaleClaim(s'.requests, s'.ActiveIn(process), process) {
      assert NoStaleClaim(s.requests, s.ActiveIn(process), process);
      assert s'.ActiveIn(process) == s.ActiveIn(process);
    }
  }

  lemma MoveIsSafe(s: State, i: nat, move: Move)
    requires Safe(s) && i < |s.requests| && Advance(s, i, move).Some?
    ensures Safe(Advance(s, i, move).value)
  {
    var s' := Advance(s, i, move).value;
    MoveShape(s, i, move);
    hide LocksHeld, LoadsInOrder, NoStaleClaim, ClaimMatches, Advance;
    MoveKeepsLocks(s, i, move);
    MoveKeepsLoads(s, i, move);
    forall process ensures NoStaleClaim(s'.requests, s'.ActiveIn(process), process) {
      MoveKeepsNoStaleClaim(s, i, move, process);
    }
    forall process, report | SubmitsOnly(s'.requests, process, report)
      ensures ClaimMatches(s'.requests, s'.ActiveIn(process), process, report)
    {
      assert forall j | 0 <= j < |s.requests| :: s'.requests[j] == s.requests[j].(phase := s'.requests[j].phase);
      assert SubmitsOnly(s.requests, process, report);
      MoveKeepsClaims(s, i, move, process, report);
    }
  }

  lemma CrashIsSafe(s: State, crashed: nat)
    requires Safe(s)
    ensures Safe(Killed(s, crashed))
  {
    var s' := Killed(s, crashed);
    CrashKeepsLocks(s, crashed);
    CrashKeepsLoads(s, crashed);
    hide LocksHeld, LoadsInOrder, NoStaleClaim, ClaimMatches;
    forall process ensures NoStaleClaim(s'.requests, s'.ActiveIn(process), process) {
      CrashKeepsNoStaleClaim(s, crashed, process);
    }
    forall process, report | SubmitsOnly(s'.requests, process, report)
      ensures ClaimMatches(s'.requests, s'.ActiveIn(process), process, report)
    {
      assert forall j | 0 <= j < |s.requests| :: s'.requests[j] == s.requests[j].(phase := s'.requests[j].phase);
      assert SubmitsOnly(s.requests, process, report);
      CrashKeepsClaims(s, crashed, process, report);
    }
  }

  /** The state after a sequence of steps, None when one of them was not enabled. */
  function After(actions: seq<Action>): Option<State> {
    if actions == [] then Some(INITIAL)
    else
      var before := After(actions[..|actions| - 1]);
      if before.None? then None else Apply(before.value, actions[|actions| - 1])
  }

  lemma ApplyIsSafe(s: State, action: Action)
    requires Safe(s) && Apply(s, action).Some?
    ensures Safe(Apply(s, action).value)
  {
    hide Safe, Advance, Killed;
    match action
    case Arrive(process, report, submitted) => ArrivalIsSafe(s, Request(process, report, submitted, Prepared));
    case Step(i, move) => MoveIsSafe(s, i, move);
    case Crash(process) => CrashIsSafe(s, process);
  }

  /** Every interleaving is safe, crashes included. */
  lemma {:induction false} EveryInterleavingIsSafe(actions: seq<Action>)
    requires After(actions).Some?
    ensures Safe(After(actions).value)
  {
    hide Apply;
    if actions == [] {
      assert forall process, report, i :: !Pending(INITIAL.requests, process, report, i);
    } else {
      hide Safe;
      EveryInterleavingIsSafe(actions[..|actions| - 1]);
      ApplyIsSafe(After(actions[..|actions| - 1]).value, actions[|actions| - 1]);
    }
  }

  /** At most one run of a report is inside the orchestrator, across all threads and processes. */
  lemma OneRunPerReport(actions: seq<Action>, i: nat, j: nat)
    requires After(actions).Some? && i < |After(actions).value.requests| && j < |After(actions).value.requests|
    requires var s := After(actions).value;
             s.requests[i].HoldsLock() && s.requests[j].HoldsLock() && s.requests[i].report == s.requests[j].report
    ensures i == j
  {
    EveryInterleavingIsSafe(actions);
  }

  /** While a request holds the lock of its report, nobody else records a load of that report, and only a crash
      of its own process takes the lock away. */
  lemma OthersDoNotLoad(actions: seq<Action>, action: Action, i: nat)
    requires After(actions + [action]).Some? && After(actions).Some?
    requires i < |After(actions).value.requests| && After(actions).value.requests[i].HoldsLock()
    requires !(action.Step? && action.i == i)
    ensures var s, s' := After(actions).value, After(actions + [action]).value;
            && (s'.loads == s.loads
                || exists load: LoadRecord :: s'.loads == s.loads + [load] && load.report != s.requests[i].report)
            && (action != Crash(s.requests[i].process) ==>
                  i < |s'.requests| && s'.requests[i] == s.requests[i])
  {
    assert (actions + [action])[..|actions|] == actions;
    EveryInterleavingIsSafe(actions);
    var s := After(actions).value;
    hide LoadsInOrder, NoStaleClaim, ClaimMatches, After;
    if action.Step? && action.move == Finish(true) {
      assert s.requests[action.i].HoldsLock();
    }
  }

  /** SUCCESS records of a report carry increasing start times in the order they were loaded. */
  lemma StartsFollowLoadOrder(actions: seq<Action>, k: nat, l: nat)
    requires After(actions).Some? && k < l < |After(actions).value.loads|
    requires After(actions).value.loads[k].report == After(actions).value.loads[l].report
    ensures After(actions).value.loads[k].startedAt < After(actions).value.loads[l].startedAt
  {
    EveryInterleavingIsSafe(actions);
  }

  /** While nobody in the process asks for a report with run_now, the report is claimed there exactly while one
      run of it is pending, whatever happens to other reports and processes. */
  lemma ClaimedIffPending(actions: seq<Action>, process: nat, report: string)
    requires After(actions).Some? && SubmitsOnly(After(actions).value.requests, process, report)
    ensures var s := After(actions).value;
            && (report in s.ActiveIn(process) <==> exists i :: Pending(s.requests, process, report, i))
            && (forall i, j | Pending(s.requests, process, report, i) && Pending(s.requests, process, report, j) ::
                i == j)
  {
    EveryInterleavingIsSafe(actions);
  }

  /** run_now is only asked for the given reports in the given processes. */
  ghost predicate RunNowOnly(actions: seq<Action>, allowed: iset<(nat, string)>) {
    forall k | 0 <= k < |actions| && actions[k].Arrive? && !actions[k].submitted ::
      (actions[k].process, actions[k].report) in allowed
  }

  /** The claim of the report is exact in every interleaving with no other run_now requests than these. */
  ghost predicate AlwaysExact(allowed: iset<(nat, string)>, process: nat, report: string) {
    forall actions | After(actions).Some? && RunNowOnly(actions, allowed) ::
      ClaimMatches(After(actions).value.requests, After(actions).value.ActiveIn(process), process, report)
  }

  /** A step changes requests in their phase only, and only an arrival adds one. */
  lemma RequestsStay(s: State, action: Action)
    requires Apply(s, action).Some?
    ensures var before, after := s.requests, Apply(s, action).value.requests;
            && |before| <= |after|
            && (forall j | 0 <= j < |before| :: after[j] == before[j].(phase := after[j].phase))
            && (action.Arrive? ==>
                  after == before + [Request(action.process, action.report, action.submitted, Prepared)])
            && (!action.Arrive? ==> |after| == |before|)
  {
    if action.Step? {
      MoveShape(s, action.i, action.move);
      hide Advance;
    }
  }

  lemma {:induction false} NoRunNowRequest(actions: seq<Action>, allowed: iset<(nat, string)>, process: nat,
        report: string)
    requires After(actions).Some? && RunNowOnly(actions, allowed) && (process, report) !in allowed
    ensures SubmitsOnly(After(actions).value.requests, process, report)
  {
    if actions != [] {
      var front, last := actions[..|actions| - 1], actions[|actions| - 1];
      NoRunNowRequest(front, allowed, process, report);
      RequestsStay(After(front).value, last);
      hide Apply;
    }
  }

  /** A claim of a report in a process is exact in all interleavings exactly when run_now of that report is
      not used in that process. */
  lemma ClaimsExactIffNoRunNow(allowed: iset<(nat, string)>, process: nat, report: string)
    ensures AlwaysExact(allowed, process, report) <==> (process, report) !in allowed
  {
    if (process, report) in allowed {
      var actions := RunNowDropsTheClaim(process, report);
      assert RunNowOnly(actions, allowed);
      var requests := After(actions).value.requests;
      assert Pending(requests, process, report, 0) && Pending(requests, process, report, 2);
    } else {
      forall actions | After(actions).Some? && RunNowOnly(actions, allowed)
        ensures ClaimMatches(After(actions).value.requests, After(actions).value.ActiveIn(process), process, report)
      {
        NoRunNowRequest(actions, allowed, process, report);
        EveryInterleavingIsSafe(actions);
      }
    }
  }

  // --- run_now discards a claim it never made ----------------------------------------------------

  lemma Then(actions: seq<Action>, action: Action, s: State)
    requires After(actions).Some? && Apply(After(actions).value, action) == Some(s)
    ensures After(actions + [action]) == Some(s)
  {
    assert (actions + [action])[..|actions|] == actions;
  }

  function One(process: nat, report: string, phase: Phase): seq<Request> { [Request(process, report, true, phase)] }

  function Two(process: nat, report: string, phase: Phase): seq<Request> {
    [Request(process, report, true, Queued), Request(process, report, false, phase)]
  }

  lemma OneMoves(process: nat, report: string, phase: Phase, next: Phase)
    ensures var before := One(process, report, phase);
            before[0 := before[0].(phase := next)] == One(process, report, next)
  {
  }

  lemma TwoMoves(process: nat, report: string, phase: Phase, next: Phase)
    ensures var before := Two(process, report, phase);
            before[1 := before[1].(phase := next)] == Two(process, report, next)
  {
  }

  lemma LastClaimDropped(process: nat, report: string)
    ensures map[process := {report}][process := {report} - {report}] == map[process := {}]
  {
    var nothing: set<string> := {};
    assert {report} - {report} == nothing;
  }

  lemma QueuedWithClaim(process: nat, report: string) returns (actions: seq<Action>)
    ensures RunNowOnly(actions, iset{(process, report)})
    ensures After(actions) == Some(State(One(process, report, Queued), map[process := {report}], map[], 0, []))
  {
    actions := [];
    var s0 := State(One(process, report, Prepared), map[], map[], 0, []);
    assert [] + One(process, report, Prepared) == One(process, report, Prepared);
    Then(actions, Arrive(process, report, true), s0);
    actions := actions + [Arrive(process, report, true)];
    OneMoves(process, report, Prepared, Claimed);
    assert s0.ActiveIn(process) + {report} == {report};
    Then(actions, Step(0, Claim), State(One(process, report, Claimed), map[process := {report}], map[], 0, []));
    actions := actions + [Step(0, Claim)];
    OneMoves(process, report, Claimed, Queued);
    Then(actions, Step(0, Enqueue), State(One(process, report, Queued), map[process := {report}], map[], 0, []));
    actions := actions + [Step(0, Enqueue)];
  }

  lemma RunNowRuns(process: nat, report: string) returns (actions: seq<Action>)
    ensures RunNowOnly(actions, iset{(process, report)})
    ensures After(actions) == Some(State(Two(process, report, Started(1)), map[process := {report}],
                                         map[report := 1], 1, []))
  {
    actions := QueuedWithClaim(process, report);
    var claims: map<nat, set<string>> := map[process := {report}];
    assert One(process, report, Queued) + [Request(process, report, false, Prepared)] == Two(process, report, Prepared);
    Then(actions, Arrive(process, report, false), State(Two(process, report, Prepared), claims, map[], 0, []));
    actions := actions + [Arrive(process, report, false)];
    TwoMoves(process, report, Prepared, Starting);
    Then(actions, Step(1, RunHere), State(Two(process, report, Starting), claims, map[], 0, []));
    actions := actions + [Step(1, RunHere)];
    TwoMoves(process, report, Starting, Locked);
    Then(actions, Step(1, TryLock), State(Two(process, report, Locked), claims, map[report := 1], 0, []));
    actions := actions + [Step(1, TryLock)];
    TwoMoves(process, report, Locked, Started(1));
    Then(actions, Step(1, Start), State(Two(process, report, Started(1)), claims, map[report := 1], 1, []));
    actions := actions + [Step(1, Start)];
  }

  lemma RunNowLoads(process: nat, report: string) returns (actions: seq<Action>)
    ensures RunNowOnly(actions, iset{(process, report)})
    ensures After(actions) == Some(State(Two(process, report, Leaving), map[process := {report}], map[], 1,
                                         [LoadRecord(report, 1)]))
  {
    actions := RunNowRuns(process, report);
    var claims: map<nat, set<string>> := map[process := {report}];
    var loads := [LoadRecord(report, 1)];
    TwoMoves(process, report, Started(1), Ended);
    assert [] + loads == loads;
    Then(actions, Step(1, Finish(true)), State(Two(process, report, Ended), claims, map[report := 1], 1, loads));
    actions := actions + [Step(1, Finish(true))];
    TwoMoves(process, report, Ended, Leaving);
    assert map[report := 1] - {report} == map[];
    Then(actions, Step(1, Unlock), State(Two(process, report, Leaving), claims, map[], 1, loads));
    actions := actions + [Step(1, Unlock)];
  }

  lemma RunNowEnds(process: nat, report: string) returns (actions: seq<Action>)
    ensures RunNowOnly(actions, iset{(process, report)})
    ensures After(actions) == Some(State(Two(process, report, Over), map[process := {}], map[], 1,
                                         [LoadRecord(report, 1)]))
  {
    actions := RunNowLoads(process, report);
    TwoMoves(process, report, Leaving, Over);
    LastClaimDropped(process, report);
    Then(actions, Step(1, Discard), State(Two(process, report, Over), map[process := {}], map[], 1,
                                          [LoadRecord(report, 1)]));
    actions := actions + [Step(1, Discard)];
  }

  /** A submitted run is queued; a run_now of the same report in the same process ends and discards the
      claim; so a second submit is accepted although the first is still queued. */
  lemma RunNowDropsTheClaim(process: nat, report: string) returns (actions: seq<Action>)
    ensures After(actions).Some? && RunNowOnly(actions, iset{(process, report)})
    ensures var requests := After(actions).value.requests;
            && Pending(requests, process, report, 0) && Pending(requests, process, report, 2)
            && requests[0].phase == Queued
  {
    actions := RunNowEnds(process, report);
    var s := After(actions).value;
    var third := Request(process, report, true, Prepared);
    Then(actions, Arrive(process, report, true), s.(requests := s.requests + [third]));
    actions := actions + [Arrive(process, report, true)];
    var after := s.(requests := s.requests + [third.(phase := Claimed)], active := map[process := {report}]);
    assert s.ActiveIn(process) + {report} == {report} && s.active[process := {report}] == map[process := {report}];
    assert (s.requests + [third])[2 := third.(phase := Claimed)] == s.requests + [third.(phase := Claimed)];
    Then(actions, Step(2, Claim), after);
    actions := actions + [Step(2, Claim)];
  }
}
