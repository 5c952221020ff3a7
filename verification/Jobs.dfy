/**
 * Backup jobs and failure retries as a concurrent step system
 * (crates/backrd/src/scheduler.rs and `handle_run_backup` in
 * crates/backrd/src/ipc/handlers.rs).
 *
 * Any number of scheduled jobs, requested jobs and retry sleepers interleave;
 * each atomic operation, lock section and await is one step. Timers are prompt:
 * time does not pass the deadline of a sleeper before the sleeper has run.
 */
module Jobs {
  import opened Wrappers

  const RETRY_INTERVAL: nat := 3600

  // ------------------------------------------------------------------
  // States
  // ------------------------------------------------------------------

  datatype Kind = Scheduled | Requested

  /** Where a job is; `Failed` and `Succeeded` still hold the flag; `Crashed` is the end after a panic. */
  datatype Stage = Waiting | Running | Failed | Succeeded | Releasing | Clearing | Done | Crashed

  datatype Job = Job(kind: Kind, stage: Stage)

  datatype Sleeper = Sleeper(claimedAt: nat, asleep: bool)

  datatype State = State(
    jobs: seq<Job>,
    sleepers: seq<Sleeper>,
    inProgress: bool,
    retryPending: bool,
    activeProject: Option<string>,
    now: nat,
    // History: successful claims of the retry slot, retries fired, retries cancelled,
    // and the job that has set the project shown.
    claims: nat,
    fires: nat,
    cancels: nat,
    owner: Option<nat>
  )

  const INIT: State := State([], [], false, false, None, 0, 0, 0, 0, None)

  datatype Event =
    | Spawn(kind: Kind)             // tick or tray; or an IPC request
    | Acquire(job: nat)             // compare_exchange on in_progress
    | Begin(job: nat, project: string)
    | Finish(job: nat, ok: bool)
    | Panic(job: nat)               // unwinding drops the guard
    | ClaimRetry(job: nat)          // compare_exchange on retry_pending
    | CancelRetry(job: nat)         // store(false) on retry_pending
    | Release(job: nat)             // the guard is dropped
    | ClearProject(job: nat)
    | Wake(sleeper: nat)            // swap(false) on retry_pending
    | Tick(seconds: nat)

  /** The job is between taking the flag and giving it back. */
  predicate Holds(j: Job) {
    match j.stage
    case Running => true
    case Failed => true
    case Succeeded => true
    case Releasing => true
    case Clearing => j.kind == Requested // requested jobs clear the project first
    case Waiting => false
    case Done => false
    case Crashed => false
  }

  /** The job whose step it is. */
  function JobOf(e: Event): Option<nat> {
    match e
    case Spawn(_) => None
    case Wake(_) => None
    case Tick(_) => None
    case _ => Some(e.job)
  }

  predicate IsAt(s: State, i: nat, stage: Stage) {
    i < |s.jobs| && s.jobs[i].stage == stage
  }

  function Move(s: State, i: nat, stage: Stage): State
    requires i < |s.jobs|
  {
    s.(jobs := s.jobs[i := s.jobs[i].(stage := stage)])
  }

  /** After the cycle: scheduled jobs see to the retry, requested ones clear the project. */
  function AfterCycle(kind: Kind, ok: bool): Stage {
    if kind == Requested then Clearing else if ok then Succeeded else Failed
  }

  /** One step, or None where it cannot happen. */
  function Next(s: State, e: Event): Option<State> {
    match e
    case Spawn(kind) => Some(s.(jobs := s.jobs + [Job(kind, Waiting)]))
    case Acquire(i) =>
      if !IsAt(s, i, Waiting) then None
      else if s.inProgress then Some(Move(s, i, Done))
      else Some(Move(s, i, Running).(inProgress := true))
    case Begin(i, project) =>
      if IsAt(s, i, Running) then Some(s.(activeProject := Some(project), owner := Some(i))) else None
    case Finish(i, ok) =>
      if IsAt(s, i, Running) then Some(Move(s, i, AfterCycle(s.jobs[i].kind, ok))) else None
    case Panic(i) =>
      if i < |s.jobs| && Holds(s.jobs[i])
      then Some(Move(s, i, Crashed).(inProgress := false))
      else None
    case ClaimRetry(i) =>
      if !IsAt(s, i, Failed) || s.jobs[i].kind == Requested then None
      else if s.retryPending then Some(Move(s, i, Releasing))
      else
        Some(Move(s, i, Releasing).(
          retryPending := true, claims := s.claims + 1, sleepers := s.sleepers + [Sleeper(s.now, true)]))
    case CancelRetry(i) =>
      if !IsAt(s, i, Succeeded) || s.jobs[i].kind == Requested then None
      else
        Some(Move(s, i, Releasing).(
          retryPending := false, cancels := s.cancels + if s.retryPending then 1 else 0))
    case Release(i) =>
      if !IsAt(s, i, Releasing) then None
      else Some(Move(s, i, if s.jobs[i].kind == Scheduled then Clearing else Done).(inProgress := false))
    case ClearProject(i) =>
      if !IsAt(s, i, Clearing) then None
      else
        Some(Move(s, i, if s.jobs[i].kind == Scheduled then Done else Releasing).(
          activeProject := None, owner := None))
    case Wake(k) =>
      if !(k < |s.sleepers| && s.sleepers[k].asleep && s.now >= s.sleepers[k].claimedAt + RETRY_INTERVAL) then None
      else
        var woken := s.(sleepers := s.sleepers[k := s.sleepers[k].(asleep := false)]);
        if !s.retryPending then Some(woken)
        else Some(woken.(retryPending := false, fires := s.fires + 1, jobs := s.jobs + [Job(Scheduled, Waiting)]))
    case Tick(seconds) =>
      if forall k :: 0 <= k < |s.sleepers| && s.sleepers[k].asleep ==>
           s.now + seconds <= s.sleepers[k].claimedAt + RETRY_INTERVAL
      then Some(s.(now := s.now + seconds))
      else None
  }

  /** The state after all of `events`, or None if one of them could not happen. */
  function Run(s: State, events: seq<Event>): Option<State> {
    if events == [] then Some(s)
    else
      match Run(s, events[..|events| - 1])
      case None => None
      case Some(t) => Next(t, events[|events| - 1])
  }

  // ------------------------------------------------------------------
  // Mutual exclusion
  // ------------------------------------------------------------------

  function Holders(jobs: seq<Job>): nat {
    if jobs == [] then 0
    else Holders(jobs[..|jobs| - 1]) + if Holds(jobs[|jobs| - 1]) then 1 else 0
  }

  lemma {:induction false} HoldersAfterUpdate(jobs: seq<Job>, i: nat, j: Job)
    requires i < |jobs|
    ensures Holders(jobs[i := j]) ==
      Holders(jobs) - (if Holds(jobs[i]) then 1 else 0) + if Holds(j) then 1 else 0
  {
    var init := jobs[..|jobs| - 1];
    if i == |jobs| - 1 {
      assert jobs[i := j][..|jobs| - 1] == init;
    } else {
      assert jobs[i := j][..|jobs| - 1] == init[i := j];
      HoldersAfterUpdate(init, i, j);
    }
  }

  lemma HoldersAfterSpawn(jobs: seq<Job>, j: Job)
    ensures Holders(jobs + [j]) == Holders(jobs) + if Holds(j) then 1 else 0
  {
    assert (jobs + [j])[..|jobs|] == jobs;
  }

  /** A holder makes the count positive, and two of them make it at least two. */
  lemma {:induction false} HoldersAreCounted(jobs: seq<Job>, i: nat, k: nat)
    requires i < |jobs| && k < |jobs| && Holds(jobs[i]) && Holds(jobs[k])
    ensures Holders(jobs) >= if i == k then 1 else 2
  {
    var init, last := jobs[..|jobs| - 1], |jobs| - 1;
    if i < last && k < last {
      HoldersAreCounted(init, i, k);
    } else if i < last {
      HoldersAreCounted(init, i, i);
    } else if k < last {
      HoldersAreCounted(init, k, k);
    }
  }

  lemma {:induction false} SomeHolder(jobs: seq<Job>) returns (i: nat)
    requires Holders(jobs) > 0
    ensures i < |jobs| && Holds(jobs[i])
  {
    if Holds(jobs[|jobs| - 1]) {
      i := |jobs| - 1;
    } else {
      i := SomeHolder(jobs[..|jobs| - 1]);
    }
  }

  ghost predicate Exclusive(s: State) {
    Holders(s.jobs) == if s.inProgress then 1 else 0
  }

  lemma HolderMeansInProgress(s: State, i: nat)
    requires Exclusive(s) && i < |s.jobs| && Holds(s.jobs[i])
    ensures s.inProgress
  {
    HoldersAreCounted(s.jobs, i, i);
  }

  lemma StepKeepsExclusive(s: State, e: Event)
    requires Exclusive(s) && Next(s, e).Some?
    ensures Exclusive(Next(s, e).value)
  {
    if JobOf(e).Some? {
      JobStepMovesFlag(s, e);
      HoldersAfterUpdate(s.jobs, e.job, Next(s, e).value.jobs[e.job]);
      if Holds(s.jobs[e.job]) {
        HolderMeansInProgress(s, e.job);
      }
    } else {
      HoldersAfterSpawn(s.jobs, Job(if e.Spawn? then e.kind else Scheduled, Waiting));
    }
  }

  /** A job's step changes that job alone, and the flag with what the job holds. */
  lemma JobStepMovesFlag(s: State, e: Event)
    requires JobOf(e).Some? && Next(s, e).Some?
    ensures var t := Next(s, e).value;
      && e.job < |s.jobs| == |t.jobs| && t.jobs == s.jobs[e.job := t.jobs[e.job]]
      && (Holds(t.jobs[e.job]) && !Holds(s.jobs[e.job]) ==> !s.inProgress && t.inProgress)
      && (Holds(s.jobs[e.job]) && !Holds(t.jobs[e.job]) ==> !t.inProgress)
      && (Holds(s.jobs[e.job]) == Holds(t.jobs[e.job]) ==> t.inProgress == s.inProgress)
  {
  }

  // ------------------------------------------------------------------
  // The retry slot
  // ------------------------------------------------------------------

  /** Whoever claimed last is asleep while the retry is pending. */
  ghost predicate LastClaimerSleeps(s: State) {
    s.retryPending ==> s.sleepers != [] && s.sleepers[|s.sleepers| - 1].asleep
  }

  ghost predicate InTime(s: State) {
    forall k :: 0 <= k < |s.sleepers| ==>
      && s.sleepers[k].claimedAt <= s.now
      && (s.sleepers[k].asleep ==> s.now <= s.sleepers[k].claimedAt + RETRY_INTERVAL)
  }

  ghost predicate Conserved(s: State) {
    && s.claims == s.fires + s.cancels + (if s.retryPending then 1 else 0)
    && |s.sleepers| == s.claims
  }

  ghost predicate RetryInv(s: State) {
    Conserved(s) && LastClaimerSleeps(s) && InTime(s)
  }

  lemma StepKeepsRetry(s: State, e: Event)
    requires RetryInv(s) && Next(s, e).Some?
    ensures RetryInv(Next(s, e).value)
  {
  }

  // ------------------------------------------------------------------
  // The project shown as active
  // ------------------------------------------------------------------

  /** Where a job can be whose project is shown: running, between giving back the flag and clearing, or crashed. */
  predicate MayBeShown(j: Job) {
    || (Holds(j) && j != Job(Requested, Releasing))
    || j == Job(Scheduled, Clearing)
    || j.stage == Crashed
  }

  /** The project shown is the one that some job has set and none has cleared since. */
  predicate ShownInv(s: State) {
    && (s.activeProject.Some? <==> s.owner.Some?)
    && (s.owner.Some? ==> s.owner.value < |s.jobs| && MayBeShown(s.jobs[s.owner.value]))
  }

  lemma StepKeepsShown(s: State, e: Event)
    requires ShownInv(s) && Next(s, e).Some?
    ensures ShownInv(Next(s, e).value)
  {
  }

  // ------------------------------------------------------------------
  // Whole runs
  // ------------------------------------------------------------------

  ghost predicate Inv(s: State) {
    Exclusive(s) && RetryInv(s) && ShownInv(s)
  }

  lemma {:induction false} RunKeepsInv(s: State, events: seq<Event>)
    requires Inv(s) && Run(s, events).Some?
    ensures Inv(Run(s, events).value)
  {
    if events != [] {
      RunKeepsInv(s, events[..|events| - 1]);
      var t := Run(s, events[..|events| - 1]).value;
      StepKeepsExclusive(t, events[|events| - 1]);
      StepKeepsRetry(t, events[|events| - 1]);
      StepKeepsShown(t, events[|events| - 1]);
    }
  }

  /**
   * In every reachable state the flag is up exactly when some job holds it, and
   * no two jobs are ever inside the backup cycle.
   */
  lemma MutualExclusion(events: seq<Event>)
    requires Run(INIT, events).Some?
    ensures var s := Run(INIT, events).value;
      && Holders(s.jobs) == (if s.inProgress then 1 else 0)
      && (s.inProgress <==> exists i :: 0 <= i < |s.jobs| && Holds(s.jobs[i]))
      && forall i, k :: 0 <= i < |s.jobs| && 0 <= k < |s.jobs| && Holds(s.jobs[i]) && Holds(s.jobs[k]) ==> i == k
  {
    RunKeepsInv(INIT, events);
    var s := Run(INIT, events).value;
    forall i, k | 0 <= i < |s.jobs| && 0 <= k < |s.jobs| && Holds(s.jobs[i]) && Holds(s.jobs[k])
      ensures s.inProgress && i == k
    {
      HoldersAreCounted(s.jobs, i, k);
    }
    if s.inProgress {
      var i := SomeHolder(s.jobs);
    }
  }

  /** An idle daemon always lets the next job in, and a busy one always refuses it. */
  lemma AcquireIff(events: seq<Event>, i: nat)
    requires Run(INIT, events).Some? && IsAt(Run(INIT, events).value, i, Waiting)
    ensures var s := Run(INIT, events).value;
      var t := Next(s, Acquire(i));
      t.Some? && (t.value.jobs[i].stage == Running <==> forall k :: 0 <= k < |s.jobs| ==> !Holds(s.jobs[k]))
  {
    MutualExclusion(events);
  }

  /**
   * Every claim of the retry slot is matched by one retry that fired, one that was
   * cancelled, or the one that is pending; while one is pending, its claimer is
   * asleep and wakes within the retry interval of its claim.
   */
  lemma RetryConservation(events: seq<Event>)
    requires Run(INIT, events).Some?
    ensures var s := Run(INIT, events).value;
      && s.claims == s.fires + s.cancels + (if s.retryPending then 1 else 0)
      && (s.retryPending ==>
            && s.sleepers != []
            && var last := s.sleepers[|s.sleepers| - 1];
               last.asleep && last.claimedAt <= s.now <= last.claimedAt + RETRY_INTERVAL)
  {
    RunKeepsInv(INIT, events);
  }

  function CountOf(jobs: seq<Job>, kind: Kind): nat {
    if jobs == [] then 0
    else CountOf(jobs[..|jobs| - 1], kind) + if jobs[|jobs| - 1].kind == kind then 1 else 0
  }

  /** How many jobs of a kind the events start from outside: ticks and requests. */
  function Spawned(events: seq<Event>, kind: Kind): nat {
    if events == [] then 0
    else Spawned(events[..|events| - 1], kind) + if events[|events| - 1] == Spawn(kind) then 1 else 0
  }

  lemma {:induction false} CountAfterUpdate(jobs: seq<Job>, i: nat, j: Job, kind: Kind)
    requires i < |jobs| && j.kind == jobs[i].kind
    ensures CountOf(jobs[i := j], kind) == CountOf(jobs, kind)
  {
    var init := jobs[..|jobs| - 1];
    if i == |jobs| - 1 {
      assert jobs[i := j][..|jobs| - 1] == init;
    } else {
      assert jobs[i := j][..|jobs| - 1] == init[i := j];
      CountAfterUpdate(init, i, j, kind);
    }
  }

  lemma CountAfterOneMore(jobs: seq<Job>, j: Job, kind: Kind)
    ensures CountOf(jobs + [j], kind) == CountOf(jobs, kind) + if j.kind == kind then 1 else 0
  {
    assert (jobs + [j])[..|jobs|] == jobs;
  }

  lemma JobStepFiresNone(s: State, e: Event)
    requires JobOf(e).Some? && Next(s, e).Some?
    ensures e.job < |s.jobs| == |Next(s, e).value.jobs|
    ensures Next(s, e).value.jobs[e.job].kind == s.jobs[e.job].kind && Next(s, e).value.fires == s.fires
  {
  }

  /** A step starts one job where it says so or fires a retry, and no other. */
  lemma StepCounts(s: State, e: Event, kind: Kind)
    requires Next(s, e).Some?
    ensures var t := Next(s, e).value;
      && t.fires >= s.fires
      && CountOf(t.jobs, kind) ==
        CountOf(s.jobs, kind) + (if e == Spawn(kind) then 1 else 0) + if kind == Scheduled then t.fires - s.fires else 0
  {
    var t := Next(s, e).value;
    if JobOf(e).Some? {
      JobStepMovesFlag(s, e);
      JobStepFiresNone(s, e);
      CountAfterUpdate(s.jobs, e.job, t.jobs[e.job], kind);
    } else if e.Spawn? || t.fires != s.fires {
      CountAfterOneMore(s.jobs, Job(if e.Spawn? then e.kind else Scheduled, Waiting), kind);
    }
  }

  /**
   * Over every run, the scheduled jobs are those of the ticks and one for each retry
   * that fired; the requested ones are those asked for.
   */
  lemma {:induction false} EveryRetryIsAJob(events: seq<Event>)
    requires Run(INIT, events).Some?
    ensures var s := Run(INIT, events).value;
      && CountOf(s.jobs, Scheduled) == Spawned(events, Scheduled) + s.fires
      && CountOf(s.jobs, Requested) == Spawned(events, Requested)
  {
    if events != [] {
      var init, e := events[..|events| - 1], events[|events| - 1];
      EveryRetryIsAJob(init);
      StepCounts(Run(INIT, init).value, e, Scheduled);
      StepCounts(Run(INIT, init).value, e, Requested);
    }
  }

  lemma LastMoved(jobs: seq<Job>, stage: Stage, stage': Stage)
    ensures (jobs + [Job(Scheduled, stage)])[|jobs| := Job(Scheduled, stage')] == jobs + [Job(Scheduled, stage')]
  {
  }

  /**
   * When a sleeper wakes to a pending retry, one job more waits; from an idle daemon it
   * gets in and runs to the end of its backup, with either result.
   */
  lemma RetryBacksUp(s: State, k: nat, ok: bool) returns (more: seq<Event>)
    requires Next(s, Wake(k)).Some? && s.retryPending
    ensures var t := Next(s, Wake(k)).value;
      && |t.jobs| == |s.jobs| + 1 && t.jobs[..|s.jobs|] == s.jobs && IsAt(t, |s.jobs|, Waiting)
      && (!t.inProgress ==>
            && Run(t, more).Some? && |more| == 2
            && Run(t, more[..1]) == Some(t.(inProgress := true, jobs := s.jobs + [Job(Scheduled, Running)]))
            && IsAt(Run(t, more).value, |s.jobs|, if ok then Succeeded else Failed))
  {
    var t, i := Next(s, Wake(k)).value, |s.jobs|;
    more := [Acquire(i), Finish(i, ok)];
    assert more[..1] == [Acquire(i)] && more[..1][..0] == [];
    if !t.inProgress {
      LastMoved(s.jobs, Waiting, Running);
      assert Run(t, more[..1]) == Next(t, Acquire(i));
      assert Run(t, more) == Next(Run(t, more[..1]).value, Finish(i, ok));
    }
  }

  /** Claims are never forgotten and keep their time, and no sleeper falls asleep again. */
  ghost predicate Extends(s: State, t: State) {
    && s.now <= t.now && |s.sleepers| <= |t.sleepers|
    && s.fires + s.cancels <= t.fires + t.cancels
    && forall k :: 0 <= k < |s.sleepers| ==>
        && s.sleepers[k].claimedAt == t.sleepers[k].claimedAt
        && (t.sleepers[k].asleep ==> s.sleepers[k].asleep)
  }

  lemma StepExtends(s: State, e: Event)
    requires Next(s, e).Some?
    ensures Extends(s, Next(s, e).value)
  {
  }

  lemma {:induction false} RunExtends(s: State, events: seq<Event>)
    requires Run(s, events).Some?
    ensures Extends(s, Run(s, events).value)
  {
    if events != [] {
      RunExtends(s, events[..|events| - 1]);
      StepExtends(Run(s, events[..|events| - 1]).value, events[|events| - 1]);
    }
  }

  /**
   * A pending retry is fired or cancelled within one retry interval of its claim:
   * once that has passed, all claims made until then are settled.
   */
  lemma PendingIsSettled(s: State, events: seq<Event>)
    requires Inv(s) && s.retryPending && Run(s, events).Some?
    requires Run(s, events).value.now > s.sleepers[|s.sleepers| - 1].claimedAt + 3600
    ensures Run(s, events).value.fires + Run(s, events).value.cancels >= s.claims
  {
    RunKeepsInv(s, events);
    RunExtends(s, events);
    SettledByNow(s, Run(s, events).value);
  }

  lemma SettledByNow(s: State, t: State)
    requires RetryInv(s) && s.retryPending && RetryInv(t) && Extends(s, t)
    requires t.now > s.sleepers[|s.sleepers| - 1].claimedAt + RETRY_INTERVAL
    ensures t.fires + t.cancels >= s.claims
  {
  }

  function LastClaim(s: State): nat
    requires s.sleepers != []
  {
    s.sleepers[|s.sleepers| - 1].claimedAt
  }

  /** A retry fires at the end of the interval of the sleeper that fires it, and never later than its claim asks for. */
  lemma RetryIsNeverLate(events: seq<Event>, k: nat)
    requires Run(INIT, events).Some?
    requires var s := Run(INIT, events).value;
      s.retryPending && k < |s.sleepers| && Next(s, Wake(k)).Some?
    ensures var s := Run(INIT, events).value;
      && Next(s, Wake(k)).value.fires == s.fires + 1
      && s.now == s.sleepers[k].claimedAt + 3600 <= LastClaim(s) + 3600
  {
    RunKeepsInv(INIT, events);
  }

  /** After `events`, with the same claim pending, sleeper `k` can fire it less than a full interval after the claim. */
  ghost predicate FiresEarly(s: State, events: seq<Event>, k: nat)
    requires s.sleepers != []
  {
    && Run(s, events).Some?
    && var t := Run(s, events).value;
       && t.retryPending && t.claims == s.claims
       && t.now < LastClaim(s) + RETRY_INTERVAL
       && Next(t, Wake(k)).Some?
  }

  /** The sleeper of an earlier claim, which should have nothing to do any more. */
  ghost predicate IsStale(s: State, k: nat)
    requires s.sleepers != []
  {
    k < |s.sleepers| && s.sleepers[k].asleep && s.sleepers[k].claimedAt < LastClaim(s)
  }

  /** The stale sleeper whose time comes first. */
  lemma {:induction false} FirstAsleep(sleepers: seq<Sleeper>, k: nat) returns (first: nat)
    requires k < |sleepers| && sleepers[k].asleep
    ensures first < |sleepers| && sleepers[first].asleep
    ensures forall i :: 0 <= i < |sleepers| && sleepers[i].asleep ==> sleepers[first].claimedAt <= sleepers[i].claimedAt
  {
    var init, last := sleepers[..|sleepers| - 1], |sleepers| - 1;
    if i :| 0 <= i < last && sleepers[i].asleep {
      first := FirstAsleep(init, i);
      assert forall j :: 0 <= j < last ==> sleepers[j] == init[j];
      if sleepers[last].asleep && sleepers[last].claimedAt < sleepers[first].claimedAt {
        first := last;
      }
    } else {
      first := k;
    }
  }

  lemma StaleCanFire(s: State, k: nat) returns (more: seq<Event>, first: nat)
    requires RetryInv(s) && s.retryPending && s.sleepers != [] && IsStale(s, k)
    ensures FiresEarly(s, more, first)
  {
    first := FirstAsleep(s.sleepers, k);
    var wait := Tick(s.sleepers[first].claimedAt + RETRY_INTERVAL - s.now);
    more := [wait];
    assert more[..0] == [] && Run(s, more) == Next(s, wait);
  }

  lemma EarlyIsStale(s: State, more: seq<Event>, k: nat)
    requires Inv(s) && s.sleepers != [] && FiresEarly(s, more, k)
    ensures IsStale(s, k)
  {
    RunKeepsInv(s, more);
    RunExtends(s, more);
  }

  /** A pending retry can fire early in some continuation exactly if the sleeper of an earlier claim is still asleep. */
  lemma FiresEarlyIff(events: seq<Event>)
    requires Run(INIT, events).Some? && Run(INIT, events).value.retryPending
    ensures var s := Run(INIT, events).value;
      && s.sleepers != []
      && ((exists more, k :: FiresEarly(s, more, k)) <==> exists k :: IsStale(s, k))
  {
    RunKeepsInv(INIT, events);
    var s := Run(INIT, events).value;
    if k :| IsStale(s, k) {
      var more, first := StaleCanFire(s, k);
    }
    if more, k :| FiresEarly(s, more, k) {
      EarlyIsStale(s, more, k);
    }
  }

  /** A job has set the project that is shown and holds the flag. */
  predicate ShowsRunning(s: State, k: nat) {
    k < |s.jobs| && Holds(s.jobs[k]) && s.activeProject.Some? && s.owner == Some(k)
  }

  /**
   * A project is shown in exactly the states in which some job has set it and none
   * has cleared it since, and that job is running, has given back the flag but not
   * cleared yet, or has panicked.
   */
  lemma ShownProjectHasOwner(events: seq<Event>)
    requires Run(INIT, events).Some? && Run(INIT, events).value.activeProject.Some?
    ensures var s := Run(INIT, events).value;
      && s.owner.Some? && s.owner.value < |s.jobs|
      && (|| ShowsRunning(s, s.owner.value)
          || s.jobs[s.owner.value] == Job(Scheduled, Clearing)
          || s.jobs[s.owner.value].stage == Crashed)
  {
    RunKeepsInv(INIT, events);
  }

  /**
   * The project of a running job goes away, other than by a step of its own, exactly
   * when another job clears; that one is a scheduled job which has given back the flag.
   */
  lemma RunningLosesProjectIff(events: seq<Event>, e: Event, k: nat)
    requires Run(INIT, events).Some? && Next(Run(INIT, events).value, e).Some?
    requires ShowsRunning(Run(INIT, events).value, k)
    requires JobOf(e) != Some(k)
    ensures var s := Run(INIT, events).value;
      && (!ShowsRunning(Next(s, e).value, k) <==> e.ClearProject?)
      && (e.ClearProject? ==> s.jobs[e.job].kind == Scheduled && Holds(Next(s, e).value.jobs[k]))
  {
    RunKeepsInv(INIT, events);
    OthersStep(Run(INIT, events).value, e, k);
  }

  lemma OthersStep(s: State, e: Event, k: nat)
    requires Exclusive(s) && ShowsRunning(s, k) && Next(s, e).Some? && JobOf(e) != Some(k)
    ensures !ShowsRunning(Next(s, e).value, k) <==> e.ClearProject?
    ensures Holds(Next(s, e).value.jobs[k])
    ensures e.ClearProject? ==> s.jobs[e.job].kind == Scheduled
  {
    if JobOf(e).Some? && Holds(s.jobs[e.job]) {
      HoldersAreCounted(s.jobs, e.job, k);
    }
  }

  /** A scheduled job that has given back the flag and not cleared the project yet. */
  predicate IsClearing(s: State, i: nat) {
    i < |s.jobs| && s.jobs[i] == Job(Scheduled, Clearing)
  }

  /** No other job is about to clear the project. */
  ghost predicate NoneClearing(s: State, k: nat) {
    forall i :: IsClearing(s, i) ==> i == k
  }

  /** Job `k` has given back the flag, or panicked. */
  predicate IsPast(s: State, k: nat) {
    k < |s.jobs| && !Holds(s.jobs[k]) && s.jobs[k].stage != Waiting
  }

  /** While job `k` holds the flag, no other job gets to the point of clearing. */
  lemma NoNewClearing(s: State, e: Event, k: nat)
    requires Exclusive(s) && ShowsRunning(s, k) && NoneClearing(s, k) && Next(s, e).Some? && JobOf(e) != Some(k)
    ensures NoneClearing(Next(s, e).value, k)
  {
    var t := Next(s, e).value;
    if JobOf(e).Some? {
      JobStepMovesFlag(s, e);
      if Holds(s.jobs[e.job]) {
        HoldersAreCounted(s.jobs, e.job, k);
      }
      NotToClearing(s, e);
      forall i | IsClearing(t, i) ensures i == k {
        assert IsClearing(s, i);
      }
    } else {
      forall i | IsClearing(t, i) ensures i == k {
        assert IsClearing(s, i);
      }
    }
  }

  /** Only a job that holds the flag gets to the point of clearing. */
  lemma NotToClearing(s: State, e: Event)
    requires JobOf(e).Some? && Next(s, e).Some? && !Holds(s.jobs[e.job])
    ensures !IsClearing(Next(s, e).value, e.job)
  {
  }

  /** A step of the job that shows its project, other than clearing it. */
  lemma OwnStep(s: State, e: Event, k: nat)
    requires ShowsRunning(s, k) && NoneClearing(s, k) && Next(s, e).Some?
    requires JobOf(e) == Some(k) && e != ClearProject(k)
    ensures var t := Next(s, e).value; IsPast(t, k) || (ShowsRunning(t, k) && NoneClearing(t, k))
  {
    var t := Next(s, e).value;
    forall i | IsClearing(t, i) ensures i == k {
      if i != k {
        assert IsClearing(s, i);
      }
    }
  }

  lemma StaysPast(s: State, e: Event, k: nat)
    requires IsPast(s, k) && Next(s, e).Some?
    ensures IsPast(Next(s, e).value, k)
  {
  }

  lemma {:induction false} KeepsProject(s: State, more: seq<Event>, k: nat)
    requires Inv(s) && ShowsRunning(s, k) && NoneClearing(s, k)
    requires Run(s, more).Some? && ClearProject(k) !in more
    ensures var t := Run(s, more).value; IsPast(t, k) || (ShowsRunning(t, k) && NoneClearing(t, k))
  {
    if more != [] {
      var init, e := more[..|more| - 1], more[|more| - 1];
      KeepsProject(s, init, k);
      RunKeepsInv(s, init);
      var t := Run(s, init).value;
      if IsPast(t, k) {
        StaysPast(t, e, k);
      } else if JobOf(e) == Some(k) {
        OwnStep(t, e, k);
      } else {
        NoNewClearing(t, e, k);
        OthersStep(t, e, k);
        assert e.ClearProject? ==> !IsClearing(t, e.job);
      }
    }
  }

  /** After `more`, in which job `k` does not clear, it still holds the flag but its project is gone. */
  ghost predicate LosesProject(s: State, more: seq<Event>, k: nat) {
    && Run(s, more).Some? && ClearProject(k) !in more
    && var t := Run(s, more).value;
       k < |t.jobs| && Holds(t.jobs[k]) && !ShowsRunning(t, k)
  }

  /**
   * A running job can lose its project to another one, while it still holds the flag,
   * exactly if some other, scheduled job has given back the flag and not cleared yet.
   */
  lemma MayLoseProjectIff(events: seq<Event>, k: nat)
    requires Run(INIT, events).Some? && ShowsRunning(Run(INIT, events).value, k)
    ensures var s := Run(INIT, events).value;
      (exists more :: LosesProject(s, more, k)) <==> exists i :: i != k && IsClearing(s, i)
  {
    RunKeepsInv(INIT, events);
    var s := Run(INIT, events).value;
    if i :| i != k && IsClearing(s, i) {
      var more := [ClearProject(i)];
      assert more[..0] == [] && Run(s, more) == Next(s, ClearProject(i));
      assert LosesProject(s, more, k);
    } else {
      forall more | Run(s, more).Some? && ClearProject(k) !in more ensures !LosesProject(s, more, k) {
        KeepsProject(s, more, k);
      }
    }
  }

  // ------------------------------------------------------------------
  // Time never stands still, and sleepers wake once
  // ------------------------------------------------------------------

  function AsleepCount(sleepers: seq<Sleeper>): nat {
    if sleepers == [] then 0
    else AsleepCount(sleepers[..|sleepers| - 1]) + if sleepers[|sleepers| - 1].asleep then 1 else 0
  }

  lemma {:induction false} AwakeIsOneLess(sleepers: seq<Sleeper>, k: nat)
    requires k < |sleepers| && sleepers[k].asleep
    ensures AsleepCount(sleepers[k := sleepers[k].(asleep := false)]) + 1 == AsleepCount(sleepers)
  {
    var last, woken := |sleepers| - 1, sleepers[k := sleepers[k].(asleep := false)];
    if k == last {
      assert woken[..last] == sleepers[..last];
    } else {
      assert woken[..last] == sleepers[..last][k := sleepers[k].(asleep := false)];
      AwakeIsOneLess(sleepers[..last], k);
    }
  }

  lemma OneMore(s: State, events: seq<Event>, t: State, e: Event) returns (more: seq<Event>, u: State)
    requires Run(s, events) == Some(t) && Next(t, e).Some?
    ensures more == events + [e] && u == Next(t, e).value && Run(s, more) == Some(u)
  {
    more, u := events + [e], Next(t, e).value;
    assert more[..|events|] == events;
  }

  /** Time passes until the sleeper whose time comes first wakes. */
  lemma UpToWake(s: State, events: seq<Event>, t: State, first: nat) returns (more: seq<Event>, u: State)
    requires Run(s, events) == Some(t) && RetryInv(t) && first < |t.sleepers| && t.sleepers[first].asleep
    requires forall i :: 0 <= i < |t.sleepers| && t.sleepers[i].asleep ==>
      t.sleepers[first].claimedAt <= t.sleepers[i].claimedAt
    ensures Run(s, more) == Some(u) && RetryInv(u) && AsleepCount(u.sleepers) < AsleepCount(t.sleepers)
    ensures u.now == t.sleepers[first].claimedAt + RETRY_INTERVAL
    ensures forall e :: e in more ==> e in events || e.Wake? || e.Tick?
  {
    var wait := Tick(t.sleepers[first].claimedAt + RETRY_INTERVAL - t.now);
    more, u := OneMore(s, events, t, wait);
    StepKeepsRetry(t, wait);
    StepKeepsRetry(u, Wake(first));
    AwakeIsOneLess(u.sleepers, first);
    more, u := OneMore(s, more, u, Wake(first));
  }

  lemma {:induction false} TimeGoesOn(s: State, events: seq<Event>, t: State, seconds: nat)
    returns (more: seq<Event>, u: State)
    requires Run(s, events) == Some(t) && RetryInv(t)
    ensures Run(s, more) == Some(u) && u.now == t.now + seconds
    ensures forall e :: e in more ==> e in events || e.Wake? || e.Tick?
    decreases AsleepCount(t.sleepers)
  {
    if k: nat :| k < |t.sleepers| && t.sleepers[k].asleep {
      var first := FirstAsleep(t.sleepers, k);
      var wait := t.sleepers[first].claimedAt + RETRY_INTERVAL - t.now;
      if seconds <= wait {
        more, u := OneMore(s, events, t, Tick(seconds));
      } else {
        more, u := UpToWake(s, events, t, first);
        more, u := TimeGoesOn(s, more, u, seconds - wait);
      }
    } else {
      more, u := OneMore(s, events, t, Tick(seconds));
    }
  }

  /** In every reachable state any time can pass, sleepers waking meanwhile. */
  lemma TimeCanPass(events: seq<Event>, seconds: nat) returns (more: seq<Event>, t: State)
    requires Run(INIT, events).Some?
    ensures Run(Run(INIT, events).value, more) == Some(t) && t.now == Run(INIT, events).value.now + seconds
    ensures forall e :: e in more ==> e.Wake? || e.Tick?
  {
    RunKeepsInv(INIT, events);
    more, t := TimeGoesOn(Run(INIT, events).value, [], Run(INIT, events).value, seconds);
  }

  /** A sleeper that has woken does so in no continuation again. */
  lemma WakesOnce(s: State, k: nat, more: seq<Event>)
    requires Next(s, Wake(k)).Some? && Run(Next(s, Wake(k)).value, more).Some?
    ensures Next(Run(Next(s, Wake(k)).value, more).value, Wake(k)).None?
  {
    RunExtends(Next(s, Wake(k)).value, more);
  }

  // ------------------------------------------------------------------
  // Every job can finish
  // ------------------------------------------------------------------

  /** How many steps a job is away from its end. */
  function Remaining(j: Job): nat {
    match j.stage
    case Waiting => 5
    case Running => 4
    case Failed => 3
    case Succeeded => 3
    case Releasing => if j.kind == Scheduled then 2 else 1
    case Clearing => if j.kind == Scheduled then 1 else 2
    case Done => 0
    case Crashed => 0
  }

  /** Only scheduled jobs see to the retry. */
  ghost predicate RetriersInv(s: State) {
    forall i :: 0 <= i < |s.jobs| && s.jobs[i].stage in {Failed, Succeeded} ==> s.jobs[i].kind == Scheduled
  }

  lemma {:induction false} RunKeepsRetriers(events: seq<Event>)
    requires Run(INIT, events).Some?
    ensures RetriersInv(Run(INIT, events).value)
  {
    if events != [] {
      RunKeepsRetriers(events[..|events| - 1]);
      StepKeepsRetriers(Run(INIT, events[..|events| - 1]).value, events[|events| - 1]);
    }
  }

  lemma StepKeepsRetriers(s: State, e: Event)
    requires RetriersInv(s) && Next(s, e).Some?
    ensures RetriersInv(Next(s, e).value)
  {
  }

  /** The step by which a job goes on. */
  function OwnNext(s: State, i: nat, ok: bool): Event
    requires i < |s.jobs|
  {
    match s.jobs[i].stage
    case Waiting => Acquire(i)
    case Running => Finish(i, ok)
    case Failed => ClaimRetry(i)
    case Succeeded => CancelRetry(i)
    case Releasing => Release(i)
    case Clearing => ClearProject(i)
    case Done => Tick(0)
    case Crashed => Tick(0)
  }

  lemma OwnNextIsCloser(s: State, i: nat, ok: bool)
    requires RetriersInv(s) && i < |s.jobs| && Remaining(s.jobs[i]) > 0
    ensures JobOf(OwnNext(s, i, ok)) == Some(i) && !OwnNext(s, i, ok).Panic? && Next(s, OwnNext(s, i, ok)).Some?
    ensures var t := Next(s, OwnNext(s, i, ok)).value;
      |t.jobs| == |s.jobs| && Remaining(t.jobs[i]) < Remaining(s.jobs[i])
  {
  }

  /** From `s` to `t` by steps of job `i` only, without a panic. */
  ghost predicate Advances(s: State, events: seq<Event>, t: State, i: nat) {
    && Run(s, events) == Some(t) && (forall e :: e in events ==> JobOf(e) == Some(i) && !e.Panic?)
    && |t.jobs| == |s.jobs| && i < |s.jobs|
    && (forall k :: 0 <= k < |s.jobs| && k != i ==> t.jobs[k] == s.jobs[k])
  }

  /** Where it has come: it still holds the flag, or has left it down. */
  ghost predicate HasCome(s: State, t: State, i: nat) {
    && i < |s.jobs| == |t.jobs| && t.jobs[i].stage != Crashed
    && (Holds(s.jobs[i]) ==> Holds(t.jobs[i]) || (!t.inProgress && IsPast(t, i)))
  }

  lemma AdvancesOn(s: State, events: seq<Event>, t: State, i: nat, e: Event) returns (more: seq<Event>, u: State)
    requires Advances(s, events, t, i) && JobOf(e) == Some(i) && !e.Panic? && Next(t, e).Some?
    ensures more == events + [e] && u == Next(t, e).value && Advances(s, more, u, i)
  {
    more, u := events + [e], Next(t, e).value;
    assert more[..|events|] == events;
    JobStepMovesFlag(t, e);
  }

  lemma ComesOn(s: State, t: State, i: nat, e: Event)
    requires HasCome(s, t, i) && JobOf(e) == Some(i) && !e.Panic? && Next(t, e).Some?
    ensures HasCome(s, Next(t, e).value, i)
  {
    JobStepMovesFlag(t, e);
    if IsPast(t, i) {
      StaysPast(t, e, i);
    }
  }

  lemma {:induction false} FinishFrom(s: State, events: seq<Event>, t: State, i: nat, ok: bool)
    returns (more: seq<Event>, u: State)
    requires Advances(s, events, t, i) && HasCome(s, t, i) && RetriersInv(t)
    ensures Advances(s, more, u, i) && HasCome(s, u, i) && IsAt(u, i, Done)
    ensures |more| <= |events| + Remaining(t.jobs[i])
    decreases Remaining(t.jobs[i])
  {
    more, u := events, t;
    if Remaining(t.jobs[i]) > 0 {
      var e := OwnNext(t, i, ok);
      OwnNextIsCloser(t, i, ok);
      ComesOn(s, t, i, e);
      StepKeepsRetriers(t, e);
      more, u := AdvancesOn(s, events, t, i, e);
      more, u := FinishFrom(s, more, u, i, ok);
    }
  }

  /**
   * No job is ever stuck: whatever the others are doing, and whatever its backup comes
   * to, at most five steps of its own end it, and with it, its hold of the flag.
   */
  lemma EveryJobCanFinish(events: seq<Event>, i: nat, ok: bool) returns (more: seq<Event>, t: State)
    requires Run(INIT, events).Some? && i < |Run(INIT, events).value.jobs|
    requires Run(INIT, events).value.jobs[i].stage != Crashed
    ensures |more| <= 5 && Advances(Run(INIT, events).value, more, t, i) && IsAt(t, i, Done)
    ensures Holds(Run(INIT, events).value.jobs[i]) ==> !t.inProgress
  {
    RunKeepsRetriers(events);
    var s := Run(INIT, events).value;
    more, t := FinishFrom(s, [], s, i, ok);
  }

  // ------------------------------------------------------------------
  // Runs that show what does not hold
  // ------------------------------------------------------------------

  lemma Then(events: seq<Event>, s: State, e: Event) returns (more: seq<Event>, t: State)
    requires Run(INIT, events) == Some(s) && Next(s, e).Some?
    ensures more == events + [e] && t == Next(s, e).value && Run(INIT, more) == Some(t)
  {
    more, t := events + [e], Next(s, e).value;
    assert more[..|more| - 1] == events;
  }

  /** A scheduled job from its tick to the end of its backup. */
  lemma UpToFinish(events: seq<Event>, s: State, ok: bool) returns (more: seq<Event>, t: State)
    requires Run(INIT, events) == Some(s) && !s.inProgress
    ensures Run(INIT, more) == Some(t)
    ensures t == s.(jobs := s.jobs + [Job(Scheduled, AfterCycle(Scheduled, ok))], inProgress := true)
  {
    var i := |s.jobs|;
    more, t := Then(events, s, Spawn(Scheduled));
    more, t := Then(more, t, Acquire(i));
    more, t := Then(more, t, Finish(i, ok));
  }

  /** The last job sees to the retry. */
  lemma UpToRelease(events: seq<Event>, s: State, i: nat, ok: bool) returns (more: seq<Event>, t: State)
    requires Run(INIT, events) == Some(s) && i + 1 == |s.jobs|
    requires s.jobs[i] == Job(Scheduled, AfterCycle(Scheduled, ok))
    ensures Run(INIT, more) == Some(t) && t.now == s.now
    ensures t.jobs == s.jobs[..i] + [Job(Scheduled, Releasing)]
    ensures ok ==> !t.retryPending && t.sleepers == s.sleepers
    ensures !ok ==>
      t.retryPending && t.sleepers == if s.retryPending then s.sleepers else s.sleepers + [Sleeper(s.now, true)]
  {
    more, t := Then(events, s, if ok then CancelRetry(i) else ClaimRetry(i));
  }

  /** A scheduled job from its tick until it is about to clear the project. */
  lemma UpToClearing(events: seq<Event>, s: State, ok: bool) returns (more: seq<Event>, t: State)
    requires Run(INIT, events) == Some(s) && !s.inProgress
    ensures Run(INIT, more) == Some(t) && !t.inProgress && t.now == s.now
    ensures t.jobs == s.jobs + [Job(Scheduled, Clearing)]
    ensures ok ==> !t.retryPending && t.sleepers == s.sleepers
    ensures !ok ==>
      t.retryPending && t.sleepers == if s.retryPending then s.sleepers else s.sleepers + [Sleeper(s.now, true)]
  {
    var i := |s.jobs|;
    more, t := UpToFinish(events, s, ok);
    more, t := UpToRelease(more, t, i, ok);
    more, t := Then(more, t, Release(i));
  }

  /** A scheduled job from its tick to the end, from a state in which none is running. */
  lemma WholeJob(events: seq<Event>, s: State, ok: bool) returns (more: seq<Event>, t: State)
    requires Run(INIT, events) == Some(s) && !s.inProgress
    ensures Run(INIT, more) == Some(t) && !t.inProgress && t.now == s.now
    ensures ok ==> !t.retryPending && t.sleepers == s.sleepers
    ensures !ok ==>
      t.retryPending && t.sleepers == if s.retryPending then s.sleepers else s.sleepers + [Sleeper(s.now, true)]
  {
    more, t := UpToClearing(events, s, ok);
    more, t := Then(more, t, ClearProject(|s.jobs|));
  }

  /** A failure whose retry a success has cancelled, ten seconds before its sleeper wakes. */
  lemma CancelledRetry() returns (events: seq<Event>, s: State)
    ensures Run(INIT, events) == Some(s) && !s.inProgress && !s.retryPending
    ensures s.sleepers == [Sleeper(0, true)] && s.now == RETRY_INTERVAL - 10
  {
    events, s := WholeJob([], INIT, false);
    events, s := WholeJob(events, s, true);
    events, s := Then(events, s, Tick(RETRY_INTERVAL - 10));
  }

  /** Another failure, which claims the retry while the first sleeper is still asleep. */
  lemma ClaimedAgain() returns (events: seq<Event>, s: State)
    ensures Run(INIT, events) == Some(s) && s.retryPending && s.now == RETRY_INTERVAL - 10
    ensures s.sleepers == [Sleeper(0, true), Sleeper(RETRY_INTERVAL - 10, true)]
  {
    events, s := CancelledRetry();
    assert [Sleeper(0, true)] + [Sleeper(s.now, true)] == [Sleeper(0, true), Sleeper(s.now, true)];
    events, s := WholeJob(events, s, false);
  }

  /** The sleeper of a cancelled claim fires the retry of a later claim, ten seconds after it. */
  lemma StaleSleeperFiresEarly() returns (events: seq<Event>, k: nat)
    ensures Run(INIT, events).Some?
    ensures var s := Run(INIT, events).value;
      && s.retryPending && k < |s.sleepers| && Next(s, Wake(k)).Some?
      && Next(s, Wake(k)).value.fires == s.fires + 1
      && s.now == s.sleepers[|s.sleepers| - 1].claimedAt + 10
  {
    var s: State;
    k := 0;
    events, s := ClaimedAgain();
    events, s := Then(events, s, Tick(10));
  }

  /** A scheduled job `i` that has given back the flag clears the project of the running job `k`. */
  lemma RunningProjectIsCleared(project: string) returns (events: seq<Event>, i: nat, k: nat)
    ensures Run(INIT, events).Some? && i != k
    ensures var s := Run(INIT, events).value;
      && ShowsRunning(s, k) && s.activeProject == Some(project) && Next(s, ClearProject(i)).Some?
      && var t := Next(s, ClearProject(i)).value;
         Holds(t.jobs[k]) && t.inProgress && t.activeProject.None?
  {
    i, k := 0, 1;
    var s: State;
    events, s := UpToClearing([], INIT, true);
    events, s := Then(events, s, Spawn(Requested));
    events, s := Then(events, s, Acquire(k));
    events, s := Then(events, s, Begin(k, project));
  }
}
