/** The node observer: a generation counter over a work queue with one key (pkg/node_observer/status_informer.go). */
module Observer {
  /** How one reconciliation ended: done, failed (retry after the configured delay), or waiting for the broker. */
  datatype Outcome = Success | Failure | Wait(after: int)

  /** Where the worker is inside processNextWorkItem. */
  datatype Worker =
    | Idle
    | Fetched
    | Loaded(gen: nat)
    | Postponing
    | Reconciling(gen: nat, counted: nat, start: int)
    | Requeueing(delay: int)
    | Finishing
    | Exited

  /** A finished reconciliation: its generation, the events counted when it began, when it began, and its retry deadline
      if it has to be retried. */
  datatype Attempt = Attempt(gen: nat, counted: nat, start: int, success: bool, deadline: int)

  /** `dirty`, `queued` and `delayed` are the work queue's record of its one key; the key is in process unless the
      worker is idle or gone. */
  datatype State = State(
    requested: nat, completed: nat, attempted: nat, retryNotBefore: int,
    sending: nat,
    dirty: bool, queued: bool, delayed: set<int>,
    worker: Worker, now: int, stopped: bool,
    log: seq<Attempt>)

  datatype Step =
    | Count
    | Enqueue
    | Fetch
    | Load
    | Decide
    | Postpone
    | Reconcile(outcome: Outcome)
    | Requeue
    | Finish
    | Expire(at: int)
    | Coalesce(earlier: int, later: int)
    | Tick(time: int)
    | Stop

  // ---------------------------------------------------------------- the work queue

  predicate InProcess(s: State) {
    !s.worker.Idle? && !s.worker.Exited?
  }

  /** Add: one dirty mark per key; a key in process is queued again only when done. */
  function Add(s: State): State {
    if s.stopped || s.dirty then s else s.(dirty := true, queued := s.queued || !InProcess(s))
  }

  /** AddAfter: at once without a positive delay, otherwise uncancellable. */
  function AddAfter(s: State, delay: int): State {
    if s.stopped then s
    else if delay <= 0 then Add(s)
    else s.(delayed := s.delayed + {s.now + delay})
  }

  // ---------------------------------------------------------------- steps

  predicate Enabled(s: State, step: Step) {
    match step
    case Count => true
    case Enqueue => s.sending > 0
    case Fetch => s.worker.Idle? && s.queued
    case Load => s.worker.Fetched?
    case Decide => s.worker.Loaded?
    case Postpone => s.worker.Postponing?
    case Reconcile(outcome) => s.worker.Reconciling? && (outcome.Wait? ==> outcome.after > 0)
    case Requeue => s.worker.Requeueing?
    case Finish => s.worker.Finishing?
    case Expire(at) => at in s.delayed && at <= s.now
    case Coalesce(earlier, later) => earlier in s.delayed && later in s.delayed && earlier < later
    case Tick(time) => time >= s.now
    case Stop => true
  }

  function AfterDecide(s: State, g: nat): State {
    if g <= s.completed then s.(worker := Finishing)
    else if g == s.attempted && s.now < s.retryNotBefore then s.(worker := Postponing)
    else s.(worker := Reconciling(g, s.requested, s.now))
  }

  function AfterReconcile(s: State, g: nat, counted: nat, start: int, outcome: Outcome, retryDelay: int): State {
    if s.stopped then s.(worker := Exited)
    else if outcome.Success? then
      s.(attempted := g, retryNotBefore := 0, completed := g, worker := Finishing,
         log := s.log + [Attempt(g, counted, start, true, 0)])
    else
      var delay := if outcome.Wait? then outcome.after else retryDelay;
      s.(attempted := g, retryNotBefore := s.now + delay, worker := Requeueing(delay),
         log := s.log + [Attempt(g, counted, start, false, s.now + delay)])
  }

  function Next(s: State, step: Step, retryDelay: int): State
    requires Enabled(s, step)
  {
    match step
    case Count => s.(requested := s.requested + 1, sending := s.sending + 1)
    case Enqueue => Add(s.(sending := s.sending - 1))
    case Fetch => s.(queued := false, dirty := false, worker := Fetched)
    case Load => s.(worker := Loaded(s.requested))
    case Decide => AfterDecide(s, s.worker.gen)
    case Postpone => s.(worker := Requeueing(s.retryNotBefore - s.now))
    case Reconcile(outcome) => AfterReconcile(s, s.worker.gen, s.worker.counted, s.worker.start, outcome, retryDelay)
    case Requeue => AddAfter(s, s.worker.delay).(worker := Finishing)
    case Finish => s.(worker := Idle, queued := s.dirty)
    case Expire(at) => Add(s.(delayed := s.delayed - {at}))
    case Coalesce(earlier, later) => s.(delayed := s.delayed - {later})
    case Tick(time) => s.(now := time)
    case Stop => s.(stopped := true)
  }

  ghost predicate Runs(s: State, steps: seq<Step>, retryDelay: int)
    decreases |steps|
  {
    steps == [] || (Enabled(s, steps[0]) && Runs(Next(s, steps[0], retryDelay), steps[1..], retryDelay))
  }

  ghost function After(s: State, steps: seq<Step>, retryDelay: int): State
    requires Runs(s, steps, retryDelay)
    decreases |steps|
  {
    if steps == [] then s else After(Next(s, steps[0], retryDelay), steps[1..], retryDelay)
  }

  /** Nothing requested, nothing attempted; the clock is past the zero time. */
  ghost predicate Initial(s: State) {
    && s.requested == 0 && s.completed == 0 && s.attempted == 0 && s.retryNotBefore == 0 && s.sending == 0
    && !s.dirty && !s.queued && s.delayed == {} && s.worker == Idle && s.now >= 0 && !s.stopped && s.log == []
  }

  // ---------------------------------------------------------------- no lost event

  /** An event counted after the worker loaded generation `g` has its key marked again, or will have. */
  ghost predicate Noticed(s: State, g: nat) {
    g <= s.requested && (s.requested > g ==> s.sending > 0 || s.dirty)
  }

  ghost predicate WorkerOk(s: State) {
    match s.worker
    case Idle => s.dirty <==> s.queued
    case Exited => s.stopped
    case Loaded(g) => !s.queued && Noticed(s, g)
    case Reconciling(g, counted, start) => !s.queued && Noticed(s, g) && g <= counted && s.completed < g
    case _ => !s.queued
  }

  /** Unless the worker still has to decide, outstanding work is recorded somewhere. */
  ghost predicate Recorded(s: State) {
    s.requested > s.completed ==> s.sending > 0 || s.dirty || s.delayed != {}
  }

  ghost predicate Pending(s: State) {
    s.worker.Idle? || s.worker.Finishing? ==> Recorded(s)
  }

  ghost predicate QueueInv(s: State) {
    s.stopped || (WorkerOk(s) && Pending(s) && s.completed <= s.requested)
  }

  lemma EnqueueKeeps(s: State)
    requires QueueInv(s) && s.sending > 0
    ensures QueueInv(Add(s.(sending := s.sending - 1)))
  {}

  lemma ExpireKeeps(s: State, at: int)
    requires QueueInv(s) && at in s.delayed
    ensures QueueInv(Add(s.(delayed := s.delayed - {at})))
  {}

  lemma RequeueKeeps(s: State)
    requires QueueInv(s) && s.worker.Requeueing?
    ensures QueueInv(AddAfter(s, s.worker.delay).(worker := Finishing))
  {
    assert s.now + s.worker.delay in s.delayed + {s.now + s.worker.delay};
  }

  lemma QueueStep(s: State, step: Step, retryDelay: int)
    requires QueueInv(s) && Enabled(s, step)
    ensures QueueInv(Next(s, step, retryDelay))
  {
    match step
    case Enqueue => EnqueueKeeps(s);
    case Expire(at) => ExpireKeeps(s, at);
    case Requeue => RequeueKeeps(s);
    case Coalesce(earlier, later) => assert earlier in s.delayed - {later};
    case _ =>
  }

  lemma {:induction false} QueueRun(s: State, steps: seq<Step>, retryDelay: int)
    requires QueueInv(s) && Runs(s, steps, retryDelay)
    ensures QueueInv(After(s, steps, retryDelay))
    decreases |steps|
  {
    if steps != [] {
      QueueStep(s, steps[0], retryDelay);
      QueueRun(Next(s, steps[0], retryDelay), steps[1..], retryDelay);
    }
  }

  /** No lost event: while running, an event that is not reconciled leaves the key queued, in process or delayed, or its
      sender about to add it. */
  lemma NoLostEvent(s0: State, steps: seq<Step>, retryDelay: int)
    requires Initial(s0) && Runs(s0, steps, retryDelay)
    ensures var s := After(s0, steps, retryDelay);
            !s.stopped && s.requested > s.completed ==> s.queued || InProcess(s) || s.delayed != {} || s.sending > 0
  {
    QueueRun(s0, steps, retryDelay);
  }

  // ---------------------------------------------------------------- what the attempts say

  /** Every later attempt of a generation starts at or after the retry deadline of every earlier one; after success
      there is none. */
  ghost predicate Spaced(earlier: Attempt, gen: nat, start: int) {
    && earlier.gen <= gen
    && (earlier.gen == gen ==> !earlier.success && earlier.deadline <= start)
  }

  ghost predicate LogOk(log: seq<Attempt>) {
    && (forall k :: 0 <= k < |log| ==> log[k].gen <= log[k].counted && log[k].gen > 0)
    && (forall j, k :: 0 <= j < k < |log| ==> Spaced(log[j], log[k].gen, log[k].start))
  }

  ghost predicate HasSuccess(log: seq<Attempt>, gen: nat) {
    exists k :: 0 <= k < |log| && log[k].success && log[k].gen == gen
  }

  ghost predicate Recalled(s: State, a: Attempt) {
    && a.gen <= s.attempted
    && (a.success ==> a.gen <= s.completed)
    && (!a.success && a.gen == s.attempted > s.completed ==> a.deadline <= s.retryNotBefore)
  }

  /** The last attempt is what the worker remembers of it; earlier ones are no stricter. */
  ghost predicate Remembered(s: State) {
    && (forall k :: 0 <= k < |s.log| ==> Recalled(s, s.log[k]))
    && (s.completed > 0 ==> HasSuccess(s.log, s.completed))
    && s.completed <= s.attempted <= s.requested
  }

  ghost predicate WorkerLog(s: State) {
    match s.worker
    case Loaded(g) => s.attempted <= g <= s.requested
    case Reconciling(g, counted, start) =>
      && 0 < g <= counted <= s.requested && start <= s.now && s.attempted <= g && s.completed < g
      && forall k :: 0 <= k < |s.log| ==> Spaced(s.log[k], g, start)
    case _ => true
  }

  ghost predicate LogInv(s: State, retryDelay: int) {
    retryDelay > 0 && LogOk(s.log) && Remembered(s) && WorkerLog(s)
  }

  lemma DecideLog(s: State, retryDelay: int)
    requires LogInv(s, retryDelay) && s.worker.Loaded?
    ensures LogInv(AfterDecide(s, s.worker.gen), retryDelay)
  {
    var s' := AfterDecide(s, s.worker.gen);
    if s'.worker.Reconciling? {
      forall k | 0 <= k < |s.log| ensures Spaced(s.log[k], s.worker.gen, s.now) {
        assert Recalled(s, s.log[k]);
      }
    }
    LogFrame(s, s', retryDelay);
  }

  /** Steps that leave the attempts and what is remembered of them alone. */
  lemma LogFrame(s: State, s': State, retryDelay: int)
    requires LogInv(s, retryDelay) && WorkerLog(s') && s'.log == s.log && s'.requested >= s.requested
    requires s'.attempted == s.attempted && s'.completed == s.completed && s'.retryNotBefore == s.retryNotBefore
    ensures LogInv(s', retryDelay)
  {}

  /** Steps taken by others than the worker. */
  lemma BystanderLog(s: State, s': State, retryDelay: int)
    requires LogInv(s, retryDelay) && s'.worker == s.worker && s'.log == s.log && s'.requested >= s.requested
             && s'.now >= s.now
    requires s'.attempted == s.attempted && s'.completed == s.completed && s'.retryNotBefore == s.retryNotBefore
    ensures LogInv(s', retryDelay)
  {
    LogFrame(s, s', retryDelay);
  }

  lemma LogGrows(log: seq<Attempt>, a: Attempt)
    requires LogOk(log) && 0 < a.gen <= a.counted && forall k :: 0 <= k < |log| ==> Spaced(log[k], a.gen, a.start)
    ensures LogOk(log + [a])
  {}

  lemma SuccessKept(log: seq<Attempt>, a: Attempt, gen: nat)
    requires HasSuccess(log, gen) || (a.success && a.gen == gen)
    ensures HasSuccess(log + [a], gen)
  {
    var all := log + [a];
    if HasSuccess(log, gen) {
      var k :| 0 <= k < |log| && log[k].success && log[k].gen == gen;
      assert all[k] == log[k];
    }
    assert all[|log|] == a;
  }

  /** The attempt just made becomes the one that is remembered. */
  lemma RememberedGrows(s: State, s': State, a: Attempt)
    requires Remembered(s) && s'.log == s.log + [a] && s'.attempted == a.gen && s'.requested == s.requested
    requires s.attempted <= a.gen <= s.requested && s.completed < a.gen
    requires forall k :: 0 <= k < |s.log| ==> Spaced(s.log[k], a.gen, a.start)
    requires s'.completed == if a.success then a.gen else s.completed
    requires !a.success ==> s'.retryNotBefore == a.deadline && a.start <= a.deadline
    ensures Remembered(s')
  {
    if s'.completed > 0 { SuccessKept(s.log, a, s'.completed); }
    forall k | 0 <= k < |s'.log| ensures Recalled(s', s'.log[k]) {
      if k < |s.log| { assert s'.log[k] == s.log[k] && Recalled(s, s.log[k]) && Spaced(s.log[k], a.gen, a.start); }
    }
  }

  lemma SuccessLog(s: State, retryDelay: int)
    requires LogInv(s, retryDelay) && s.worker.Reconciling? && !s.stopped
    ensures LogInv(Next(s, Reconcile(Success), retryDelay), retryDelay)
  {
    var a := Attempt(s.worker.gen, s.worker.counted, s.worker.start, true, 0);
    LogGrows(s.log, a);
    RememberedGrows(s, Next(s, Reconcile(Success), retryDelay), a);
  }

  lemma RetryLog(s: State, outcome: Outcome, retryDelay: int)
    requires LogInv(s, retryDelay) && Enabled(s, Reconcile(outcome)) && !s.stopped && !outcome.Success?
    ensures LogInv(Next(s, Reconcile(outcome), retryDelay), retryDelay)
  {
    var after := if outcome.Wait? then outcome.after else retryDelay;
    var a := Attempt(s.worker.gen, s.worker.counted, s.worker.start, false, s.now + after);
    LogGrows(s.log, a);
    RememberedGrows(s, Next(s, Reconcile(outcome), retryDelay), a);
  }

  lemma ReconcileLog(s: State, outcome: Outcome, retryDelay: int)
    requires LogInv(s, retryDelay) && Enabled(s, Reconcile(outcome))
    ensures LogInv(Next(s, Reconcile(outcome), retryDelay), retryDelay)
  {
    if s.stopped {
      QuietLog(s, s.(worker := Exited), retryDelay);
    } else if outcome.Success? {
      SuccessLog(s, retryDelay);
    } else {
      RetryLog(s, outcome, retryDelay);
    }
  }

  /** Worker steps to a place that says nothing about attempts. */
  lemma QuietLog(s: State, s': State, retryDelay: int)
    requires LogInv(s, retryDelay) && !s'.worker.Loaded? && !s'.worker.Reconciling? && s'.log == s.log
             && s'.requested == s.requested
    requires s'.attempted == s.attempted && s'.completed == s.completed && s'.retryNotBefore == s.retryNotBefore
    ensures LogInv(s', retryDelay)
  {
    LogFrame(s, s', retryDelay);
  }

  lemma LoadLog(s: State, retryDelay: int)
    requires LogInv(s, retryDelay)
    ensures LogInv(s.(worker := Loaded(s.requested)), retryDelay)
  {
    LogFrame(s, s.(worker := Loaded(s.requested)), retryDelay);
  }

  lemma WorkerStepLog(s: State, step: Step, retryDelay: int)
    requires LogInv(s, retryDelay) && Enabled(s, step)
             && (step.Fetch? || step.Load? || step.Postpone? || step.Requeue? || step.Finish?)
    ensures LogInv(Next(s, step, retryDelay), retryDelay)
  {
    if step.Load? { LoadLog(s, retryDelay); } else { QuietLog(s, Next(s, step, retryDelay), retryDelay); }
  }

  lemma LogStep(s: State, step: Step, retryDelay: int)
    requires LogInv(s, retryDelay) && Enabled(s, step)
    ensures LogInv(Next(s, step, retryDelay), retryDelay)
  {
    if step.Decide? {
      DecideLog(s, retryDelay);
    } else if step.Reconcile? {
      ReconcileLog(s, step.outcome, retryDelay);
    } else if step.Fetch? || step.Load? || step.Postpone? || step.Requeue? || step.Finish? {
      WorkerStepLog(s, step, retryDelay);
    } else {
      BystanderLog(s, Next(s, step, retryDelay), retryDelay);
    }
  }

  lemma {:induction false} LogRun(s: State, steps: seq<Step>, retryDelay: int)
    requires LogInv(s, retryDelay) && Runs(s, steps, retryDelay)
    ensures LogInv(After(s, steps, retryDelay), retryDelay)
    decreases |steps|
  {
    if steps != [] {
      LogStep(s, steps[0], retryDelay);
      LogRun(Next(s, steps[0], retryDelay), steps[1..], retryDelay);
    }
  }

  /** The completed generation was reached by a successful reconciliation that began after its event had been
      counted. */
  lemma CompletedWasReconciled(s0: State, steps: seq<Step>, retryDelay: int)
    requires Initial(s0) && Runs(s0, steps, retryDelay) && retryDelay > 0
    ensures var s := After(s0, steps, retryDelay);
            s.completed > 0 ==>
              exists k :: 0 <= k < |s.log| && s.log[k].success && s.log[k].gen == s.completed
                && s.log[k].counted >= s.completed
  {
    LogRun(s0, steps, retryDelay);
  }

  /** A generation is never reconciled again before its latest retry deadline, nor at all once it succeeded; the attempt
      in progress included. */
  lemma NoEarlyRetry(s0: State, steps: seq<Step>, retryDelay: int, j: nat, k: nat)
    requires Initial(s0) && Runs(s0, steps, retryDelay) && retryDelay > 0
    ensures var s := After(s0, steps, retryDelay);
            && (j < k < |s.log| && s.log[j].gen == s.log[k].gen ==>
                  !s.log[j].success && s.log[j].deadline <= s.log[k].start)
            && (j < |s.log| && s.worker.Reconciling? && s.log[j].gen == s.worker.gen ==>
                  !s.log[j].success && s.log[j].deadline <= s.worker.start)
  {
    LogRun(s0, steps, retryDelay);
  }

  /** At rest everything counted has been reconciled by an attempt that began after it. */
  lemma RestMeansDone(s0: State, steps: seq<Step>, retryDelay: int)
    requires Initial(s0) && Runs(s0, steps, retryDelay) && retryDelay > 0
    ensures var s := After(s0, steps, retryDelay);
            !s.stopped && s.worker.Idle? && !s.queued && s.delayed == {} && s.sending == 0 && s.requested > 0 ==>
            exists k :: 0 <= k < |s.log| && s.log[k].success && s.log[k].counted >= s.requested
  {
    QueueRun(s0, steps, retryDelay);
    LogRun(s0, steps, retryDelay);
  }
}
