/** What every run of the trailing-delay queue guarantees. */
module DelayQueueTheorems {
  import opened Wrappers
  import opened Recency
  import opened DelayQueue

  lemma Reachable(steps: seq<Step>)
    requires Runs(Initial(), steps)
    ensures Inv(After(Initial(), steps))
  {
    var q := Initial();
    assert forall hash :: StoreOk(q, hash);
    RunKeeps(q, steps);
  }

  // ---------------------------------------------------------------- the latest submission wins

  /** A poll shows the latest submission of its hash and nothing older: 202 until that submission's own
      callback returns and the outcome of that callback afterwards, or 404 once evicted. */
  lemma LatestWins(steps: seq<Step>, hash: string, j: nat)
    requires Runs(Initial(), steps) && IsLatest(After(Initial(), steps).subs, hash, j)
    ensures var q := After(Initial(), steps);
            View(q, hash) == NotFound(hash) || View(q, hash) == Published(q.subs[j])
  {
    var q := After(Initial(), steps);
    Reachable(steps);
    assert StoreOk(q, hash);
    if Find<string, nat>(q.store, hash).Found? {
      LatestUnique(q.subs, hash, j, Find<string, nat>(q.store, hash).value);
    }
  }

  /** Submitting always makes the hash show 202. */
  lemma SubmitShowsAccepted(q: Queue, hash: string)
    ensures View(AfterSubmit(q, hash), hash) == Created(hash)
  {
    FindAfterAdd<string, nat>(REQUEST_HISTORY_SIZE, q.store, hash, |q.subs|, hash);
  }

  /** The only steps that change what a hash shows: its own submission, the return of its latest submission's
      callback, and another submission that evicts it. No older callback does. */
  lemma ViewChanges(q: Queue, step: Step, hash: string)
    requires Inv(q) && Enabled(q, step)
    ensures || View(Next(q, step), hash) == View(q, hash)
            || step == Submit(hash)
            || (step.Return? && IsLatest(q.subs, hash, step.id) && Current(q, step.id))
            || (step.Submit? && View(Next(q, step), hash) == NotFound(hash))
  {
    assert StoreOk(q, hash);
    match step
    case Submit(h) =>
      if h != hash {
        assert ListedOk(q, h);
        FindAfterAdd<string, nat>(REQUEST_HISTORY_SIZE, q.store, h, |q.subs|, hash);
      }
    case Fire(i) =>
    case Return(i, outcome) => ReturnView(q, i, outcome, hash);
    case Poll(h) => FindAfterGet(q.store, h, hash);
    case Shutdown =>
  }

  lemma ReturnView(q: Queue, i: nat, outcome: Outcome, hash: string)
    requires Inv(q) && Enabled(q, Return(i, outcome))
    ensures View(AfterReturn(q, i, outcome), hash) == View(q, hash) || (IsLatest(q.subs, hash, i) && Current(q, i))
  {
    assert StoreOk(q, hash) && StoreOk(q, q.subs[i].hash);
    ReturnFind(q, i, outcome, hash);
    if Current(q, i) {
      AddAfterGet(REQUEST_HISTORY_SIZE, q.store, q.subs[i].hash, i);
      FindAfterGet(q.store, q.subs[i].hash, hash);
    }
  }

  // ---------------------------------------------------------------- exactly when a poll shows 404

  type StoreOp = Op<string, nat>

  /** The cache operations of a step. */
  ghost function StepOps(q: Queue, step: Step): seq<StoreOp>
    requires Enabled(q, step)
  {
    match step
    case Submit(hash) => [Op.Add(hash, |q.subs|)]
    case Return(i, _) => [Op.Get(q.subs[i].hash)] + if Current(q, i) then [Op.Add(q.subs[i].hash, i)] else []
    case Poll(hash) => [Op.Get(hash)]
    case _ => []
  }

  ghost function Ops(q: Queue, steps: seq<Step>): seq<StoreOp>
    requires Runs(q, steps)
    decreases |steps|
  {
    if steps == [] then [] else StepOps(q, steps[0]) + Ops(Next(q, steps[0]), steps[1..])
  }

  /** The store is the cache after the given operations. */
  ghost predicate CacheAfter(store: seq<(string, nat)>, ops: seq<StoreOp>) {
    store == Run(REQUEST_HISTORY_SIZE, ops)
  }

  lemma CacheStep(store: seq<(string, nat)>, ops: seq<StoreOp>, op: StoreOp)
    requires CacheAfter(store, ops)
    ensures CacheAfter(Recency.Step(REQUEST_HISTORY_SIZE, store, op), ops + [op])
  {
    RunSnoc(REQUEST_HISTORY_SIZE, ops, op);
  }

  lemma ReturnStoreStep(q: Queue, i: nat, outcome: Outcome, ops: seq<StoreOp>)
    requires Enabled(q, Return(i, outcome)) && CacheAfter(q.store, ops)
    ensures CacheAfter(AfterReturn(q, i, outcome).store, ops + StepOps(q, Return(i, outcome)))
  {
    var get: StoreOp, add: StoreOp := Op.Get(q.subs[i].hash), Op.Add(q.subs[i].hash, i);
    CacheStep(q.store, ops, get);
    if Current(q, i) {
      CacheStep(AfterGet(q.store, q.subs[i].hash), ops + [get], add);
      Reassociate(ops, [get], [add]);
    } else {
      assert [get] + [] == [get];
    }
  }

  lemma StoreStep(q: Queue, step: Step, ops: seq<StoreOp>)
    requires Enabled(q, step) && CacheAfter(q.store, ops)
    ensures CacheAfter(Next(q, step).store, ops + StepOps(q, step))
  {
    match step
    case Submit(hash) => CacheStep(q.store, ops, Op.Add(hash, |q.subs|));
    case Poll(hash) => CacheStep(q.store, ops, Op.Get(hash));
    case Return(i, outcome) => ReturnStoreStep(q, i, outcome, ops);
    case Fire(_) => assert ops + [] == ops;
    case Shutdown => assert ops + [] == ops;
  }

  /** Throughout a run the store is the cache after the operations so far. */
  lemma {:induction false} StoreIsCache(q: Queue, steps: seq<Step>, ops: seq<StoreOp>)
    requires Runs(q, steps) && CacheAfter(q.store, ops)
    ensures CacheAfter(After(q, steps).store, ops + Ops(q, steps))
    decreases |steps|
  {
    if steps == [] {
      assert ops + [] == ops;
    } else {
      var head := StepOps(q, steps[0]);
      StoreStep(q, steps[0], ops);
      StoreIsCache(Next(q, steps[0]), steps[1..], ops + head);
      Reassociate(ops, head, Ops(Next(q, steps[0]), steps[1..]));
    }
  }

  /** The hashes a run has touched, in order: every submission, every poll and every returning callback that finds its
      hash. */
  ghost function Touched(steps: seq<Step>): seq<string>
    requires Runs(Initial(), steps)
  {
    Touches(REQUEST_HISTORY_SIZE, Ops(Initial(), steps))
  }

  /** The hash is forgotten: never touched, or at least 100 other hashes were touched since. */
  ghost predicate Forgotten(steps: seq<Step>, hash: string)
    requires Runs(Initial(), steps)
  {
    hash !in Touched(steps) || |Since(Touched(steps), hash)| >= REQUEST_HISTORY_SIZE
  }

  /** In every run a poll shows 404 for exactly the forgotten hashes, and for any other the state of its latest
      submission. */
  lemma NotFoundIff(steps: seq<Step>, hash: string)
    requires Runs(Initial(), steps)
    ensures var q := After(Initial(), steps);
            && (Find<string, nat>(q.store, hash).Missing? <==> Forgotten(steps, hash))
            && (Forgotten(steps, hash) ==> View(q, hash) == NotFound(hash))
            && (!Forgotten(steps, hash) ==>
                  exists j: nat :: IsLatest(q.subs, hash, j) && View(q, hash) == Published(q.subs[j]))
  {
    var q, ops := After(Initial(), steps), Ops(Initial(), steps);
    StoreIsCache(Initial(), steps, []);
    assert [] + ops == ops;
    RetainedIff<string, nat>(REQUEST_HISTORY_SIZE, ops, hash);
    Reachable(steps);
    assert StoreOk(q, hash);
  }

  // ---------------------------------------------------------------- timers

  /** Per hash at most one timer is armed; it belongs to the latest submission and is the one in the timers map. */
  lemma OneArmedTimer(steps: seq<Step>, i: nat)
    requires Runs(Initial(), steps)
    requires var q := After(Initial(), steps); i < |q.subs| && q.subs[i].timer.Armed?
    ensures var q := After(Initial(), steps);
            && q.subs[i].hash in q.timers && q.timers[q.subs[i].hash] == i && IsLatest(q.subs, q.subs[i].hash, i)
            && forall j :: 0 <= j < |q.subs| && q.subs[j].hash == q.subs[i].hash && q.subs[j].timer.Armed? ==> j == i
  {
    var q := After(Initial(), steps);
    Reachable(steps);
    assert TimerOk(q, i) && ListedOk(q, q.subs[i].hash);
    forall j | 0 <= j < |q.subs| && q.subs[j].hash == q.subs[i].hash && q.subs[j].timer.Armed? ensures j == i {
      assert TimerOk(q, j);
    }
  }

  // ---------------------------------------------------------------- how often the handler runs

  /** How often the handler is started for submission `i`. */
  ghost function Starts(steps: seq<Step>, i: nat): nat {
    if steps == [] then 0 else (if steps[0] == Fire(i) then 1 else 0) + Starts(steps[1..], i)
  }

  ghost function Started(q: Queue, i: nat): nat {
    if i < |q.subs| && (q.subs[i].timer.Running? || q.subs[i].timer.Returned?) then 1 else 0
  }

  lemma StartedStep(q: Queue, step: Step, i: nat)
    requires Enabled(q, step)
    ensures Started(Next(q, step), i) == Started(q, i) + (if step == Fire(i) then 1 else 0)
  {}

  lemma {:induction false} StartsCounted(q: Queue, steps: seq<Step>, i: nat)
    requires Runs(q, steps)
    ensures Started(q, i) + Starts(steps, i) == Started(After(q, steps), i)
    decreases |steps|
  {
    if steps != [] {
      StartedStep(q, steps[0], i);
      StartsCounted(Next(q, steps[0]), steps[1..], i);
    }
  }

  /** The handler runs at most once per submission. */
  lemma HandlerRunsOnce(steps: seq<Step>, i: nat)
    requires Runs(Initial(), steps)
    ensures Starts(steps, i) <= 1
  {
    StartsCounted(Initial(), steps, i);
  }

  /** How often the handler is started for a request hash. */
  ghost function HashStarts(q: Queue, steps: seq<Step>, hash: string): nat
    requires Runs(q, steps)
    decreases |steps|
  {
    if steps == [] then 0
    else (if StartsHash(q, steps[0], hash) then 1 else 0) + HashStarts(Next(q, steps[0]), steps[1..], hash)
  }

  ghost predicate StartsHash(q: Queue, step: Step, hash: string) {
    step.Fire? && step.id < |q.subs| && q.subs[step.id].hash == hash
  }

  /** 1 while some timer of the hash is armed. */
  ghost function Live(q: Queue, hash: string): nat {
    if hash in q.timers && q.timers[hash] < |q.subs| && q.subs[q.timers[hash]].timer.Armed? then 1 else 0
  }

  lemma LiveStep(q: Queue, step: Step, hash: string)
    requires Inv(q) && Enabled(q, step) && step != Submit(hash)
    ensures Live(Next(q, step), hash) + (if StartsHash(q, step, hash) then 1 else 0) <= Live(q, hash)
  {
    assert ListedOk(q, hash);
    if step.Fire? { assert TimerOk(q, step.id); }
    if step.Submit? { assert ListedOk(q, step.hash); }
  }

  lemma {:induction false} TailStarts(q: Queue, steps: seq<Step>, hash: string)
    requires Inv(q) && Runs(q, steps) && Submit(hash) !in steps
    ensures HashStarts(q, steps, hash) <= Live(q, hash)
    decreases |steps|
  {
    if steps != [] {
      assert steps[0] in steps;
      LiveStep(q, steps[0], hash);
      StepKeeps(q, steps[0]);
      TailStarts(Next(q, steps[0]), steps[1..], hash);
    }
  }

  lemma {:induction false} HashStartsSplit(q: Queue, a: seq<Step>, b: seq<Step>, hash: string)
    requires Runs(q, a + b)
    ensures Runs(q, a) && Runs(After(q, a), b)
    ensures HashStarts(q, a + b, hash) == HashStarts(q, a, hash) + HashStarts(After(q, a), b, hash)
    decreases |a|
  {
    if a == [] {
      assert a + b == b;
    } else {
      assert (a + b)[0] == a[0] && (a + b)[1..] == a[1..] + b;
      HashStartsSplit(Next(q, a[0]), a[1..], b, hash);
    }
  }

  /** From any state: a burst during which no timer of the hash fires, so that each of its submissions arrives before
      the timer of the previous one has fired, starts the handler at most once, however long the run goes on without
      another. */
  lemma BurstRunsOnce(q: Queue, burst: seq<Step>, tail: seq<Step>, hash: string)
    requires Inv(q) && Runs(q, burst) && Runs(q, burst + tail)
    requires HashStarts(q, burst, hash) == 0 && Submit(hash) !in tail
    ensures HashStarts(q, burst + tail, hash) <= 1
  {
    HashStartsSplit(q, burst, tail, hash);
    RunKeeps(q, burst);
    TailStarts(After(q, burst), tail, hash);
  }

  /** In every run, whatever happened before the burst. */
  lemma EveryBurstRunsOnce(before: seq<Step>, burst: seq<Step>, tail: seq<Step>, hash: string)
    requires Runs(Initial(), before) && Runs(After(Initial(), before), burst)
             && Runs(After(Initial(), before), burst + tail)
    requires HashStarts(After(Initial(), before), burst, hash) == 0 && Submit(hash) !in tail
    ensures HashStarts(After(Initial(), before), burst + tail, hash) <= 1
  {
    Reachable(before);
    BurstRunsOnce(After(Initial(), before), burst, tail, hash);
  }
}
