/** The trailing-delay request queue as a step machine (pkg/server/trailing_delay_queue.go). */
module DelayQueue {
  import opened Recency

  const REQUEST_HISTORY_SIZE: nat := 100

  /** What a handler returns. */
  datatype Outcome = Data(ret: string) | Error(code: int, message: string)

  datatype Completion = Completion(status: int, ret: string, message: string)

  /** A runtime timer: armed, stopped before it fired, running the handler, or returned from the callback. */
  datatype Timer = Armed | Stopped | Running | Returned(outcome: Outcome)

  /** One submission: its request hash, its timer and its completion entry. */
  datatype Submission = Submission(hash: string, timer: Timer, entry: Completion)

  /** Submissions are identified by their position; timers and the store refer to them. */
  datatype Queue = Queue(subs: seq<Submission>, timers: map<string, nat>, store: seq<(string, nat)>)

  datatype Step =
    | Submit(hash: string)
    | Fire(id: nat)
    | Return(id: nat, outcome: Outcome)
    | Poll(hash: string)
    | Shutdown

  // ---------------------------------------------------------------- completions

  function Created(hash: string): Completion {
    Completion(202, "", "request ID " + hash + " has been created")
  }

  function NotFound(hash: string): Completion {
    Completion(404, "", "request ID " + hash + " not found")
  }

  function Finish(entry: Completion, outcome: Outcome): Completion {
    match outcome
    case Data(ret) => entry.(ret := ret, status := 200)
    case Error(code, message) => entry.(status := code, message := message)
  }

  // ---------------------------------------------------------------- steps

  function Stop(t: Timer): Timer {
    if t.Armed? then Stopped else t
  }

  function StopAt(subs: seq<Submission>, i: nat): (r: seq<Submission>)
    ensures |r| == |subs|
  {
    if i < |subs| then subs[i := subs[i].(timer := Stop(subs[i].timer))] else subs
  }

  function AfterSubmit(q: Queue, hash: string): Queue {
    var subs := if hash in q.timers then StopAt(q.subs, q.timers[hash]) else q.subs;
    Queue(subs + [Submission(hash, Armed, Created(hash))], q.timers[hash := |q.subs|],
          AfterAdd<string, nat>(REQUEST_HISTORY_SIZE, q.store, hash, |q.subs|))
  }

  /** The submission whose entry a returning callback may still publish. */
  predicate Current(q: Queue, i: nat)
    requires i < |q.subs|
  {
    Find<string, nat>(q.store, q.subs[i].hash) == Found(i)
  }

  function AfterReturn(q: Queue, i: nat, outcome: Outcome): Queue
    requires i < |q.subs|
  {
    var s := q.subs[i];
    var touched := AfterGet(q.store, s.hash);
    var entry := if Current(q, i) then Finish(s.entry, outcome) else s.entry;
    Queue(q.subs[i := Submission(s.hash, Returned(outcome), entry)],
          if s.hash in q.timers && q.timers[s.hash] == i then q.timers - {s.hash} else q.timers,
          if Current(q, i) then AfterAdd(REQUEST_HISTORY_SIZE, touched, s.hash, i) else touched)
  }

  function StopListed(subs: seq<Submission>, timers: set<nat>): seq<Submission> {
    seq(|subs|, i requires 0 <= i < |subs| => if i in timers then subs[i].(timer := Stop(subs[i].timer)) else subs[i])
  }

  predicate Enabled(q: Queue, step: Step) {
    match step
    case Fire(i) => i < |q.subs| && q.subs[i].timer.Armed?
    case Return(i, _) => i < |q.subs| && q.subs[i].timer.Running?
    case _ => true
  }

  function Next(q: Queue, step: Step): Queue
    requires Enabled(q, step)
  {
    match step
    case Submit(hash) => AfterSubmit(q, hash)
    case Fire(i) => q.(subs := q.subs[i := q.subs[i].(timer := Running)])
    case Return(i, outcome) => AfterReturn(q, i, outcome)
    case Poll(hash) => q.(store := AfterGet(q.store, hash))
    case Shutdown => q.(subs := StopListed(q.subs, q.timers.Values))
  }

  /** What a poll of the hash reports. */
  function View(q: Queue, hash: string): Completion {
    match Find<string, nat>(q.store, hash)
    case Found(i) => if i < |q.subs| then q.subs[i].entry else NotFound(hash)
    case Missing => NotFound(hash)
  }

  function Initial(): Queue {
    Queue([], map[], [])
  }

  ghost predicate Runs(q: Queue, steps: seq<Step>)
    decreases |steps|
  {
    steps == [] || (Enabled(q, steps[0]) && Runs(Next(q, steps[0]), steps[1..]))
  }

  ghost function After(q: Queue, steps: seq<Step>): Queue
    requires Runs(q, steps)
    decreases |steps|
  {
    if steps == [] then q else After(Next(q, steps[0]), steps[1..])
  }

  // ---------------------------------------------------------------- the invariant

  ghost predicate IsLatest(subs: seq<Submission>, hash: string, i: nat) {
    && i < |subs| && subs[i].hash == hash
    && forall j :: i < j < |subs| ==> subs[j].hash != hash
  }

  /** What the latest submission of a hash has to show: 202 until its own callback returns, then that callback's
      outcome. */
  function Published(s: Submission): Completion {
    if s.timer.Returned? then Finish(Created(s.hash), s.timer.outcome) else Created(s.hash)
  }

  ghost predicate StoreOk(q: Queue, hash: string) {
    match Find<string, nat>(q.store, hash)
    case Found(i) => IsLatest(q.subs, hash, i) && q.subs[i].entry == Published(q.subs[i])
    case Missing => true
  }

  ghost predicate TimerOk(q: Queue, i: nat)
    requires i < |q.subs|
  {
    q.subs[i].timer.Armed? ==> q.subs[i].hash in q.timers && q.timers[q.subs[i].hash] == i
  }

  ghost predicate ListedOk(q: Queue, hash: string) {
    hash in q.timers ==> IsLatest(q.subs, hash, q.timers[hash])
  }

  ghost predicate Inv(q: Queue) {
    && Bounded(REQUEST_HISTORY_SIZE, q.store)
    && (forall hash {:trigger StoreOk(q, hash)} :: StoreOk(q, hash))
    && (forall i: nat {:trigger TimerOk(q, i)} :: i < |q.subs| ==> TimerOk(q, i))
    && (forall hash {:trigger ListedOk(q, hash)} :: ListedOk(q, hash))
  }

  // ---------------------------------------------------------------- the store

  lemma FindAfterAdd<K, V>(capacity: nat, s: seq<(K, V)>, k: K, v: V, x: K)
    requires capacity > 0
    ensures x == k ==> Find(AfterAdd(capacity, s, k, v), x) == Found(v)
    ensures x != k && Find(AfterAdd(capacity, s, k, v), x).Found? ==> Find(AfterAdd(capacity, s, k, v), x) == Find(s, x)
  {
    var t := [(k, v)] + Without(s, k);
    FindWithout(s, k, x);
    FindFront(Without(s, k), k, v, x);
    FindTake(t, capacity, x);
    assert Take(t, capacity)[0] == (k, v);
  }

  lemma FindAfterGet<K, V>(s: seq<(K, V)>, k: K, x: K)
    ensures Find(AfterGet(s, k), x) == Find(s, x)
  {
    if Find(s, k).Found? {
      FindWithout(s, k, x);
      FindFront(Without(s, k), k, Find(s, k).value, x);
    }
  }

  // ---------------------------------------------------------------- every step keeps the invariant

  lemma LatestUnique(subs: seq<Submission>, hash: string, i: nat, j: nat)
    requires IsLatest(subs, hash, i) && IsLatest(subs, hash, j)
    ensures i == j
  {}

  /** Same hashes, same latest submissions. */
  lemma LatestFrame(subs: seq<Submission>, subs': seq<Submission>, hash: string, i: nat)
    requires |subs| == |subs'| && forall j :: 0 <= j < |subs| ==> subs[j].hash == subs'[j].hash
    ensures IsLatest(subs, hash, i) <==> IsLatest(subs', hash, i)
  {}

  lemma SubmitStore(q: Queue, hash: string, x: string)
    requires Inv(q)
    ensures StoreOk(AfterSubmit(q, hash), x)
  {
    var q' := AfterSubmit(q, hash);
    FindAfterAdd<string, nat>(REQUEST_HISTORY_SIZE, q.store, hash, |q.subs|, x);
    assert StoreOk(q, x) && ListedOk(q, hash);
    if x != hash && Find<string, nat>(q'.store, x).Found? {
      var i := Find<string, nat>(q.store, x).value;
      assert q'.subs[i] == q.subs[i] by {
        assert hash in q.timers ==> q.subs[q.timers[hash]].hash == hash;
      }
    }
  }

  lemma SubmitKeeps(q: Queue, hash: string)
    requires Inv(q)
    ensures Inv(AfterSubmit(q, hash))
  {
    var q' := AfterSubmit(q, hash);
    AddBounded<string, nat>(REQUEST_HISTORY_SIZE, q.store, hash, |q.subs|);
    forall x ensures StoreOk(q', x) { SubmitStore(q, hash, x); }
    forall i: nat | i < |q'.subs| ensures TimerOk(q', i) {
      if i < |q.subs| { assert TimerOk(q, i); }
    }
    forall x ensures ListedOk(q', x) {
      assert ListedOk(q, x);
    }
  }

  lemma SameStoreOk(q: Queue, q': Queue, x: string)
    requires Inv(q) && Find<string, nat>(q'.store, x) == Find<string, nat>(q.store, x) && |q'.subs| == |q.subs|
    requires forall i :: 0 <= i < |q.subs| ==> q'.subs[i].hash == q.subs[i].hash
    requires forall i :: 0 <= i < |q.subs| && Find<string, nat>(q.store, x) == Found(i) ==>
               q'.subs[i].entry == Published(q'.subs[i])
    ensures StoreOk(q', x)
  {
    assert StoreOk(q, x);
    if Find<string, nat>(q.store, x).Found? {
      LatestFrame(q.subs, q'.subs, x, Find<string, nat>(q.store, x).value);
    }
  }

  lemma FireKeeps(q: Queue, i: nat)
    requires Inv(q) && Enabled(q, Fire(i))
    ensures Inv(Next(q, Fire(i)))
  {
    var q' := Next(q, Fire(i));
    forall x ensures StoreOk(q', x) {
      assert StoreOk(q, x);
      SameStoreOk(q, q', x);
    }
    forall j: nat | j < |q'.subs| ensures TimerOk(q', j) { assert TimerOk(q, j); }
    forall x ensures ListedOk(q', x) {
      assert ListedOk(q, x);
      if x in q.timers { LatestFrame(q.subs, q'.subs, x, q.timers[x]); }
    }
  }

  lemma ReturnFind(q: Queue, i: nat, outcome: Outcome, x: string)
    requires i < |q.subs|
    ensures Find(AfterReturn(q, i, outcome).store, x).Found? ==>
              Find(AfterReturn(q, i, outcome).store, x) == Find<string, nat>(q.store, x)
    ensures !Current(q, i) ==> Find(AfterReturn(q, i, outcome).store, x) == Find<string, nat>(q.store, x)
    ensures x == q.subs[i].hash && Current(q, i) ==> Find(AfterReturn(q, i, outcome).store, x) == Found(i)
  {
    var s := q.subs[i];
    FindAfterGet(q.store, s.hash, x);
    FindAfterAdd(REQUEST_HISTORY_SIZE, AfterGet(q.store, s.hash), s.hash, i, x);
  }

  lemma ReturnStore(q: Queue, i: nat, outcome: Outcome, x: string)
    requires Inv(q) && Enabled(q, Return(i, outcome))
    ensures StoreOk(AfterReturn(q, i, outcome), x)
  {
    var q' := AfterReturn(q, i, outcome);
    ReturnFind(q, i, outcome, x);
    assert StoreOk(q, x);
    if Find<string, nat>(q'.store, x).Found? {
      SameStoreOk(q, q', x);
    }
  }

  lemma ReturnKeeps(q: Queue, i: nat, outcome: Outcome)
    requires Inv(q) && Enabled(q, Return(i, outcome))
    ensures Inv(AfterReturn(q, i, outcome))
  {
    var q' := AfterReturn(q, i, outcome);
    GetBounded(REQUEST_HISTORY_SIZE, q.store, q.subs[i].hash);
    AddBounded(REQUEST_HISTORY_SIZE, AfterGet(q.store, q.subs[i].hash), q.subs[i].hash, i);
    forall x ensures StoreOk(q', x) { ReturnStore(q, i, outcome, x); }
    forall j: nat | j < |q'.subs| ensures TimerOk(q', j) { assert TimerOk(q, j); }
    forall x ensures ListedOk(q', x) {
      assert ListedOk(q, x);
      if x in q'.timers { LatestFrame(q.subs, q'.subs, x, q.timers[x]); }
    }
  }

  lemma PollKeeps(q: Queue, hash: string)
    requires Inv(q)
    ensures Inv(Next(q, Poll(hash)))
  {
    var q' := Next(q, Poll(hash));
    GetBounded(REQUEST_HISTORY_SIZE, q.store, hash);
    forall x ensures StoreOk(q', x) {
      FindAfterGet(q.store, hash, x);
      assert StoreOk(q, x);
    }
    forall j: nat | j < |q'.subs| ensures TimerOk(q', j) { assert TimerOk(q, j); }
    forall x ensures ListedOk(q', x) { assert ListedOk(q, x); }
  }

  lemma ShutdownKeeps(q: Queue)
    requires Inv(q)
    ensures Inv(Next(q, Shutdown))
  {
    var q' := Next(q, Shutdown);
    forall x ensures StoreOk(q', x) {
      assert StoreOk(q, x);
      SameStoreOk(q, q', x);
    }
    forall j: nat | j < |q'.subs| ensures TimerOk(q', j) { assert TimerOk(q, j); }
    forall x ensures ListedOk(q', x) {
      assert ListedOk(q, x);
      if x in q.timers { LatestFrame(q.subs, q'.subs, x, q.timers[x]); }
    }
  }

  lemma StepKeeps(q: Queue, step: Step)
    requires Inv(q) && Enabled(q, step)
    ensures Inv(Next(q, step))
  {
    match step
    case Submit(hash) => SubmitKeeps(q, hash);
    case Fire(i) => FireKeeps(q, i);
    case Return(i, outcome) => ReturnKeeps(q, i, outcome);
    case Poll(hash) => PollKeeps(q, hash);
    case Shutdown => ShutdownKeeps(q);
  }

  lemma {:induction false} RunKeeps(q: Queue, steps: seq<Step>)
    requires Inv(q) && Runs(q, steps)
    ensures Inv(After(q, steps))
    decreases |steps|
  {
    if steps != [] {
      StepKeeps(q, steps[0]);
      RunKeeps(Next(q, steps[0]), steps[1..]);
    }
  }
}
