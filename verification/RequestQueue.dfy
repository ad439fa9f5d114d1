/** The trailing-delay queue over the cache: each critical section is one step of the queue machine. */
module RequestQueue {
  import opened Wrappers
  import opened Recency
  import opened Lru
  import opened DelayQueue

  class TrailingDelayQueue {
    var subs: seq<Submission>
    var timers: map<string, nat>
    const store: Cache<string, nat>

    ghost predicate Valid()
      reads this, store
    {
      && store.Valid() && store.capacity == REQUEST_HISTORY_SIZE
      && forall h :: h in timers ==> timers[h] < |subs|
    }

    ghost function State(): Queue
      reads this, store, store.items
    {
      Queue(subs, timers, store.Contents())
    }

    constructor ()
      ensures Valid() && State() == Initial() && fresh(store) && fresh(store.items)
    {
      subs, timers := [], map[];
      store := new Cache(REQUEST_HISTORY_SIZE);
    }

    /** Records a request whose hash is known; the timer of an earlier one with the same hash is stopped. */
    method Submit(hash: string) returns (id: nat)
      requires Valid()
      modifies this, store, store.items
      ensures Valid() && id == |old(subs)|
      ensures State() == Next(old(State()), Step.Submit(hash))
    {
      id := |subs|;
      if hash in timers {
        var t := timers[hash];
        subs := subs[t := subs[t].(timer := Stop(subs[t].timer))];
      }
      subs := subs + [Submission(hash, Armed, Created(hash))];
      timers := timers[hash := id];
      var evicted := store.Add(hash, id);
    }

    /** The timer of submission `id` fires: the runtime starts its callback, which calls the handler outside the
        lock. */
    method Fire(id: nat)
      requires Valid() && Enabled(State(), Step.Fire(id))
      modifies this`subs
      ensures Valid() && State() == Next(old(State()), Step.Fire(id))
      ensures forall outcome :: Enabled(State(), Step.Return(id, outcome))
    {
      subs := subs[id := subs[id].(timer := Running)];
    }

    /** The callback of submission `id`, after its handler returned `outcome`. */
    method Return(id: nat, outcome: Outcome)
      requires Valid() && Enabled(State(), Step.Return(id, outcome))
      modifies this, store, store.items
      ensures Valid() && State() == Next(old(State()), Step.Return(id, outcome))
    {
      var s := subs[id];
      ghost var q := State();
      var entry := Publish(s.hash, id, s.entry, outcome);
      ghost var pairs := store.Contents();
      ReturnedState(q, id, outcome, entry, pairs);
      Drop(id, Submission(s.hash, Returned(outcome), entry));
    }

    /** Records how the callback ended, and drops its timer if it is still the one in the map. */
    method Drop(id: nat, s: Submission)
      requires Valid() && id < |subs| && subs[id].hash == s.hash
      modifies this
      ensures Valid() && store.Contents() == old(store.Contents()) && subs == old(subs)[id := s]
      ensures timers == if s.hash in old(timers) && old(timers)[s.hash] == id then old(timers) - {s.hash}
                        else old(timers)
    {
      subs := subs[id := s];
      if s.hash in timers && timers[s.hash] == id {
        timers := timers - {s.hash};
      }
    }

    /** Updates the entry only if the store still holds this submission for the hash. */
    method Publish(hash: string, id: nat, entry: Completion, outcome: Outcome) returns (entry': Completion)
      requires store.Valid() && store.capacity == REQUEST_HISTORY_SIZE
      modifies store, store.items
      ensures store.Valid()
      ensures entry' == if Find(old(store.Contents()), hash) == Found(id) then Finish(entry, outcome) else entry
      ensures store.Contents() == if Find(old(store.Contents()), hash) == Found(id)
                                  then AfterAdd(REQUEST_HISTORY_SIZE, AfterGet(old(store.Contents()), hash), hash, id)
                                  else AfterGet(old(store.Contents()), hash)
    {
      var current := store.Get(hash);
      entry' := entry;
      if current == Found(id) {
        match outcome {
          case Error(code, message) => entry' := entry'.(status := code, message := message);
          case Data(ret) => entry' := entry'.(ret := ret, status := 200);
        }
        var evicted := store.Add(hash, id);
      }
    }

    /** The completion of a hash, or 404. */
    method Get(hash: string) returns (c: Completion)
      requires Valid() && Inv(State())
      modifies this, store
      ensures Valid() && State() == Next(old(State()), Poll(hash))
      ensures c == View(old(State()), hash)
    {
      assert StoreOk(State(), hash);
      var r := store.Get(hash);
      match r {
        case Found(id) => return subs[id].entry;
        case Missing => return NotFound(hash);
      }
    }

    /** On shutdown every timer in the map is stopped. */
    method StopTimers()
      requires Valid()
      modifies this`subs
      ensures Valid() && State() == Next(old(State()), Shutdown)
    {
      ghost var pairs := store.Contents();
      StopEach();
      assert store.Contents() == pairs;
    }

    method StopEach()
      requires forall h :: h in timers ==> timers[h] < |subs|
      modifies this`subs
      ensures subs == StopListed(old(subs), timers.Values)
    {
      var todo := timers.Keys;
      while todo != {}
        invariant todo <= timers.Keys && StoppedFor(old(subs), subs, timers, timers.Keys - todo)
        decreases |todo|
      {
        var h :| h in todo;
        var t := timers[h];
        StopNext(old(subs), subs, timers, timers.Keys - todo, h);
        Advance(timers.Keys, todo, h);
        subs := subs[t := subs[t].(timer := Stop(subs[t].timer))];
        todo := todo - {h};
      }
      assert timers.Keys - todo == timers.Keys;
      StopAll(old(subs), subs, timers);
    }
  }

  /** The fields after a callback make up the state after its step. */
  lemma ReturnedState(q: Queue, id: nat, outcome: Outcome, entry: Completion, store: seq<(string, nat)>)
    requires id < |q.subs|
    requires entry == if Current(q, id) then Finish(q.subs[id].entry, outcome) else q.subs[id].entry
    requires store == if Current(q, id)
                      then AfterAdd(REQUEST_HISTORY_SIZE, AfterGet(q.store, q.subs[id].hash), q.subs[id].hash, id)
                      else AfterGet(q.store, q.subs[id].hash)
    ensures var h := q.subs[id].hash;
            AfterReturn(q, id, outcome) ==
            Queue(q.subs[id := Submission(h, Returned(outcome), entry)],
                  if h in q.timers && q.timers[h] == id then q.timers - {h} else q.timers,
                  store)
  {}

  ghost predicate StoppedBy(timers: map<string, nat>, keys: set<string>, i: int) {
    exists h :: h in keys && h in timers && timers[h] == i
  }

  /** The timers of the given hashes have been stopped, and nothing else was changed. */
  ghost predicate StoppedFor(before: seq<Submission>, after: seq<Submission>, timers: map<string, nat>,
                             keys: set<string>) {
    && |after| == |before|
    && forall i :: 0 <= i < |after| ==>
         after[i] == if StoppedBy(timers, keys, i) then before[i].(timer := Stop(before[i].timer)) else before[i]
  }

  lemma StoppedByNext(timers: map<string, nat>, keys: set<string>, h: string, i: int)
    requires h in timers
    ensures StoppedBy(timers, keys + {h}, i) <==> StoppedBy(timers, keys, i) || i == timers[h]
  {
    if StoppedBy(timers, keys, i) {
      var k :| k in keys && k in timers && timers[k] == i;
      assert k in keys + {h};
    }
    assert h in keys + {h};
  }

  lemma StopNext(before: seq<Submission>, after: seq<Submission>, timers: map<string, nat>,
                 keys: set<string>, h: string)
    requires StoppedFor(before, after, timers, keys) && h in timers && timers[h] < |after|
    ensures var t := timers[h];
            StoppedFor(before, after[t := after[t].(timer := Stop(after[t].timer))], timers, keys + {h})
  {
    forall i | 0 <= i < |after|
      ensures StoppedBy(timers, keys + {h}, i) <==> StoppedBy(timers, keys, i) || i == timers[h]
    {
      StoppedByNext(timers, keys, h, i);
    }
  }

  lemma StopAll(before: seq<Submission>, after: seq<Submission>, timers: map<string, nat>)
    requires StoppedFor(before, after, timers, timers.Keys)
    ensures after == StopListed(before, timers.Values)
  {
    forall i | 0 <= i < |after| ensures StoppedBy(timers, timers.Keys, i) <==> i in timers.Values {}
  }
}
