/** The workload-identity token cache with single-flight refresh (pkg/providers/lambdai/token.go). Times are
    nanoseconds. */
module TokenCache {
  import opened Wrappers

  const FAILED_REFRESH_BACKOFF: int := 30_000_000_000

  /** A published token; published values never change, so a pointer to one is its position in the history. */
  datatype CachedToken = CachedToken(accessToken: string, expiresAt: int, refreshAt: int)

  // ---------------------------------------------------------------- when to refresh

  /** Division and conversion that truncate toward zero. */
  function Half(x: int): int {
    if x >= 0 then x / 2 else -(-x / 2)
  }

  function Truncate(x: real): int {
    if x >= 0.0 then x.Floor else -((-x).Floor)
  }

  /** The refresh window, at most half of what is left of the token's life. */
  function Window(life: int, refreshWindow: int): int {
    if refreshWindow >= life then Half(life) else refreshWindow
  }

  /** When to refresh, given the window and the jitter taken off it. */
  function Due(now: int, expiresAt: int, window: int, jitter: int): int {
    var refreshAt := expiresAt - (window - jitter);
    if refreshAt <= now then now + Half(expiresAt - now) else refreshAt
  }

  function Scaled(f: real, w: real): real {
    f * w
  }

  function Jitter(window: int, fraction: real): int {
    Truncate(Scaled(fraction, window as real))
  }

  function RefreshAt(now: int, expiresAt: int, refreshWindow: int, jitterFrac: real, random: real): int {
    var window := Window(expiresAt - now, refreshWindow);
    Due(now, expiresAt, window, Jitter(window, Scaled(random, jitterFrac)))
  }

  lemma LiveDue(now: int, expiresAt: int, window: int, jitter: int)
    requires 0 <= jitter <= window < expiresAt - now
    ensures now < Due(now, expiresAt, window, jitter) <= expiresAt
  {}

  lemma DeadDue(now: int, expiresAt: int, window: int, jitter: int)
    requires expiresAt <= now && window == Half(expiresAt - now) && window <= jitter <= 0
    ensures expiresAt <= Due(now, expiresAt, window, jitter) <= now
  {}

  lemma WindowFits(life: int, refreshWindow: int)
    requires refreshWindow >= 0
    ensures if life > 0 then 0 <= Window(life, refreshWindow) < life else Window(life, refreshWindow) == Half(life) <= 0
  {}

  lemma NonNegative(a: real, b: real)
    requires a >= 0.0 && b >= 0.0
    ensures a * b >= 0.0
  {}

  /** A fraction of a non-negative quantity lies between zero and the quantity. */
  lemma Fraction(f: real, w: real)
    requires 0.0 <= f <= 1.0 && w >= 0.0
    ensures 0.0 <= Scaled(f, w) <= w
  {
    NonNegative(f, w);
    NonNegative(1.0 - f, w);
    assert (1.0 - f) * w == w - f * w;
  }

  lemma TruncateWithin(x: real, w: int)
    ensures 0.0 <= x <= w as real ==> 0 <= Truncate(x) <= w
    ensures w as real <= x <= 0.0 ==> w <= Truncate(x) <= 0
  {}

  lemma Negated(f: real, w: real)
    ensures Scaled(f, -w) == -Scaled(f, w)
  {}

  lemma JitterWithin(window: int, f: real)
    requires 0.0 <= f <= 1.0
    ensures window >= 0 ==> 0 <= Jitter(window, f) <= window
    ensures window <= 0 ==> window <= Jitter(window, f) <= 0
  {
    var w := window as real;
    if window >= 0 { Fraction(f, w); }
    if window <= 0 {
      Fraction(f, -w);
      Negated(f, w);
    }
    TruncateWithin(Scaled(f, w), window);
  }

  /** A live token is refreshed after it was minted and no later than its expiry; one that is dead on arrival is due at
      once. */
  lemma RefreshBeforeExpiry(now: int, expiresAt: int, refreshWindow: int, jitterFrac: real, random: real)
    requires refreshWindow >= 0 && 0.0 <= jitterFrac <= 1.0 && 0.0 <= random < 1.0
    ensures var r := RefreshAt(now, expiresAt, refreshWindow, jitterFrac, random);
            if expiresAt > now then now < r <= expiresAt else expiresAt <= r <= now
  {
    var window := Window(expiresAt - now, refreshWindow);
    var jitter := Jitter(window, Scaled(random, jitterFrac));
    WindowFits(expiresAt - now, refreshWindow);
    Fraction(random, jitterFrac);
    JitterWithin(window, Scaled(random, jitterFrac));
    if expiresAt > now {
      LiveDue(now, expiresAt, window, jitter);
    } else {
      DeadDue(now, expiresAt, window, jitter);
    }
  }

  // ---------------------------------------------------------------- callers

  /** Where a caller is inside Token; `seen` is the token it read. */
  datatype Caller =
    | Outside
    | Checking(seen: Option<nat>)
    | Waiting
    | Holding
    | Rechecking(seen: Option<nat>)
    | Exchanging(seen: Option<nat>)
    | Failed(seen: Option<nat>)
    | Deferring(stale: nat)
    | Publishing(minted: CachedToken)

  /** A key handed out from the cache, and when its validity was checked. */
  datatype Service = Service(token: CachedToken, checkedAt: int)

  /** `tokens` is every token published so far, `cur` the current one, `holder` the caller holding the refresh lock. */
  datatype State = State(
    tokens: seq<CachedToken>, cur: Option<nat>, holder: Option<nat>,
    callers: map<nat, Caller>, now: int, served: seq<Service>)

  datatype Step =
    | Read(c: nat)
    | Check(c: nat)
    | Lock(c: nat)
    | Reread(c: nat)
    | Recheck(c: nat)
    | ExchangeOk(c: nat, accessToken: string, expiresAt: int, random: real)
    | ExchangeFail(c: nat)
    | FailCheck(c: nat)
    | Defer(c: nat)
    | Publish(c: nat)
    | Invalidate(token: string)
    | Tick(time: int)

  const REFRESH_WINDOW: int := 300_000_000_000
  const JITTER_FRAC: real := 0.2

  function At(s: State, c: nat): Caller {
    if c in s.callers then s.callers[c] else Outside
  }

  function Go(s: State, c: nat, pc: Caller): State {
    s.(callers := s.callers[c := pc])
  }

  predicate Usable(s: State, seen: Option<nat>) {
    seen.Some? && seen.value < |s.tokens| && s.now < s.tokens[seen.value].refreshAt
  }

  predicate Alive(s: State, seen: Option<nat>) {
    seen.Some? && seen.value < |s.tokens| && s.now < s.tokens[seen.value].expiresAt
  }

  function Serve(s: State, i: nat): State
    requires i < |s.tokens|
  {
    s.(served := s.served + [Service(s.tokens[i], s.now)])
  }

  /** Republishes the token with a later refresh, unless it is no longer current or that would not be later. */
  function DeferRefresh(s: State, stale: nat): State
    requires stale < |s.tokens|
  {
    if s.cur != Some(stale) then s
    else
      var t := s.tokens[stale];
      var next := if s.now + FAILED_REFRESH_BACKOFF > t.expiresAt then t.expiresAt else s.now + FAILED_REFRESH_BACKOFF;
      if next <= t.refreshAt then s
      else s.(tokens := s.tokens + [t.(refreshAt := next)], cur := Some(|s.tokens|))
  }

  function AfterInvalidate(s: State, token: string): State {
    if s.cur.Some? && s.cur.value < |s.tokens| && s.tokens[s.cur.value].accessToken == token then s.(cur := None) else s
  }

  predicate Enabled(s: State, step: Step) {
    match step
    case Read(c) => At(s, c).Outside?
    case Check(c) => At(s, c).Checking?
    case Lock(c) => At(s, c).Waiting? && s.holder.None?
    case Reread(c) => At(s, c).Holding?
    case Recheck(c) => At(s, c).Rechecking?
    case ExchangeOk(c, _, _, random) => At(s, c).Exchanging? && 0.0 <= random < 1.0
    case ExchangeFail(c) => At(s, c).Exchanging?
    case FailCheck(c) => At(s, c).Failed?
    case Defer(c) => At(s, c).Deferring? && At(s, c).stale < |s.tokens|
    case Publish(c) => At(s, c).Publishing?
    case Invalidate(_) => true
    case Tick(time) => time >= s.now
  }

  function Next(s: State, step: Step): State
    requires Enabled(s, step)
  {
    match step
    case Read(c) => Go(s, c, Checking(s.cur))
    case Check(c) =>
      var seen := At(s, c).seen;
      if Usable(s, seen) then Go(Serve(s, seen.value), c, Outside) else Go(s, c, Waiting)
    case Lock(c) => Go(s.(holder := Some(c)), c, Holding)
    case Reread(c) => Go(s, c, Rechecking(s.cur))
    case Recheck(c) =>
      var seen := At(s, c).seen;
      if Usable(s, seen) then Go(Serve(s, seen.value), c, Outside).(holder := None) else Go(s, c, Exchanging(seen))
    case ExchangeOk(c, accessToken, expiresAt, random) =>
      Go(s, c, Publishing(CachedToken(accessToken, expiresAt,
                                      RefreshAt(s.now, expiresAt, REFRESH_WINDOW, JITTER_FRAC, random))))
    case ExchangeFail(c) => Go(s, c, Failed(At(s, c).seen))
    case FailCheck(c) =>
      var seen := At(s, c).seen;
      if Alive(s, seen) then Go(Serve(s, seen.value), c, Deferring(seen.value)) else Go(s, c, Outside).(holder := None)
    case Defer(c) => Go(DeferRefresh(s, At(s, c).stale), c, Outside).(holder := None)
    case Publish(c) =>
      Go(s.(tokens := s.tokens + [At(s, c).minted], cur := Some(|s.tokens|)), c, Outside).(holder := None)
    case Invalidate(token) => AfterInvalidate(s, token)
    case Tick(time) => s.(now := time)
  }

  ghost predicate Runs(s: State, steps: seq<Step>)
    decreases |steps|
  {
    steps == [] || (Enabled(s, steps[0]) && Runs(Next(s, steps[0]), steps[1..]))
  }

  ghost function After(s: State, steps: seq<Step>): State
    requires Runs(s, steps)
    decreases |steps|
  {
    if steps == [] then s else After(Next(s, steps[0]), steps[1..])
  }

  ghost predicate Initial(s: State) {
    s.tokens == [] && s.cur == None && s.holder == None && s.callers == map[] && s.served == []
  }

  // ---------------------------------------------------------------- the invariant

  /** A token that is not yet due is not yet expired. */
  ghost predicate TokenOk(t: CachedToken, now: int) {
    t.refreshAt <= t.expiresAt || t.refreshAt <= now
  }

  predicate InRefresh(pc: Caller) {
    pc.Holding? || pc.Rechecking? || pc.Exchanging? || pc.Failed? || pc.Deferring? || pc.Publishing?
  }

  function SeenBy(pc: Caller): Option<nat> {
    if pc.Checking? || pc.Rechecking? || pc.Exchanging? || pc.Failed? then pc.seen else None
  }

  /** Refreshing takes the lock; what a caller refers to has been published. */
  ghost predicate CallerOk(s: State, c: nat) {
    && (InRefresh(At(s, c)) ==> s.holder == Some(c))
    && (At(s, c).Publishing? ==> TokenOk(At(s, c).minted, s.now))
    && (At(s, c).Deferring? ==> At(s, c).stale < |s.tokens|)
    && (SeenBy(At(s, c)).Some? ==> SeenBy(At(s, c)).value < |s.tokens|)
  }

  ghost predicate Inv(s: State) {
    && (forall i :: 0 <= i < |s.tokens| ==> TokenOk(s.tokens[i], s.now))
    && (s.cur.Some? ==> s.cur.value < |s.tokens|)
    && (forall c: nat {:trigger CallerOk(s, c)} :: CallerOk(s, c))
    && (forall i :: 0 <= i < |s.served| ==> s.served[i].checkedAt < s.served[i].token.expiresAt)
  }

  /** The caller whose step it is, if it is a caller's. */
  predicate StepOf(step: Step, c: nat) {
    !step.Invalidate? && !step.Tick? && step.c == c
  }

  lemma OwnStep(s: State, step: Step, c: nat)
    requires Inv(s) && Enabled(s, step) && StepOf(step, c)
    ensures CallerOk(Next(s, step), c)
  {
    assert CallerOk(s, c);
    if step.ExchangeOk? { RefreshBeforeExpiry(s.now, step.expiresAt, REFRESH_WINDOW, JITTER_FRAC, step.random); }
  }

  /** A step of one caller leaves every other where it was, and takes the lock from nobody. */
  lemma OtherStep(s: State, step: Step, c: nat)
    requires Inv(s) && Enabled(s, step) && !StepOf(step, c)
    ensures CallerOk(Next(s, step), c)
  {
    assert CallerOk(s, c);
    if !step.Invalidate? && !step.Tick? { assert CallerOk(s, step.c); }
  }

  lemma CallerStep(s: State, step: Step, c: nat)
    requires Inv(s) && Enabled(s, step)
    ensures CallerOk(Next(s, step), c)
  {
    if StepOf(step, c) { OwnStep(s, step, c); } else { OtherStep(s, step, c); }
  }

  lemma TokensStep(s: State, step: Step, i: nat)
    requires Inv(s) && Enabled(s, step) && i < |Next(s, step).tokens|
    ensures TokenOk(Next(s, step).tokens[i], Next(s, step).now)
  {
    if step.Publish? { assert CallerOk(s, step.c); }
  }

  lemma ServedStep(s: State, step: Step, i: nat)
    requires Inv(s) && Enabled(s, step) && i < |Next(s, step).served|
    ensures Next(s, step).served[i].checkedAt < Next(s, step).served[i].token.expiresAt
  {}

  lemma StepKeeps(s: State, step: Step)
    requires Inv(s) && Enabled(s, step)
    ensures Inv(Next(s, step))
  {
    var s' := Next(s, step);
    forall c: nat ensures CallerOk(s', c) { CallerStep(s, step, c); }
    forall i | 0 <= i < |s'.tokens| ensures TokenOk(s'.tokens[i], s'.now) { TokensStep(s, step, i); }
    forall i | 0 <= i < |s'.served|
      ensures s'.served[i].checkedAt < s'.served[i].token.expiresAt
    {
      ServedStep(s, step, i);
    }
  }

  lemma {:induction false} RunKeeps(s: State, steps: seq<Step>)
    requires Inv(s) && Runs(s, steps)
    ensures Inv(After(s, steps))
    decreases |steps|
  {
    if steps != [] {
      StepKeeps(s, steps[0]);
      RunKeeps(Next(s, steps[0]), steps[1..]);
    }
  }

  // ---------------------------------------------------------------- guarantees

  /** Every key served from the cache was unexpired when it was checked. */
  lemma ServedUnexpired(s0: State, steps: seq<Step>, i: nat)
    requires Initial(s0) && Runs(s0, steps) && i < |After(s0, steps).served|
    ensures After(s0, steps).served[i].checkedAt < After(s0, steps).served[i].token.expiresAt
  {
    RunKeeps(s0, steps);
  }

  /** At most one caller is refreshing; in particular at most one exchange is in flight. */
  lemma SingleFlight(s0: State, steps: seq<Step>, c: nat, d: nat)
    requires Initial(s0) && Runs(s0, steps)
    requires InRefresh(At(After(s0, steps), c)) && InRefresh(At(After(s0, steps), d))
    ensures c == d
  {
    RunKeeps(s0, steps);
    assert CallerOk(After(s0, steps), c) && CallerOk(After(s0, steps), d);
  }

  // ---------------------------------------------------------------- everyone reuses the result of a refresh

  /** Token `i` is current and not yet due, and whoever holds the refresh lock has seen no other. */
  ghost predicate Settled(s: State, i: nat) {
    && Inv(s) && s.cur == Some(i) && Usable(s, s.cur)
    && forall c: nat {:trigger CallerSettled(s, i, c)} :: CallerSettled(s, i, c)
  }

  ghost predicate CallerSettled(s: State, i: nat, c: nat) {
    InRefresh(At(s, c)) ==> At(s, c).Holding? || At(s, c) == Rechecking(Some(i))
  }

  /** Token `i` has not become due by this step, nor is it dropped. */
  ghost predicate Leaves(s: State, i: nat, step: Step) {
    && Enabled(s, step) && i < |s.tokens| && step != Invalidate(s.tokens[i].accessToken)
    && Next(s, step).now < s.tokens[i].refreshAt
  }

  lemma SettledCaller(s: State, i: nat, step: Step, c: nat)
    requires Settled(s, i) && Leaves(s, i, step)
    ensures CallerSettled(Next(s, step), i, c)
  {
    assert CallerSettled(s, i, c);
  }

  lemma SettledStep(s: State, i: nat, step: Step)
    requires Settled(s, i) && Leaves(s, i, step)
    ensures Settled(Next(s, step), i) && Next(s, step).tokens == s.tokens
    ensures step.Recheck? ==> Next(s, step).served == s.served + [Service(s.tokens[i], s.now)]
    ensures step.Recheck? ==> At(Next(s, step), step.c).Outside?
  {
    StepKeeps(s, step);
    if !step.Invalidate? && !step.Tick? { assert CallerSettled(s, i, step.c); }
    forall c: nat ensures CallerSettled(Next(s, step), i, c) { SettledCaller(s, i, step, c); }
  }

  /** How many exchanges a run starts. */
  ghost function Exchanges(s: State, steps: seq<Step>): nat
    requires Runs(s, steps)
    decreases |steps|
  {
    if steps == [] then 0
    else (if Exchanged(s, steps[0]) then 1 else 0) + Exchanges(Next(s, steps[0]), steps[1..])
  }

  ghost predicate Exchanged(s: State, step: Step)
    requires Enabled(s, step)
  {
    step.Recheck? && At(Next(s, step), step.c).Exchanging?
  }

  /** Every caller that takes the refresh lock in this run is served this token. */
  ghost predicate Reuses(s: State, steps: seq<Step>, t: CachedToken)
    requires Runs(s, steps)
    decreases |steps|
  {
    steps == [] ||
    (&& (steps[0].Recheck? ==> Next(s, steps[0]).served == s.served + [Service(t, s.now)])
     && Reuses(Next(s, steps[0]), steps[1..], t))
  }

  lemma {:induction false} TimePasses(s: State, steps: seq<Step>)
    requires Runs(s, steps)
    ensures s.now <= After(s, steps).now
    decreases |steps|
  {
    if steps != [] { TimePasses(Next(s, steps[0]), steps[1..]); }
  }

  /** From a settled state on, until the token is due or invalidated, it stays current, no exchange starts, and whoever
      takes the refresh lock is served it. */
  lemma {:induction false} SettledRun(s: State, i: nat, steps: seq<Step>)
    requires Settled(s, i) && Runs(s, steps)
    requires Invalidate(s.tokens[i].accessToken) !in steps && After(s, steps).now < s.tokens[i].refreshAt
    ensures Settled(After(s, steps), i) && After(s, steps).tokens == s.tokens
    ensures Exchanges(s, steps) == 0 && Reuses(s, steps, s.tokens[i])
    decreases |steps|
  {
    if steps != [] {
      TimePasses(Next(s, steps[0]), steps[1..]);
      assert steps[0] in steps;
      SettledStep(s, i, steps[0]);
      SettledRun(Next(s, steps[0]), i, steps[1..]);
    }
  }

  /** When the holder leaves, nobody else is refreshing. */
  lemma LockFree(s: State, c: nat, d: nat)
    requires Inv(s) && InRefresh(At(s, c)) && InRefresh(At(s, d))
    ensures c == d
  {
    assert CallerOk(s, c) && CallerOk(s, d);
  }

  lemma PublishSettles(s: State, c: nat)
    requires Inv(s) && Enabled(s, Publish(c)) && s.now < At(s, c).minted.refreshAt
    ensures Settled(Next(s, Publish(c)), |s.tokens|)
  {
    StepKeeps(s, Publish(c));
    forall d: nat ensures CallerSettled(Next(s, Publish(c)), |s.tokens|, d) {
      if InRefresh(At(s, d)) { LockFree(s, c, d); }
    }
  }

  lemma DeferSettles(s: State, c: nat)
    requires Inv(s) && Enabled(s, Defer(c)) && s.cur == Some(At(s, c).stale) && Alive(s, s.cur)
    ensures var s' := Next(s, Defer(c)); s'.cur.Some? && Settled(s', s'.cur.value)
  {
    var s' := Next(s, Defer(c));
    StepKeeps(s, Defer(c));
    DeferBuysTime(s, c);
    forall d: nat ensures CallerSettled(s', s'.cur.value, d) {
      if InRefresh(At(s, d)) { LockFree(s, c, d); }
    }
  }

  /** One refresh serves everyone: after a token is published that is not yet due, no caller starts an exchange until it
      is due or invalidated, and whoever waited for the refresh lock is served it. */
  lemma PublishedIsReused(s0: State, before: seq<Step>, c: nat, steps: seq<Step>)
    requires Initial(s0) && Runs(s0, before) && Enabled(After(s0, before), Publish(c))
    requires After(s0, before).now < At(After(s0, before), c).minted.refreshAt
    requires Runs(Next(After(s0, before), Publish(c)), steps)
    requires Invalidate(At(After(s0, before), c).minted.accessToken) !in steps
    requires After(Next(After(s0, before), Publish(c)), steps).now < At(After(s0, before), c).minted.refreshAt
    ensures var s, t := Next(After(s0, before), Publish(c)), At(After(s0, before), c).minted;
            && Exchanges(s, steps) == 0 && Reuses(s, steps, t)
            && After(s, steps).cur.Some? && After(s, steps).cur.value < |After(s, steps).tokens|
            && After(s, steps).tokens[After(s, steps).cur.value] == t
  {
    var s := After(s0, before);
    RunKeeps(s0, before);
    PublishSettles(s, c);
    SettledRun(Next(s, Publish(c)), |s.tokens|, steps);
  }

  /** The same after a failed refresh of a live key: callers reuse the deferred token instead of retrying each. */
  lemma DeferredIsReused(s0: State, before: seq<Step>, c: nat, steps: seq<Step>)
    requires Initial(s0) && Runs(s0, before) && Enabled(After(s0, before), Defer(c))
    requires After(s0, before).cur == Some(At(After(s0, before), c).stale)
             && Alive(After(s0, before), After(s0, before).cur)
    requires Runs(Next(After(s0, before), Defer(c)), steps)
    ensures var s := Next(After(s0, before), Defer(c));
            && s.cur.Some? && s.cur.value < |s.tokens|
            && (var t := s.tokens[s.cur.value];
                Invalidate(t.accessToken) !in steps && After(s, steps).now < t.refreshAt ==>
                  Exchanges(s, steps) == 0 && Reuses(s, steps, t))
  {
    var s := After(s0, before);
    RunKeeps(s0, before);
    DeferSettles(s, c);
    var s' := Next(s, Defer(c));
    var t := s'.tokens[s'.cur.value];
    if Invalidate(t.accessToken) !in steps && After(s', steps).now < t.refreshAt {
      SettledRun(s', s'.cur.value, steps);
    }
  }

  function CurrentKey(s: State): Option<string> {
    if s.cur.Some? && s.cur.value < |s.tokens| then Some(s.tokens[s.cur.value].accessToken) else None
  }

  /** A failed refresh never defers past the hard expiry, keeps the key and its expiry, and touches only the token it
      was called for. */
  lemma DeferBounded(s: State, c: nat)
    requires Inv(s) && Enabled(s, Defer(c))
    ensures var s', stale := Next(s, Defer(c)), At(s, c).stale;
            && (s.cur != Some(stale) ==> s'.cur == s.cur && s'.tokens == s.tokens)
            && (s.cur == Some(stale) ==>
                  && s'.cur.Some? && s'.cur.value < |s'.tokens|
                  && s'.tokens[s'.cur.value].accessToken == s.tokens[stale].accessToken
                  && s'.tokens[s'.cur.value].expiresAt == s.tokens[stale].expiresAt
                  && (s'.cur != s.cur ==>
                        s.tokens[stale].refreshAt < s'.tokens[s'.cur.value].refreshAt <= s.tokens[stale].expiresAt))
  {}

  /** While the key is alive, a failed refresh leaves a token that later callers are served from. */
  lemma DeferBuysTime(s: State, c: nat)
    requires Inv(s) && Enabled(s, Defer(c)) && s.cur == Some(At(s, c).stale) && Alive(s, s.cur)
    ensures Usable(Next(s, Defer(c)), Next(s, Defer(c)).cur)
  {}

  /** The current key changes only when a fresh one is published or when it is itself invalidated. */
  lemma KeyChanges(s: State, step: Step)
    requires Inv(s) && Enabled(s, step)
    ensures || CurrentKey(Next(s, step)) == CurrentKey(s)
            || step.Publish?
            || (step.Invalidate? && CurrentKey(s) == Some(step.token) && CurrentKey(Next(s, step)) == None)
  {}
}

/** The process-wide credential cache, bounded by insertion order. */
module CredentialCache {
  const MAX_CACHED_CREDENTIALS: nat := 32

  class Credential {}

  /** The cached keys after a request for `key`: unchanged if known, otherwise appended after the oldest ones made
      room. */
  function AfterRequest(order: seq<string>, key: string): seq<string> {
    if key in order then order
    else (if |order| >= MAX_CACHED_CREDENTIALS then order[|order| - MAX_CACHED_CREDENTIALS + 1..] else order) + [key]
  }

  class SharedCredentials {
    var cache: map<string, Credential>
    var order: seq<string>

    /** The order lists each cached key once, within the bound. */
    ghost predicate Valid()
      reads this
    {
      && |order| <= MAX_CACHED_CREDENTIALS
      && (forall k :: k in cache <==> k in order)
      && (forall i, j :: 0 <= i < j < |order| ==> order[i] != order[j])
    }

    constructor ()
      ensures Valid() && order == []
    {
      cache, order := map[], [];
    }

    /** The credential of the key: the cached one as long as it is cached, so its token cache persists. */
    method Shared(key: string) returns (c: Credential)
      requires Valid()
      modifies this
      ensures Valid() && order == AfterRequest(old(order), key)
      ensures key in cache && cache[key] == c
      ensures key in old(cache) ==> cache == old(cache)
      ensures key !in old(cache) ==> fresh(c)
      ensures forall k :: k in cache && k != key ==> k in old(cache) && cache[k] == old(cache)[k]
    {
      if key in cache { return cache[key]; }
      MakeRoom();
      c := new Credential;
      cache := cache[key := c];
      order := order + [key];
    }

    /** Drops the oldest keys until one more fits. */
    method MakeRoom()
      requires Valid()
      modifies this
      ensures Valid() && |order| < MAX_CACHED_CREDENTIALS
      ensures order == if |old(order)| >= MAX_CACHED_CREDENTIALS
              then old(order)[|old(order)| - MAX_CACHED_CREDENTIALS + 1..] else old(order)
      ensures forall k :: k in cache ==> k in old(cache) && cache[k] == old(cache)[k]
    {
      while |order| >= MAX_CACHED_CREDENTIALS
        invariant |order| <= |old(order)| && order == old(order)[|old(order)| - |order|..]
        invariant |order| < |old(order)| ==> |order| >= MAX_CACHED_CREDENTIALS - 1
        invariant Valid()
        invariant forall k :: k in cache ==> k in old(cache) && cache[k] == old(cache)[k]
      {
        cache := cache - {order[0]};
        order := order[1..];
      }
    }
  }
}
