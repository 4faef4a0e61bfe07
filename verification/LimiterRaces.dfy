/** Failures and clears at the same time, by any number of workers: the INCR, EXPIRE and SETEX of each
    failure and the DEL of each clear interleave in any way. One counter and its lock are modelled: a
    failure touches two counters, each by these three commands in this order, and no command that writes
    ties them together. The clock stands while calls overlap. */
module LimiterRaces {
  import opened Basics
  import opened Redis
  import opened Runs
  import LoginLimiter

  type Actor = int

  /** How far a failure is with this counter; `count` is what its INCR returned. */
  datatype Phase = Counted(count: int) | Refreshed(count: int) | Finished(count: int)

  /** A counter without an expiry time is one that INCR has just created. */
  datatype Counter = Counter(value: int, expires: Option<int>)

  datatype Op = Fail | Clear

  /** `order`: the calls in the order of their INCR and DEL commands. */
  datatype State = State(counter: Option<Counter>, lock: Option<int>, calls: map<Actor, Phase>, order: seq<Op>)

  datatype Config = Config(now: int, maxAttempts: int, lockSeconds: int) {
    function Expiry(): Option<int> {
      Some(now + LoginLimiter.FAIL_COUNTER_TTL)
    }

    function LockEnd(): Option<int> {
      Some(now + lockSeconds)
    }
  }

  datatype Event = Incr(actor: Actor) | Expire(actor: Actor) | Lock(actor: Actor) | Delete

  function Step(cfg: Config, s: State, e: Event): Option<State> {
    match e
    case Incr(a) =>
      if a in s.calls then None
      else
        var counter :=
          if s.counter.Some? then s.counter.value.(value := s.counter.value.value + 1) else Counter(1, None);
        Some(s.(counter := Some(counter), calls := s.calls[a := Counted(counter.value)], order := s.order + [Fail]))
    case Expire(a) =>
      if a !in s.calls || !s.calls[a].Counted? then None
      else
        // on a counter that a clear has deleted the command does nothing
        var counter := if s.counter.Some? then Some(s.counter.value.(expires := cfg.Expiry())) else None;
        Some(s.(counter := counter, calls := s.calls[a := Refreshed(s.calls[a].count)]))
    case Lock(a) =>
      if a !in s.calls || !s.calls[a].Refreshed? then None
      else Some(s.(lock := if s.calls[a].count > cfg.maxAttempts then cfg.LockEnd() else s.lock,
                   calls := s.calls[a := Finished(s.calls[a].count)]))
    case Delete => Some(s.(counter := None, order := s.order + [Clear]))
  }

  function StepOf(cfg: Config): (State, Event) -> Option<State> {
    (s: State, e: Event) => Step(cfg, s, e)
  }

  function After(cfg: Config, s: State, events: seq<Event>): Option<State> {
    Run(StepOf(cfg), s, events)
  }

  /** What a counter counts: zero when it is not there. */
  function Count(counter: Option<Counter>): int {
    if counter.Some? then counter.value.value else 0
  }

  /** The counter and the lock after the calls one after another. */
  function OneByOne(cfg: Config, counter: Option<Counter>, lock: Option<int>, order: seq<Op>)
    : (Option<Counter>, Option<int>)
  {
    if order == [] then (counter, lock)
    else
      var (c, l) := OneByOne(cfg, counter, lock, order[..|order| - 1]);
      match order[|order| - 1]
      case Fail =>
        (Some(Counter(Count(c) + 1, cfg.Expiry())), if Count(c) + 1 > cfg.maxAttempts then cfg.LockEnd() else l)
      case Clear => (None, l)
  }

  lemma OneMore(cfg: Config, counter: Option<Counter>, lock: Option<int>, order: seq<Op>, op: Op)
    ensures var (c, l) := OneByOne(cfg, counter, lock, order);
      OneByOne(cfg, counter, lock, order + [op]) == match op
        case Fail =>
          (Some(Counter(Count(c) + 1, cfg.Expiry())), if Count(c) + 1 > cfg.maxAttempts then cfg.LockEnd() else l)
        case Clear => (None, l)
  {
    assert (order + [op])[..|order|] == order;
  }

  type Key = LoginLimiter.Key

  /** The counter and the lock of a key as the limiter stores them. */
  ghost function CounterOf(fails: Db<Key, nat>, now: int, k: Key): Option<Counter> {
    if Alive(fails, now, k) then Some(Counter(fails[k].value, Some(fails[k].expires))) else None
  }

  ghost function LockOf(locks: Db<Key, string>, k: Key): Option<int> {
    if k in locks then Some(locks[k].expires) else None
  }

  /** One call alone does to a live, expired or missing counter what the limiter does. */
  lemma OneCallIsTheLimiters(cfg: Config, fails: Db<Key, nat>, locks: Db<Key, string>, k: Key)
    ensures var fails' := LoginLimiter.Bump(fails, cfg.now, k);
      var locks' := LoginLimiter.LockIf(locks, cfg.now, k, fails'[k].value > cfg.maxAttempts, cfg.lockSeconds);
      OneByOne(cfg, CounterOf(fails, cfg.now, k), LockOf(locks, k), [Fail])
        == (CounterOf(fails', cfg.now, k), LockOf(locks', k))
    ensures OneByOne(cfg, CounterOf(fails, cfg.now, k), LockOf(locks, k), [Clear])
         == (CounterOf(fails - {k}, cfg.now, k), LockOf(locks, k))
  {
    assert OneByOne(cfg, CounterOf(fails, cfg.now, k), LockOf(locks, k), [])
        == (CounterOf(fails, cfg.now, k), LockOf(locks, k));
    assert [Fail] == [] + [Fail] && [Clear] == [] + [Clear];
    OneMore(cfg, CounterOf(fails, cfg.now, k), LockOf(locks, k), [], Fail);
    OneMore(cfg, CounterOf(fails, cfg.now, k), LockOf(locks, k), [], Clear);
  }

  /** One failure and one clear, with no other call between their commands. */
  lemma CallsAlone(cfg: Config, s: State, a: Actor)
    requires a !in s.calls
    ensures var count := if s.counter.Some? then s.counter.value.value + 1 else 1;
      After(cfg, s, [Incr(a), Expire(a), Lock(a)])
        == Some(State(Some(Counter(count, Some(cfg.now + 60))),
                      if count > cfg.maxAttempts then Some(cfg.now + cfg.lockSeconds) else s.lock,
                      s.calls[a := Finished(count)], s.order + [Fail]))
    ensures After(cfg, s, [Delete]) == Some(State(None, s.lock, s.calls, s.order + [Clear]))
  {
    var s1 := Step(cfg, s, Incr(a)).value;
    var s2 := Step(cfg, s1, Expire(a)).value;
    var s3 := Step(cfg, s2, Lock(a)).value;
    assert s3.calls == s.calls[a := Finished(s1.calls[a].count)];
    RunThree(StepOf(cfg), s, Incr(a), s1, Expire(a), s2, Lock(a));
    RunOne(StepOf(cfg), s, Delete);
  }

  predicate AllFinished(s: State) {
    forall a :: a in s.calls ==> s.calls[a].Finished?
  }

  // ---- the invariant ----

  /** The counter is the one of the calls in order, but that its expiry may still be to come. */
  ghost predicate CounterInv(cfg: Config, s0: State, s: State) {
    var (c, _) := OneByOne(cfg, s0.counter, s0.lock, s.order);
    && (s.counter.Some? <==> c.Some?) && Count(s.counter) == Count(c)
    && (s.order == [] ==> s.calls == map[] && s.counter == s0.counter)
    && (s.order != [] && s.counter.Some? ==>
          c.value.expires == cfg.Expiry()
          && (s.counter.value.expires == cfg.Expiry() || exists a :: a in s.calls && s.calls[a].Counted?))
  }

  predicate SomeExceeds(cfg: Config, s: State, finishedOnly: bool) {
    exists a :: a in s.calls && s.calls[a].count > cfg.maxAttempts && (finishedOnly ==> s.calls[a].Finished?)
  }

  /** The lock of the calls in order is set when some count exceeds, the lock so far when a finished one does. */
  ghost predicate LockInv(cfg: Config, s0: State, s: State) {
    && OneByOne(cfg, s0.counter, s0.lock, s.order).1 == (if SomeExceeds(cfg, s, false) then cfg.LockEnd() else s0.lock)
    && s.lock == (if SomeExceeds(cfg, s, true) then cfg.LockEnd() else s0.lock)
  }

  ghost predicate Inv(cfg: Config, s0: State, s: State) {
    CounterInv(cfg, s0, s) && LockInv(cfg, s0, s)
  }

  lemma StepKeepsCounter(cfg: Config, s0: State, s: State, e: Event)
    requires CounterInv(cfg, s0, s) && Step(cfg, s, e).Some?
    ensures CounterInv(cfg, s0, Step(cfg, s, e).value)
  {
    var s' := Step(cfg, s, e).value;
    match e {
      case Incr(a) =>
        OneMore(cfg, s0.counter, s0.lock, s.order, Fail);
        assert a in s'.calls && s'.calls[a].Counted?;
      case Delete =>
        OneMore(cfg, s0.counter, s0.lock, s.order, Clear);
      case Expire(_) =>
      case Lock(a) =>
        if x :| x in s.calls && s.calls[x].Counted? {
          assert x != a && x in s'.calls && s'.calls[x].Counted?;
        }
    }
  }

  /** A step leaves the counts of the calls as they are, and adds at most the one of an INCR. */
  lemma CountsStay(cfg: Config, s: State, e: Event, finishedOnly: bool)
    requires Step(cfg, s, e).Some?
    ensures var s' := Step(cfg, s, e).value;
      SomeExceeds(cfg, s', finishedOnly) <==>
        || SomeExceeds(cfg, s, finishedOnly)
        || (e.Incr? && !finishedOnly && Count(s.counter) + 1 > cfg.maxAttempts)
        || (e.Lock? && s.calls[e.actor].count > cfg.maxAttempts)
  {
    var s' := Step(cfg, s, e).value;
    if SomeExceeds(cfg, s, finishedOnly) {
      var a :| a in s.calls && s.calls[a].count > cfg.maxAttempts && (finishedOnly ==> s.calls[a].Finished?);
      assert a in s'.calls && s'.calls[a].count > cfg.maxAttempts && (finishedOnly ==> s'.calls[a].Finished?);
    }
    if SomeExceeds(cfg, s', finishedOnly) {
      var a :| a in s'.calls && s'.calls[a].count > cfg.maxAttempts && (finishedOnly ==> s'.calls[a].Finished?);
      assert (e.Incr? && a == e.actor) || a in s.calls;
    }
    if e.Incr? || e.Lock? {
      assert e.actor in s'.calls;
    }
  }

  lemma StepKeepsLock(cfg: Config, s0: State, s: State, e: Event)
    requires CounterInv(cfg, s0, s) && LockInv(cfg, s0, s) && Step(cfg, s, e).Some?
    ensures LockInv(cfg, s0, Step(cfg, s, e).value)
  {
    CountsStay(cfg, s, e, false);
    CountsStay(cfg, s, e, true);
    if e.Incr? {
      OneMore(cfg, s0.counter, s0.lock, s.order, Fail);
    } else if e.Delete? {
      OneMore(cfg, s0.counter, s0.lock, s.order, Clear);
    } else if e.Lock? && s.calls[e.actor].count > cfg.maxAttempts {
      assert SomeExceeds(cfg, s, false);
    }
  }

  /** The call that takes its place in the order with this command, if any. */
  function OpOf(e: Event): seq<Op> {
    match e
    case Incr(_) => [Fail]
    case Delete => [Clear]
    case _ => []
  }

  /** The calls of a run in the order of their INCR and DEL commands. */
  function OpsOf(events: seq<Event>): seq<Op> {
    if events == [] then [] else OpOf(events[0]) + OpsOf(events[1..])
  }

  lemma StepOrder(cfg: Config, s: State, e: Event)
    requires Step(cfg, s, e).Some?
    ensures Step(cfg, s, e).value.order == s.order + OpOf(e)
  {
  }

  lemma Regroup(a: seq<Op>, b: seq<Op>, c: seq<Op>)
    ensures a + b + c == a + (b + c)
  {
  }

  lemma {:induction false} OrderIsOps(cfg: Config, s: State, events: seq<Event>)
    requires After(cfg, s, events).Some?
    ensures After(cfg, s, events).value.order == s.order + OpsOf(events)
    decreases |events|
  {
    if events != [] {
      StepOrder(cfg, s, events[0]);
      OrderIsOps(cfg, Step(cfg, s, events[0]).value, events[1..]);
      Regroup(s.order, OpOf(events[0]), OpsOf(events[1..]));
    }
  }

  /** However the commands interleave: once all calls have returned, the counter and the lock are those
      of the same calls one after another, in the order of their INCR and DEL commands. */
  lemma InterleavedAsOneByOne(cfg: Config, s0: State, events: seq<Event>)
    requires s0.calls == map[] && s0.order == []
    requires After(cfg, s0, events).Some? && AllFinished(After(cfg, s0, events).value)
    ensures var s := After(cfg, s0, events).value;
      (s.counter, s.lock) == OneByOne(cfg, s0.counter, s0.lock, OpsOf(events))
  {
    OrderIsOps(cfg, s0, events);
    assert s0.order + OpsOf(events) == OpsOf(events);
    forall s: State, e: Event {:trigger StepOf(cfg)(s, e)} | Inv(cfg, s0, s) && StepOf(cfg)(s, e).Some?
      ensures Inv(cfg, s0, StepOf(cfg)(s, e).value)
    {
      StepKeepsCounter(cfg, s0, s, e);
      StepKeepsLock(cfg, s0, s, e);
    }
    RunKeeps(StepOf(cfg), (s: State) => Inv(cfg, s0, s), s0, events);
    Settled(cfg, s0, After(cfg, s0, events).value);
  }

  lemma Settled(cfg: Config, s0: State, s: State)
    requires Inv(cfg, s0, s) && AllFinished(s)
    ensures (s.counter, s.lock) == OneByOne(cfg, s0.counter, s0.lock, s.order)
  {
    assert SomeExceeds(cfg, s, false) <==> SomeExceeds(cfg, s, true);
  }
}
