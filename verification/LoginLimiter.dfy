/** The login limiter: failure counters with refreshed expiry and lock keys in Redis, proved to
    compute a property of the history of failed and successful logins. */
module LoginLimiter {
  import opened Basics
  import opened Redis

  const FAIL_COUNTER_TTL := 60

  datatype Key = Ip(ip: string) | User(user: string)

  /** Users are normalised. A failure carries the settings in force when it happened. */
  datatype Event =
    | Failure(at: int, ip: string, user: string, maxAttempts: int, lockSeconds: int)
    | Clear(at: int, ip: string, user: string)

  /** `user` is the one the name stands for: the name stripped and in lower case, "_" when it is blank. */
  ghost predicate IsUser(name: string, user: string) {
    exists core :: Trims(name, core) && if core == "" then user == "_" else Lowers(core, user)
  }

  function Normalise(username: string): (user: string)
    ensures IsUser(username, user)
  {
    var u := Lower(Strip(username));
    if u == "" then "_" else u
  }

  /** Every name stands for one user. */
  lemma OneUser(name: string)
    ensures forall user :: IsUser(name, user) <==> user == Normalise(name)
  {
    forall user | IsUser(name, user)
      ensures user == Normalise(name)
    {
      var core :| Trims(name, core) && if core == "" then user == "_" else Lowers(core, user);
      TrimsOneWay(name, core, Strip(name));
      if core != "" {
        LoweredAlike(core, user, core, Normalise(name));
      }
    }
  }

  /** Names that are not blank stand for the same user exactly when they differ in case and outer white
      space only. */
  lemma SameUserIff(name: string, core: string, name': string, core': string)
    requires Trims(name, core) && core != "" && Trims(name', core') && core' != ""
    ensures (exists user :: IsUser(name, user) && IsUser(name', user)) <==> SameLetters(core, core')
  {
    TrimsOneWay(name, core, Strip(name));
    TrimsOneWay(name', core', Strip(name'));
    LoweredAlike(core, Normalise(name), core', Normalise(name'));
    OneUser(name);
    OneUser(name');
    assert IsUser(name, Normalise(name));
  }

  predicate Concerns(e: Event, k: Key) {
    match k
    case Ip(ip) => e.ip == ip
    case User(user) => e.user == user
  }

  // ---- the history specification ----

  /** The events of `k` from index `j` on are all failures, the first of them at `j`, and each later
      one follows an earlier one of the chain by less than 60 seconds. */
  ghost predicate IsChain(h: seq<Event>, k: Key, j: int) {
    && 0 <= j < |h|
    && Concerns(h[j], k) && h[j].Failure?
    && forall m :: j < m < |h| ==> Follows(h, k, j, m)
  }

  /** The event at `m` is of another key, or a failure soon after an earlier event of the chain. */
  ghost predicate Follows(h: seq<Event>, k: Key, j: int, m: int)
    requires 0 <= j <= m < |h|
  {
    Concerns(h[m], k) ==>
      h[m].Failure? && exists l :: j <= l < m && Concerns(h[l], k) && h[m].at - h[l].at < 60
  }

  /** The number of events of `k` from index `j` on. */
  function Count(h: seq<Event>, k: Key, j: int): nat {
    if |h| <= j || h == [] then 0
    else Count(h[..|h| - 1], k, j) + if Concerns(h[|h| - 1], k) then 1 else 0
  }

  /** The last event is a failure of `k` that ends a chain of more than its `maxAttempts` failures. */
  ghost predicate TooMany(h: seq<Event>, k: Key) {
    && h != []
    && Concerns(h[|h| - 1], k) && h[|h| - 1].Failure?
    && exists j :: IsChain(h, k, j) && Count(h, k, j) > h[|h| - 1].maxAttempts
  }

  /** Some failure of `k` within the last `lock` seconds ended a chain that was too long. */
  ghost predicate KeyLocked(h: seq<Event>, k: Key, lock: int, t: int) {
    exists i :: LocksAt(h, k, lock, t, i)
  }

  ghost predicate LocksAt(h: seq<Event>, k: Key, lock: int, t: int, i: int) {
    0 <= i < |h| && h[i].at <= t < h[i].at + lock && TooMany(h[..i + 1], k)
  }

  ghost predicate Chronological(h: seq<Event>, now: int) {
    && (forall i :: 0 <= i < |h| ==> h[i].at <= now)
    && (forall i, j :: 0 <= i < j < |h| ==> h[i].at <= h[j].at)
  }

  ghost predicate ConstantLock(h: seq<Event>, lock: int) {
    forall i :: 0 <= i < |h| && h[i].Failure? ==> h[i].lockSeconds == lock
  }

  // ---- what the counters and locks hold ----

  /** The failures of `k` in the chain that is still open, and 0 after a clear. */
  function ChainLength(h: seq<Event>, k: Key): nat {
    if h == [] then 0
    else
      var front, e := h[..|h| - 1], h[|h| - 1];
      if !Concerns(e, k) then ChainLength(front, k)
      else if e.Clear? then 0
      else if e.at < LastFailure(front, k) + FAIL_COUNTER_TTL then ChainLength(front, k) + 1
      else 1
  }

  /** The time of the latest event of `k`. */
  function LastFailure(h: seq<Event>, k: Key): int {
    if h == [] then 0
    else if Concerns(h[|h| - 1], k) then h[|h| - 1].at
    else LastFailure(h[..|h| - 1], k)
  }

  /** The index where the open chain of `k` starts. */
  function ChainStart(h: seq<Event>, k: Key): int {
    if h == [] then 0
    else
      var n := |h| - 1;
      var front, e := h[..n], h[n];
      if !Concerns(e, k) then ChainStart(front, k)
      else if e.Clear? then |h|
      else if ChainLength(front, k) > 0 && e.at < LastFailure(front, k) + FAIL_COUNTER_TTL then ChainStart(front, k)
      else n
  }

  function LockUntil(h: seq<Event>, k: Key): Option<int> {
    if h == [] then None
    else
      var e := h[|h| - 1];
      if Concerns(e, k) && e.Failure? && ChainLength(h, k) > e.maxAttempts then Some(e.at + e.lockSeconds)
      else LockUntil(h[..|h| - 1], k)
  }

  /** Events of other users and other addresses alone lock nobody out. */
  lemma OthersDoNotLock(h: seq<Event>, ip: string, user: string, t: int)
    ensures LockedByLatest(h, Ip(ip), t) ==> exists i :: 0 <= i < |h| && h[i].Failure? && h[i].ip == ip
    ensures LockedByLatest(h, User(user), t) ==> exists i :: 0 <= i < |h| && h[i].Failure? && h[i].user == user
  {
    LatestIsFailure(h, Ip(ip), t);
    LatestIsFailure(h, User(user), t);
  }

  lemma LatestIsFailure(h: seq<Event>, k: Key, t: int)
    ensures LockedByLatest(h, k, t) ==> exists i :: 0 <= i < |h| && h[i].Failure? && Concerns(h[i], k)
  {
    if LockedByLatest(h, k, t) {
      var i :| LastTooMany(h, k, i) && h[i].Failure? && t < h[i].at + h[i].lockSeconds;
      assert h[..i + 1][i] == h[i];
    }
  }

  // ---- the counters compute the history property ----

  lemma {:induction false} LastEvent(h: seq<Event>, k: Key, s: int) returns (l: int)
    requires Chronological(h, if h == [] then 0 else h[|h| - 1].at)
    requires 0 <= s < |h| && Concerns(h[s], k)
    ensures s <= l < |h| && Concerns(h[l], k) && h[l].at == LastFailure(h, k)
    ensures forall m :: 0 <= m < |h| && Concerns(h[m], k) ==> h[m].at <= LastFailure(h, k)
    decreases |h|
  {
    var n := |h| - 1;
    if Concerns(h[n], k) {
      l := n;
    } else {
      l := LastEvent(h[..n], k, s);
      assert forall m :: 0 <= m < n ==> h[..n][m] == h[m];
    }
  }

  lemma FollowsStays(h: seq<Event>, k: Key, j: int, m: int, e: Event)
    requires 0 <= j <= m < |h|
    ensures Follows(h + [e], k, j, m) <==> Follows(h, k, j, m)
  {
    assert forall l :: 0 <= l < |h| ==> (h + [e])[l] == h[l];
  }

  lemma LastFollows(h: seq<Event>, k: Key, j: int, e: Event)
    requires Chronological(h, e.at) && 0 <= j < |h| && Concerns(h[j], k) && Concerns(e, k)
    ensures Follows(h + [e], k, j, |h|) <==> e.Failure? && e.at < LastFailure(h, k) + FAIL_COUNTER_TTL
  {
    var g := h + [e];
    var l := LastEvent(h, k, j);
    assert g[l] == h[l] && g[|h|] == e;
    if Follows(g, k, j, |h|) {
      var x :| j <= x < |h| && Concerns(g[x], k) && g[|h|].at - g[x].at < FAIL_COUNTER_TTL;
      assert g[x] == h[x];
    }
  }

  /** Appending an event extends a chain exactly when the event is of another key, or a failure soon
      after the latest one. */
  lemma ChainExtends(h: seq<Event>, k: Key, j: int, e: Event)
    requires Chronological(h, e.at) && 0 <= j < |h|
    ensures IsChain(h + [e], k, j) <==>
      IsChain(h, k, j) && (Concerns(e, k) ==> e.Failure? && e.at < LastFailure(h, k) + FAIL_COUNTER_TTL)
  {
    var g := h + [e];
    assert g[j] == h[j] && g[|h|] == e;
    if Concerns(h[j], k) {
      if Concerns(e, k) {
        LastFollows(h, k, j, e);
      }
      forall m | j < m < |h|
        ensures Follows(g, k, j, m) <==> Follows(h, k, j, m)
      {
        FollowsStays(h, k, j, m, e);
      }
      assert IsChain(g, k, j) ==> Follows(g, k, j, |h|);
    }
  }

  lemma {:induction false} CountFromEnd(h: seq<Event>, k: Key, j: int)
    requires |h| <= j
    ensures Count(h, k, j) == 0
  {
  }

  /** No chain that ends now is longer than the counter says. */
  lemma {:induction false} NoLongerChain(h: seq<Event>, k: Key, j: int)
    requires h != [] && Chronological(h, h[|h| - 1].at) && IsChain(h, k, j)
    ensures Count(h, k, j) <= ChainLength(h, k)
    decreases |h|
  {
    var n := |h| - 1;
    var front, e := h[..n], h[n];
    assert h == front + [e];
    if j < n {
      ChainExtends(front, k, j, e);
      NoLongerChain(front, k, j);
    } else {
      CountFromEnd(front, k, j);
    }
  }

  /** A positive counter is the length of a chain that ends now. */
  lemma {:induction false} ChainAttained(h: seq<Event>, k: Key)
    requires h != [] && Chronological(h, h[|h| - 1].at) && ChainLength(h, k) > 0
    ensures IsChain(h, k, ChainStart(h, k)) && Count(h, k, ChainStart(h, k)) == ChainLength(h, k)
    decreases |h|
  {
    var n := |h| - 1;
    var front, e := h[..n], h[n];
    assert h == front + [e];
    var s := ChainStart(h, k);
    if !Concerns(e, k) || (ChainLength(front, k) > 0 && e.at < LastFailure(front, k) + FAIL_COUNTER_TTL) {
      ChainAttained(front, k);
      ChainExtends(front, k, s, e);
    } else {
      CountFromEnd(front, k, n);
    }
  }

  lemma TooManyIsCounted(h: seq<Event>, k: Key)
    requires h != [] && Chronological(h, h[|h| - 1].at)
    requires Concerns(h[|h| - 1], k) && h[|h| - 1].Failure?
    ensures TooMany(h, k) <==> ChainLength(h, k) > h[|h| - 1].maxAttempts
  {
    ChainAttained(h, k);
    if TooMany(h, k) {
      var j :| IsChain(h, k, j) && Count(h, k, j) > h[|h| - 1].maxAttempts;
      NoLongerChain(h, k, j);
    }
  }

  lemma LocksAtPrefix(h: seq<Event>, k: Key, lock: int, t: int, i: int)
    requires 0 <= i < |h| - 1
    ensures LocksAt(h, k, lock, t, i) <==> LocksAt(h[..|h| - 1], k, lock, t, i)
  {
    assert h[..i + 1] == h[..|h| - 1][..i + 1];
  }

  lemma LocksAtEnd(h: seq<Event>, k: Key, lock: int, t: int)
    requires h != [] && Chronological(h, t)
    ensures LocksAt(h, k, lock, t, |h| - 1) <==>
      && Concerns(h[|h| - 1], k) && h[|h| - 1].Failure? && ChainLength(h, k) > h[|h| - 1].maxAttempts
      && t < h[|h| - 1].at + lock
  {
    assert h[..|h|] == h;
    if Concerns(h[|h| - 1], k) && h[|h| - 1].Failure? {
      TooManyIsCounted(h, k);
    }
  }

  /** The failure at `i` ended a chain that was too long. */
  ghost predicate EndsTooMany(h: seq<Event>, k: Key, i: int) {
    0 <= i < |h| && TooMany(h[..i + 1], k)
  }

  ghost predicate LastTooMany(h: seq<Event>, k: Key, i: int) {
    EndsTooMany(h, k, i) && forall j :: i < j ==> !EndsTooMany(h, k, j)
  }

  /** That failure's own lock time is not over. */
  ghost predicate LockedByLatest(h: seq<Event>, k: Key, t: int) {
    exists i :: LastTooMany(h, k, i) && h[i].Failure? && t < h[i].at + h[i].lockSeconds
  }

  lemma SameInPrefix(h: seq<Event>, k: Key, j: int)
    requires h != [] && !TooMany(h, k)
    ensures EndsTooMany(h, k, j) <==> EndsTooMany(h[..|h| - 1], k, j)
  {
    assert h[..|h|] == h;
    if 0 <= j < |h| - 1 {
      assert h[..|h| - 1][..j + 1] == h[..j + 1];
    }
  }

  lemma LastInPrefix(h: seq<Event>, k: Key, i: int)
    requires h != [] && !TooMany(h, k) && LastTooMany(h[..|h| - 1], k, i)
    ensures LastTooMany(h, k, i)
  {
    SameInPrefix(h, k, i);
    forall j | i < j
      ensures !EndsTooMany(h, k, j)
    {
      SameInPrefix(h, k, j);
    }
  }

  lemma TooManyAtEnd(h: seq<Event>, k: Key)
    requires h != [] && Chronological(h, h[|h| - 1].at)
    ensures TooMany(h, k) <==>
      && Concerns(h[|h| - 1], k) && h[|h| - 1].Failure? && ChainLength(h, k) > h[|h| - 1].maxAttempts
  {
    if Concerns(h[|h| - 1], k) && h[|h| - 1].Failure? {
      TooManyIsCounted(h, k);
    }
  }

  /** Whatever limits were in force at each failure: the lock ends with the lock time of the latest
      failure that ended a chain that was too long, and there is none exactly without such a failure. */
  lemma {:induction false} LockIsLatest(h: seq<Event>, k: Key, t: int) returns (i: int)
    requires Chronological(h, t)
    ensures if LockUntil(h, k).Some?
      then LastTooMany(h, k, i) && h[i].Failure? && LockUntil(h, k).value == h[i].at + h[i].lockSeconds
      else forall j :: !EndsTooMany(h, k, j)
    decreases |h|
  {
    i := |h| - 1;
    if h != [] {
      assert h[..|h|] == h;
      TooManyAtEnd(h, k);
      if !TooMany(h, k) {
        var front := h[..|h| - 1];
        i := LockIsLatest(front, k, t);
        if LockUntil(front, k).Some? {
          LastInPrefix(h, k, i);
        }
        forall j
          ensures EndsTooMany(h, k, j) <==> EndsTooMany(front, k, j)
        {
          SameInPrefix(h, k, j);
        }
      }
    }
  }

  lemma OnlyOneLatest(h: seq<Event>, k: Key, i: int, j: int)
    requires LastTooMany(h, k, i) && LastTooMany(h, k, j)
    ensures i == j
  {
  }

  lemma LockIsLatestIff(h: seq<Event>, k: Key, t: int)
    requires Chronological(h, t)
    ensures LockUntil(h, k).Some? && t < LockUntil(h, k).value <==> LockedByLatest(h, k, t)
  {
    var i := LockIsLatest(h, k, t);
    if LockedByLatest(h, k, t) {
      var j :| LastTooMany(h, k, j) && h[j].Failure? && t < h[j].at + h[j].lockSeconds;
      if LockUntil(h, k).Some? {
        OnlyOneLatest(h, k, i, j);
      }
    }
  }

  /** With a constant lock time, the lock key is up exactly when a failure in the last `lock` seconds
      ended a chain that was too long. */
  lemma {:induction false} LockIsHistory(h: seq<Event>, k: Key, lock: int, t: int)
    requires Chronological(h, t) && ConstantLock(h, lock)
    ensures LockUntil(h, k).Some? && t < LockUntil(h, k).value <==> KeyLocked(h, k, lock, t)
    decreases |h|
  {
    if h != [] {
      var n := |h| - 1;
      var front := h[..n];
      LockIsHistory(front, k, lock, t);
      forall i | 0 <= i < n
        ensures LocksAt(h, k, lock, t, i) <==> LocksAt(front, k, lock, t, i)
      {
        LocksAtPrefix(h, k, lock, t, i);
      }
      LocksAtEnd(h, k, lock, t);
      assert KeyLocked(h, k, lock, t) <==> KeyLocked(front, k, lock, t) || LocksAt(h, k, lock, t, n);
    }
  }

  /** What one more event does to the counter and the lock of a key. */
  lemma OneMore(h: seq<Event>, e: Event, k: Key)
    ensures ChainLength(h + [e], k) ==
      if !Concerns(e, k) then ChainLength(h, k)
      else if e.Clear? then 0
      else if e.at < LastFailure(h, k) + FAIL_COUNTER_TTL then ChainLength(h, k) + 1 else 1
    ensures LastFailure(h + [e], k) == if Concerns(e, k) then e.at else LastFailure(h, k)
    ensures LockUntil(h + [e], k) ==
      if Concerns(e, k) && e.Failure? && ChainLength(h + [e], k) > e.maxAttempts then Some(e.at + e.lockSeconds)
      else LockUntil(h, k)
  {
    assert (h + [e])[..|h|] == h;
  }

  /** The counter holds the length of the open chain and the lock key its end. */
  ghost predicate Agrees(fails: Db<Key, nat>, locks: Db<Key, string>, h: seq<Event>, k: Key) {
    && (k in fails <==> ChainLength(h, k) > 0)
    && (k in fails ==> fails[k] == Entry(ChainLength(h, k), LastFailure(h, k) + FAIL_COUNTER_TTL))
    && (k in locks <==> LockUntil(h, k).Some?)
    && (k in locks ==> locks[k] == Entry("1", LockUntil(h, k).value))
  }

  /** INCR then EXPIRE of one counter. */
  function Bump(fails: Db<Key, nat>, now: int, k: Key): Db<Key, nat> {
    fails[k := Entry(if Alive(fails, now, k) then fails[k].value + 1 else 1, now + FAIL_COUNTER_TTL)]
  }

  function LockIf(locks: Db<Key, string>, now: int, k: Key, exceeded: bool, lockSeconds: int): Db<Key, string> {
    if exceeded then SetEx(locks, now, k, lockSeconds, "1") else locks
  }

  /** Counters, locks and history agree on every key, and the history is in order. */
  ghost predicate Consistent(fails: Db<Key, nat>, locks: Db<Key, string>, h: seq<Event>, now: int) {
    Chronological(h, now) && forall k :: Agrees(fails, locks, h, k)
  }

  lemma OneMoreInOrder(h: seq<Event>, e: Event, now: int)
    requires Chronological(h, now) && e.at == now
    ensures Chronological(h + [e], now)
  {
  }

  /** The counters after a failure. */
  function Failed(fails: Db<Key, nat>, e: Event): Db<Key, nat> {
    Bump(Bump(fails, e.at, Ip(e.ip)), e.at, User(e.user))
  }

  /** The locks after a failure that left the counters `fails`. */
  function Locked(locks: Db<Key, string>, fails: Db<Key, nat>, e: Event): Db<Key, string>
    requires e.Failure? && Ip(e.ip) in fails && User(e.user) in fails
  {
    LockIf(LockIf(locks, e.at, Ip(e.ip), fails[Ip(e.ip)].value > e.maxAttempts, e.lockSeconds),
           e.at, User(e.user), fails[User(e.user)].value > e.maxAttempts, e.lockSeconds)
  }

  /** What a failure does to the counter and the lock of one key. */
  lemma FailedAt(fails: Db<Key, nat>, locks: Db<Key, string>, e: Event, k: Key)
    requires e.Failure?
    ensures var fails' := Failed(fails, e); var locks' := Locked(locks, fails', e);
      var count := if Alive(fails, e.at, k) then fails[k].value + 1 else 1;
      var locking := Concerns(e, k) && count > e.maxAttempts;
      && (k in fails' <==> Concerns(e, k) || k in fails)
      && (Concerns(e, k) ==> fails'[k] == Entry(count, e.at + FAIL_COUNTER_TTL))
      && (!Concerns(e, k) && k in fails ==> fails'[k] == fails[k])
      && (k in locks' <==> locking || k in locks)
      && (locking ==> locks'[k] == Entry("1", e.at + e.lockSeconds))
      && (!locking && k in locks ==> locks'[k] == locks[k])
  {
  }

  lemma FailureAgreesAt(fails: Db<Key, nat>, locks: Db<Key, string>, h: seq<Event>, e: Event, k: Key)
    requires Agrees(fails, locks, h, k) && e.Failure?
    ensures Agrees(Failed(fails, e), Locked(locks, Failed(fails, e), e), h + [e], k)
  {
    FailedAt(fails, locks, e, k);
    OneMore(h, e, k);
  }

  lemma FailureAgrees(fails: Db<Key, nat>, locks: Db<Key, string>, h: seq<Event>, e: Event)
    requires Consistent(fails, locks, h, e.at) && e.Failure?
    ensures Consistent(Failed(fails, e), Locked(locks, Failed(fails, e), e), h + [e], e.at)
  {
    OneMoreInOrder(h, e, e.at);
    forall k
      ensures Agrees(Failed(fails, e), Locked(locks, Failed(fails, e), e), h + [e], k)
    {
      FailureAgreesAt(fails, locks, h, e, k);
    }
  }

  lemma ClearAgrees(fails: Db<Key, nat>, locks: Db<Key, string>, h: seq<Event>, e: Event)
    requires Consistent(fails, locks, h, e.at) && e.Clear?
    ensures Consistent(fails - {Ip(e.ip), User(e.user)}, locks, h + [e], e.at)
  {
    OneMoreInOrder(h, e, e.at);
    forall k
      ensures Agrees(fails - {Ip(e.ip), User(e.user)}, locks, h + [e], k)
    {
      assert Agrees(fails, locks, h, k);
      OneMore(h, e, k);
    }
  }

  lemma Later(fails: Db<Key, nat>, locks: Db<Key, string>, h: seq<Event>, now: int, later: int)
    requires Consistent(fails, locks, h, now) && now <= later
    ensures Consistent(fails, locks, h, later)
  {
  }

  class LoginLimiter {
    var fails: Db<Key, nat>
    var locks: Db<Key, string>
    var now: int
    ghost var history: seq<Event>

    ghost predicate Valid()
      reads this
    {
      Consistent(fails, locks, history, now)
    }

    constructor ()
      ensures Valid() && history == []
    {
      fails, locks, now, history := map[], map[], 0, [];
    }

    /** Time passes. */
    method Wait(seconds: nat)
      requires Valid()
      modifies `now
      ensures Valid() && now == old(now) + seconds
    {
      Later(fails, locks, history, now, now + seconds);
      now := now + seconds;
    }

    method IsLocked(ip: string, username: string) returns (r: bool)
      requires Valid()
      ensures forall user :: IsUser(username, user) ==>
        (r <==> LockedByLatest(history, Ip(ip), now) || LockedByLatest(history, User(user), now))
      ensures forall user, lock :: IsUser(username, user) && ConstantLock(history, lock) ==>
        (r <==> KeyLocked(history, Ip(ip), lock, now) || KeyLocked(history, User(user), lock, now))
    {
      var uname := Normalise(username);
      OneUser(username);
      assert Agrees(fails, locks, history, Ip(ip)) && Agrees(fails, locks, history, User(uname));
      r := Alive(locks, now, Ip(ip)) || Alive(locks, now, User(uname));
      LockIsLatestIff(history, Ip(ip), now);
      LockIsLatestIff(history, User(uname), now);
      forall lock | ConstantLock(history, lock)
        ensures r <==> KeyLocked(history, Ip(ip), lock, now) || KeyLocked(history, User(uname), lock, now)
      {
        LockIsHistory(history, Ip(ip), lock, now);
        LockIsHistory(history, User(uname), lock, now);
      }
    }

    method Increment(k: Key) returns (count: nat)
      modifies `fails
      ensures fails == Bump(old(fails), now, k) && count == fails[k].value
    {
      count := if Alive(fails, now, k) then fails[k].value + 1 else 1;
      fails := fails[k := Entry(count, now + FAIL_COUNTER_TTL)];
    }

    /** The lock key of `k`, set when the count is over the limit. */
    method LockWhen(k: Key, exceeded: bool, lockSeconds: int)
      modifies `locks
      ensures locks == LockIf(old(locks), now, k, exceeded, lockSeconds)
    {
      if exceeded {
        locks := SetEx(locks, now, k, lockSeconds, "1");
      }
    }

    method RecordFailure(ip: string, username: string, maxAttempts: int, lockSeconds: int)
      requires Valid() && 0 < lockSeconds
      modifies `fails, `locks, `history
      ensures Valid()
      ensures forall user :: IsUser(username, user) ==>
        history == old(history) + [Event.Failure(now, ip, user, maxAttempts, lockSeconds)]
    {
      var uname := Normalise(username);
      ghost var e := Event.Failure(now, ip, uname, maxAttempts, lockSeconds);
      FailureAgrees(fails, locks, history, e);
      var ipCount := Increment(Ip(ip));
      var userCount := Increment(User(uname));
      assert ipCount == fails[Ip(ip)].value;
      LockWhen(Ip(ip), ipCount > maxAttempts, lockSeconds);
      LockWhen(User(uname), userCount > maxAttempts, lockSeconds);
      history := history + [e];
      OneUser(username);
    }

    method Clear(ip: string, username: string)
      requires Valid()
      modifies `fails, `history
      ensures Valid()
      ensures forall user :: IsUser(username, user) ==> history == old(history) + [Event.Clear(now, ip, user)]
    {
      var uname := Normalise(username);
      ghost var e := Event.Clear(now, ip, uname);
      ClearAgrees(fails, locks, history, e);
      fails := fails - {Ip(ip), User(uname)};
      history := history + [e];
      OneUser(username);
    }
  }
}
