/** The connection tracker of the relay and the competing kill routes of the admin service, each
    run alone. The same updates interleaved with each other are in module Lifecycle. */
module Tracker {
  import opened Basics
  import opened Redis
  import opened History

  datatype Key =
    | Token(token: string)
    | WebSession(session: string)
    | AdminWebSession(session: string)
    | ActiveSession(instance: string, cid: Cid)
    | KillSignal(cid: Cid)
    | ConnToken(cid: Cid)
    | Other(name: string)

  datatype Value = Text(text: string) | Json(fields: map<string, string>)

  const ACTIVE_TTL := 24 * 3600
  const KILL_TTL := 60

  class RedisServer {
    var db: Db<Key, Value>
    var now: int

    constructor ()
      ensures db == map[]
    {
      db := map[];
      now := 0;
    }
  }

  /** The key patterns flushed when the relay starts. */
  datatype Pattern =
    | ActiveOf(instance: string) | Tokens | ConnTokens | Kills | WebSessions | AdminWebSessions

  predicate Matches(p: Pattern, k: Key) {
    match p
    case ActiveOf(i) => k.ActiveSession? && k.instance == i
    case Tokens => k.Token?
    case ConnTokens => k.ConnToken?
    case Kills => k.KillSignal?
    case WebSessions => k.WebSession?
    case AdminWebSessions => k.AdminWebSession?
  }

  function FlushPatterns(instance: string): seq<Pattern> {
    [ActiveOf(instance), Tokens, ConnTokens, Kills, WebSessions, AdminWebSessions]
  }

  /** The keys that do not survive a restart of the relay `instance`. */
  predicate IsTransient(instance: string, k: Key) {
    (k.ActiveSession? && k.instance == instance) || k.Token? || k.ConnToken? || k.KillSignal? || k.WebSession?
    || k.AdminWebSession?
  }

  function ScanOf(db: Db<Key, Value>, now: int, p: Pattern): set<Key> {
    set k | k in db && Alive(db, now, k) && Matches(p, k)
  }

  function Transient(db: Db<Key, Value>, now: int, instance: string): set<Key> {
    set k | k in db && Alive(db, now, k) && IsTransient(instance, k)
  }

  /** The live keys that the first `n` patterns match. */
  ghost function Flushed(db: Db<Key, Value>, now: int, instance: string, n: nat): set<Key>
    requires n <= 6
  {
    if n == 0 then {} else Flushed(db, now, instance, n - 1) + ScanOf(db, now, FlushPatterns(instance)[n - 1])
  }

  lemma AllPatternsAreTransient(db: Db<Key, Value>, now: int, instance: string)
    ensures Flushed(db, now, instance, 6) == Transient(db, now, instance)
  {
    var p := FlushPatterns(instance);
    assert Flushed(db, now, instance, 1) == ScanOf(db, now, p[0]);
    assert Flushed(db, now, instance, 2) == Flushed(db, now, instance, 1) + ScanOf(db, now, p[1]);
    assert Flushed(db, now, instance, 3) == Flushed(db, now, instance, 2) + ScanOf(db, now, p[2]);
    assert Flushed(db, now, instance, 4) == Flushed(db, now, instance, 3) + ScanOf(db, now, p[3]);
    assert Flushed(db, now, instance, 5) == Flushed(db, now, instance, 4) + ScanOf(db, now, p[4]);
  }

  lemma PatternsAreDisjoint(db: Db<Key, Value>, now: int, instance: string, n: nat, m: nat)
    requires n <= m < 6
    ensures Flushed(db, now, instance, n) !! ScanOf(db, now, FlushPatterns(instance)[m])
  {
    if n > 0 {
      PatternsAreDisjoint(db, now, instance, n - 1, m);
    }
  }

  class ConnectionTracker {
    const table: HistoryTable
    const redis: RedisServer
    const instanceId: string

    constructor (table: HistoryTable, redis: RedisServer, instanceId: string)
      ensures this.table == table && this.redis == redis && this.instanceId == instanceId
    {
      this.table := table;
      this.redis := redis;
      this.instanceId := instanceId;
    }

    /** `cid` is the fresh random id of the connection. */
    method Start(cid: Cid, payload: map<string, string>)
      modifies table, redis`db
      ensures table.rows == old(table.rows)[cid := Row(instanceId, Active, Unset, None, 0, 0)]
      ensures redis.db == old(redis.db)[ActiveSession(instanceId, cid) := Entry(Json(payload), redis.now + 86400)]
    {
      table.Insert(cid, NewRow(instanceId));
      redis.db := SetEx(redis.db, redis.now, ActiveSession(instanceId, cid), ACTIVE_TTL, Json(payload));
    }

    /** A killed row keeps its status and reason; any row gets its end time and byte counts. */
    method Finish(cid: Cid, now: int, e: Ending)
      modifies table, redis`db
      ensures cid !in old(table.rows) ==> table.rows == old(table.rows)
      ensures cid in old(table.rows) ==>
        var row := old(table.rows)[cid];
        table.rows == old(table.rows)[cid := Row(
          row.instance,
          if row.status == Killed then Killed else e.status,
          if row.status == Killed then row.reason else e.reason,
          Some(now), e.toClient, e.toBackend)]
      ensures redis.db == old(redis.db) - {ActiveSession(instanceId, cid)}
    {
      var rowcount := table.UpdateUnlessKilled(cid, now, e);
      if rowcount == 0 {
        table.UpdateKilled(cid, now, e);
      }
      redis.db := Del(redis.db, ActiveSession(instanceId, cid));
    }

    /** One round of the flush: every key the scan finds is deleted and counted. */
    method FlushPattern(p: Pattern) returns (deleted: nat)
      modifies redis`db
      ensures redis.db == old(redis.db) - ScanOf(old(redis.db), redis.now, p)
      ensures deleted == |ScanOf(old(redis.db), redis.now, p)|
    {
      deleted := 0;
      ghost var before := redis.db;
      var keys := ScanOf(redis.db, redis.now, p);
      ghost var found, gone := keys, {};
      while keys != {}
        invariant keys !! gone && keys + gone == found
        invariant redis.db == before - gone && deleted == |gone|
      {
        var key :| key in keys;
        redis.db := Del(redis.db, key);
        deleted := deleted + 1;
        keys, gone := keys - {key}, gone + {key};
      }
      assert gone == found;
    }

    /** After a restart no row of this instance is active, rows of other instances and rows already
        ended are untouched, every live transient key is gone and counted once, other keys stay. */
    method ReconcileStaleActiveOnStartup(now: int) returns (dbUpdated: nat, redisDeleted: nat)
      modifies table, redis`db
      ensures table.rows == map c | c in old(table.rows) :: (
        var row := old(table.rows)[c];
        if row.instance == instanceId && row.status == Active && row.endedAt.None?
        then row.(endedAt := Some(now), status := Errored, reason := RelayRestart) else row)
      ensures dbUpdated == |set c | c in old(table.rows) && table.rows[c] != old(table.rows)[c]|
      ensures forall k :: k in redis.db ==> k in old(redis.db) && redis.db[k] == old(redis.db)[k]
      ensures forall k :: k in old(redis.db) ==> (
        k !in redis.db <==> (
          && redis.now < old(redis.db)[k].expires
          && ((k.ActiveSession? && k.instance == instanceId) || k.Token? || k.ConnToken? || k.KillSignal?
              || k.WebSession? || k.AdminWebSession?)))
      ensures redisDeleted == |set k | k in old(redis.db) && k !in redis.db|
    {
      ghost var rowsBefore, dbBefore := table.rows, redis.db;
      dbUpdated := table.UpdateStale(instanceId, now);
      StaleEndedIs(rowsBefore, table.rows, instanceId, now);
      redisDeleted := FlushTransient();
      assert (set k | k in dbBefore && k !in redis.db) == Transient(dbBefore, redis.now, instanceId);
      assert (set c | c in rowsBefore && table.rows[c] != rowsBefore[c])
          == (set c | c in rowsBefore && IsStale(rowsBefore[c], instanceId));
    }

    /** The loop over the six patterns. */
    method FlushTransient() returns (redisDeleted: nat)
      modifies redis`db
      ensures redisDeleted == |Transient(old(redis.db), redis.now, instanceId)|
      ensures redis.db == old(redis.db) - Transient(old(redis.db), redis.now, instanceId)
    {
      redisDeleted := 0;
      var patterns := FlushPatterns(instanceId);
      ghost var before := redis.db;
      for i := 0 to |patterns|
        invariant redis.db == before - Flushed(before, redis.now, instanceId, i)
        invariant redisDeleted == |Flushed(before, redis.now, instanceId, i)|
      {
        PatternsAreDisjoint(before, redis.now, instanceId, i, i);
        assert ScanOf(redis.db, redis.now, patterns[i]) == ScanOf(before, redis.now, patterns[i]);
        var deleted := FlushPattern(patterns[i]);
        redisDeleted := redisDeleted + deleted;
      }
      AllPatternsAreTransient(before, redis.now, instanceId);
    }
  }

  /** The token a live CONN_TOKEN key maps `cid` to; an empty text counts as missing. */
  function MappedToken(db: Db<Key, Value>, now: int, cid: Cid): Option<string> {
    match Get(db, now, ConnToken(cid))
    case None => None
    case Some(raw) => if raw.Text? && raw.text != "" then Some(raw.text) else None
  }

  /** A live CONN_TOKEN key maps `cid` to the token `raw`. */
  ghost predicate Recorded(db: Db<Key, Value>, now: int, cid: Cid, raw: string) {
    && ConnToken(cid) in db && db[ConnToken(cid)].value == Text(raw) && now < db[ConnToken(cid)].expires
    && raw != ""
  }

  lemma MappedIsRecorded(db: Db<Key, Value>, now: int, cid: Cid)
    ensures forall raw :: Recorded(db, now, cid, raw) <==> MappedToken(db, now, cid) == Some(raw)
  {
  }

  /** One kill of `cid` on `instance` removes the key `k`: the active key, and where a token is recorded
      that token and its record. */
  ghost predicate KillRemoves(db: Db<Key, Value>, now: int, instance: string, cid: Cid, k: Key) {
    || k == ActiveSession(instance, cid)
    || exists raw :: Recorded(db, now, cid, raw) && (k == Token(raw) || k == ConnToken(cid))
  }

  /** The keys after one kill. */
  function KillKeysOf(db: Db<Key, Value>, now: int, instance: string, cid: Cid): Db<Key, Value> {
    var signalled := Del(SetEx(db, now, KillSignal(cid), KILL_TTL, Text("1")), ActiveSession(instance, cid));
    match MappedToken(signalled, now, cid)
    case None => signalled
    case Some(raw) => Del(Del(signalled, Token(raw)), ConnToken(cid))
  }

  lemma KillKeysRemove(db: Db<Key, Value>, now: int, instance: string, cid: Cid)
    ensures var after := KillKeysOf(db, now, instance, cid);
      && KillSignal(cid) in after && after[KillSignal(cid)] == Entry(Text("1"), now + 60)
      && (forall k :: KillRemoves(db, now, instance, cid, k) ==> k !in after)
      && (forall k :: k in db && k !in after ==> KillRemoves(db, now, instance, cid, k))
      && (forall k :: k in after && k != KillSignal(cid) ==> k in db && after[k] == db[k])
  {
    MappedIsRecorded(db, now, cid);
  }

  predicate Hits(hit: set<Key>, cid: Cid) {
    exists a :: a in hit && a.ActiveSession? && a.cid == cid
  }

  /** What killing the connections of the active keys `hit`, in any order, does to the key `k`:
      a hit active key is gone, its kill signal is up, and the token recorded for it at the start and
      that record are gone; a key is removed only if one of these kills removes it; no other key changes. */
  ghost predicate KeyOutcome(before: Db<Key, Value>, after: Db<Key, Value>, now: int, hit: set<Key>, k: Key) {
    && (k in hit && k.ActiveSession? ==>
          && k !in after
          && KillSignal(k.cid) in after && after[KillSignal(k.cid)] == Entry(Text("1"), now + 60)
          && (forall raw :: Recorded(before, now, k.cid, raw) ==> Token(raw) !in after && ConnToken(k.cid) !in after))
    && (k in before && k !in after ==>
          exists a :: a in hit && a.ActiveSession? && KillRemoves(before, now, a.instance, a.cid, k))
    && (k in after && !(k.KillSignal? && Hits(hit, k.cid)) ==> k in before && after[k] == before[k])
  }

  ghost predicate KilledAll(before: Db<Key, Value>, after: Db<Key, Value>, now: int, hit: set<Key>) {
    forall k :: KeyOutcome(before, after, now, hit, k)
  }

  lemma KilledNone(db: Db<Key, Value>, now: int)
    ensures KilledAll(db, db, now, {})
  {
  }

  /** What one more kill removes from the keys that are left, it would have removed at the start. */
  lemma RemovedAtStart(before: Db<Key, Value>, db: Db<Key, Value>, now: int, hit: set<Key>, k: Key, x: Key)
    requires KilledAll(before, db, now, hit) && k.ActiveSession?
    requires KillRemoves(db, now, k.instance, k.cid, x)
    ensures KillRemoves(before, now, k.instance, k.cid, x)
  {
    if x != k {
      var raw :| Recorded(db, now, k.cid, raw) && (x == Token(raw) || x == ConnToken(k.cid));
      assert KeyOutcome(before, db, now, hit, ConnToken(k.cid));
      assert Recorded(before, now, k.cid, raw);
    }
  }

  lemma KillOneMore(before: Db<Key, Value>, db: Db<Key, Value>, now: int, hit: set<Key>, k: Key)
    requires KilledAll(before, db, now, hit) && k.ActiveSession?
    ensures KilledAll(before, KillKeysOf(db, now, k.instance, k.cid), now, hit + {k})
  {
    var after := KillKeysOf(db, now, k.instance, k.cid);
    KillKeysRemove(db, now, k.instance, k.cid);
    forall x
      ensures KeyOutcome(before, after, now, hit + {k}, x)
    {
      KillOneMoreAt(before, db, after, now, hit, k, x);
    }
  }

  lemma KillOneMoreAt(before: Db<Key, Value>, db: Db<Key, Value>, after: Db<Key, Value>, now: int, hit: set<Key>,
                      k: Key, x: Key)
    requires KilledAll(before, db, now, hit) && k.ActiveSession?
    requires KillSignal(k.cid) in after && after[KillSignal(k.cid)] == Entry(Text("1"), now + 60)
    requires forall y :: KillRemoves(db, now, k.instance, k.cid, y) ==> y !in after
    requires forall y :: y in db && y !in after ==> KillRemoves(db, now, k.instance, k.cid, y)
    requires forall y :: y in after && y != KillSignal(k.cid) ==> y in db && after[y] == db[y]
    ensures KeyOutcome(before, after, now, hit + {k}, x)
  {
    assert KeyOutcome(before, db, now, hit, x);
    if x in before && x !in after {
      if x !in db {
        var a :| a in hit && a.ActiveSession? && KillRemoves(before, now, a.instance, a.cid, x);
        assert a in hit + {k};
      } else {
        RemovedAtStart(before, db, now, hit, k, x);
        assert k in hit + {k};
      }
    }
    if x.KillSignal? && Hits(hit, x.cid) {
      var a :| a in hit && a.ActiveSession? && a.cid == x.cid;
      assert a in hit + {k};
    }
    assert x.KillSignal? && x.cid == k.cid ==> k in hit + {k};
    if x == k {
      assert KillRemoves(db, now, k.instance, k.cid, k);
      forall raw | Recorded(before, now, k.cid, raw)
        ensures Token(raw) !in after && ConnToken(k.cid) !in after
      {
        KillMapping(before, db, now, hit, k, raw);
        if Recorded(db, now, k.cid, raw) {
          assert KillRemoves(db, now, k.instance, k.cid, Token(raw));
          assert KillRemoves(db, now, k.instance, k.cid, ConnToken(k.cid));
        }
      }
    }
  }

  /** A token recorded at the start still is when one more kill looks, unless an earlier kill of the same
      connection removed it together with its record. */
  lemma KillMapping(before: Db<Key, Value>, db: Db<Key, Value>, now: int, hit: set<Key>, k: Key, raw: string)
    requires KilledAll(before, db, now, hit) && k.ActiveSession? && Recorded(before, now, k.cid, raw)
    ensures Recorded(db, now, k.cid, raw) || (Token(raw) !in db && ConnToken(k.cid) !in db)
  {
    assert KeyOutcome(before, db, now, hit, ConnToken(k.cid));
    if ConnToken(k.cid) !in db {
      var a :| a in hit && a.ActiveSession? && KillRemoves(before, now, a.instance, a.cid, ConnToken(k.cid));
      assert a.cid == k.cid;
      assert KeyOutcome(before, db, now, hit, a);
    }
  }

  /** The rows after killing the connections of the active keys `hit`. */
  function KillRows(rows: map<Cid, Row>, hit: set<Key>): map<Cid, Row> {
    map c | c in rows :: if Hits(hit, c) then KillIfActive(rows[c], AdminKillAll) else rows[c]
  }

  lemma KillRow(rows: map<Cid, Row>, hit: set<Key>, k: Key)
    requires k.ActiveSession?
    ensures KillRows(rows, hit + {k}) == var killed := KillRows(rows, hit);
      if k.cid in killed then killed[k.cid := KillIfActive(killed[k.cid], AdminKillAll)] else killed
  {
    assert forall c :: Hits(hit + {k}, c) <==> c == k.cid || Hits(hit, c);
  }

  class AdminSessions {
    const table: HistoryTable
    const redis: RedisServer
    const instanceId: string

    constructor (table: HistoryTable, redis: RedisServer, instanceId: string)
      ensures this.table == table && this.redis == redis && this.instanceId == instanceId
    {
      this.table := table;
      this.redis := redis;
      this.instanceId := instanceId;
    }

    /** The store writes that `kill_session` and the loop of `kill_all_sessions` have in common. */
    method KillKeys(instance: string, cid: Cid)
      modifies redis`db
      ensures redis.db == KillKeysOf(old(redis.db), redis.now, instance, cid)
    {
      redis.db := SetEx(redis.db, redis.now, KillSignal(cid), KILL_TTL, Text("1"));
      redis.db := Del(redis.db, ActiveSession(instance, cid));
      var raw := Get(redis.db, redis.now, ConnToken(cid));
      if raw.Some? && raw.value.Text? && raw.value.text != "" {
        redis.db := Del(redis.db, Token(raw.value.text));
        redis.db := Del(redis.db, ConnToken(cid));
      }
    }

    /** The kill key is up for a minute, the active key, a recorded token and its record are gone, no other
        key changes, and an active row is killed. */
    method KillSession(cid: Cid)
      modifies table, redis`db
      ensures ActiveSession(instanceId, cid) !in redis.db
      ensures KillSignal(cid) in redis.db && redis.db[KillSignal(cid)] == Entry(Text("1"), redis.now + 60)
      ensures forall raw, e :: (
        && ConnToken(cid) in old(redis.db) && old(redis.db)[ConnToken(cid)] == Entry(Text(raw), e)
        && redis.now < e && raw != "") ==> Token(raw) !in redis.db && ConnToken(cid) !in redis.db
      ensures forall k :: k in old(redis.db) && k !in redis.db && k != ActiveSession(instanceId, cid) ==>
        exists raw :: Recorded(old(redis.db), redis.now, cid, raw) && (k == Token(raw) || k == ConnToken(cid))
      ensures forall k :: k in redis.db && k != KillSignal(cid) ==>
        k in old(redis.db) && redis.db[k] == old(redis.db)[k]
      ensures cid in old(table.rows) && old(table.rows)[cid].status == Active ==>
        table.rows == old(table.rows)[cid := old(table.rows)[cid].(status := Killed, reason := AdminKill)]
      ensures cid !in old(table.rows) || old(table.rows)[cid].status != Active ==> table.rows == old(table.rows)
    {
      KillKeysRemove(redis.db, redis.now, instanceId, cid);
      ghost var before := redis.db;
      KillKeys(instanceId, cid);
      forall raw | Recorded(before, redis.now, cid, raw)
        ensures Token(raw) !in redis.db && ConnToken(cid) !in redis.db
      {
        assert KillRemoves(before, redis.now, instanceId, cid, Token(raw));
        assert KillRemoves(before, redis.now, instanceId, cid, ConnToken(cid));
      }
      assert KillRemoves(before, redis.now, instanceId, cid, ActiveSession(instanceId, cid));
      table.UpdateActiveToKilled(cid, AdminKill);
    }

    /** One turn of the kill-all loop. */
    method KillListed(k: Key, ghost before: Db<Key, Value>, ghost rows: map<Cid, Row>, ghost seen: set<Key>)
      requires k.ActiveSession?
      requires KilledAll(before, redis.db, redis.now, seen) && table.rows == KillRows(rows, seen)
      modifies table, redis`db
      ensures KilledAll(before, redis.db, redis.now, seen + {k}) && table.rows == KillRows(rows, seen + {k})
    {
      KillOneMore(before, redis.db, redis.now, seen, k);
      KillRow(rows, seen, k);
      KillKeys(k.instance, k.cid);
      table.UpdateActiveToKilled(k.cid, AdminKillAll);
    }

    /** `listed` is what the scan returned: every live active key, some perhaps more than once. Every
        listed connection is killed as if alone, nothing else changes, and the returned number counts a
        key as often as it was listed. */
    method KillAllSessions(listed: seq<Key>) returns (killed: nat)
      requires forall k :: k in listed <==> k.ActiveSession? && k in redis.db && redis.now < redis.db[k].expires
      modifies table, redis`db
      ensures killed == |listed| >= |set k | k in listed|
      ensures killed == |set k | k in listed| <==> NoRepeat(listed)
      ensures forall k :: k in listed ==>
        && k !in redis.db
        && KillSignal(k.cid) in redis.db && redis.db[KillSignal(k.cid)] == Entry(Text("1"), redis.now + 60)
      ensures forall k, raw, e :: (
        && k in listed && ConnToken(k.cid) in old(redis.db) && old(redis.db)[ConnToken(k.cid)] == Entry(Text(raw), e)
        && redis.now < e && raw != "") ==> Token(raw) !in redis.db && ConnToken(k.cid) !in redis.db
      ensures forall x :: x in old(redis.db) && x !in redis.db && x !in listed ==>
        exists k, raw :: k in listed && Recorded(old(redis.db), redis.now, k.cid, raw)
                         && (x == Token(raw) || x == ConnToken(k.cid))
      ensures forall x :: x in redis.db && !(x.KillSignal? && Names(listed, x.cid)) ==>
        x in old(redis.db) && redis.db[x] == old(redis.db)[x]
      ensures table.rows.Keys == old(table.rows).Keys
      ensures forall c :: c in table.rows ==>
        var row := old(table.rows)[c];
        table.rows[c] == if row.status == Active && Names(listed, c)
                         then row.(status := Killed, reason := AdminKillAll) else row
    {
      ghost var before, rows := redis.db, table.rows;
      killed := KillEach(listed);
      ListedOnce(listed);
      AllListedKilled(before, redis.db, redis.now, listed);
      RowsOfListed(rows, listed);
    }

    /** The loop. */
    method KillEach(listed: seq<Key>) returns (killed: nat)
      requires forall k :: k in listed ==> k.ActiveSession?
      modifies table, redis`db
      ensures killed == |listed|
      ensures KilledAll(old(redis.db), redis.db, redis.now, ElementsOf(listed))
      ensures table.rows == KillRows(old(table.rows), ElementsOf(listed))
    {
      killed := 0;
      ghost var seen: set<Key> := {};
      ghost var before, rows := redis.db, table.rows;
      KilledNone(before, redis.now);
      assert rows == KillRows(rows, {});
      for i := 0 to |listed|
        invariant seen == ElementsOf(listed[..i]) && killed == i
        invariant KilledAll(before, redis.db, redis.now, seen)
        invariant table.rows == KillRows(rows, seen)
      {
        assert listed[..i + 1] == listed[..i] + [listed[i]];
        KillListed(listed[i], before, rows, seen);
        killed := killed + 1;
        seen := seen + {listed[i]};
      }
      assert listed[..|listed|] == listed;
    }
  }

  /** One of the listed keys is that of the connection `cid`. */
  ghost predicate Names(listed: seq<Key>, cid: Cid) {
    exists k :: k in listed && k.ActiveSession? && k.cid == cid
  }

  lemma RowsOfListed(rows: map<Cid, Row>, listed: seq<Key>)
    ensures var after := KillRows(rows, ElementsOf(listed));
      && after.Keys == rows.Keys
      && forall c :: c in after ==>
        after[c] == if rows[c].status == Active && Names(listed, c)
                    then rows[c].(status := Killed, reason := AdminKillAll) else rows[c]
  {
    assert forall c :: Names(listed, c) <==> Hits(ElementsOf(listed), c);
  }

  /** The outcome of all the kills, key by key. */
  lemma AllListedKilled(before: Db<Key, Value>, after: Db<Key, Value>, now: int, listed: seq<Key>)
    requires KilledAll(before, after, now, ElementsOf(listed)) && forall k :: k in listed ==> k.ActiveSession?
    ensures forall k :: k in listed ==>
      && k !in after && KillSignal(k.cid) in after && after[KillSignal(k.cid)] == Entry(Text("1"), now + 60)
    ensures forall k, raw :: k in listed && Recorded(before, now, k.cid, raw) ==>
      Token(raw) !in after && ConnToken(k.cid) !in after
    ensures forall x :: x in before && x !in after && x !in listed ==>
      exists k, raw :: k in listed && Recorded(before, now, k.cid, raw) && (x == Token(raw) || x == ConnToken(k.cid))
    ensures forall x :: x in after && !(x.KillSignal? && Names(listed, x.cid)) ==> x in before && after[x] == before[x]
  {
    var hit := ElementsOf(listed);
    forall k | k in listed
      ensures k !in after && KillSignal(k.cid) in after && after[KillSignal(k.cid)] == Entry(Text("1"), now + 60)
      ensures forall raw :: Recorded(before, now, k.cid, raw) ==> Token(raw) !in after && ConnToken(k.cid) !in after
    {
      assert KeyOutcome(before, after, now, hit, k);
    }
    forall x | x in before && x !in after && x !in listed
      ensures exists k, raw ::
        k in listed && Recorded(before, now, k.cid, raw) && (x == Token(raw) || x == ConnToken(k.cid))
    {
      assert KeyOutcome(before, after, now, hit, x);
      var a :| a in hit && a.ActiveSession? && KillRemoves(before, now, a.instance, a.cid, x);
      var raw :| Recorded(before, now, a.cid, raw) && (x == Token(raw) || x == ConnToken(a.cid));
      assert a in listed;
    }
    forall x | x in after && !(x.KillSignal? && Names(listed, x.cid))
      ensures x in before && after[x] == before[x]
    {
      assert KeyOutcome(before, after, now, hit, x);
    }
  }

  function ElementsOf(s: seq<Key>): set<Key> {
    set k | k in s
  }

  ghost predicate NoRepeat(s: seq<Key>) {
    forall i, j :: 0 <= i < j < |s| ==> s[i] != s[j]
  }

  lemma NoRepeatOneMore(front: seq<Key>, k: Key)
    ensures NoRepeat(front + [k]) <==> NoRepeat(front) && k !in front
  {
    var s := front + [k];
    assert s[|front|] == k && forall i :: 0 <= i < |front| ==> s[i] == front[i];
    if k in front {
      var i :| 0 <= i < |front| && front[i] == k;
      assert s[i] == s[|front|];
    }
  }

  /** A list has as many elements as places exactly when it repeats none. */
  lemma {:induction false} ListedOnce(s: seq<Key>)
    ensures |ElementsOf(s)| <= |s| && (|ElementsOf(s)| == |s| <==> NoRepeat(s))
  {
    if s != [] {
      var front, k := s[..|s| - 1], s[|s| - 1];
      ListedOnce(front);
      assert s == front + [k];
      NoRepeatOneMore(front, k);
      assert ElementsOf(s) == ElementsOf(front) + {k};
    }
  }
}
