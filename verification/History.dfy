/** The `connection_history` table: its rows, and each guarded UPDATE as one atomic step. */
module History {
  import opened Basics

  type Cid = int

  datatype Status = Active | Closed | Errored | Killed

  datatype Reason =
    | Unset | Normal | IdleTimeout | MaxDuration | AdminKill | AdminKillAll
    | ClientDisconnect | RelayException | RelayRestart

  datatype Row = Row(
    instance: string,
    status: Status,
    reason: Reason,
    endedAt: Option<int>,
    toClient: nat,
    toBackend: nat)

  /** What the relay handler reports when it finishes a connection. */
  datatype Ending = Ending(status: Status, reason: Reason, toClient: nat, toBackend: nat)

  function NewRow(instance: string): Row {
    Row(instance, Active, Unset, None, 0, 0)
  }

  /** The first UPDATE of `finish`: `WHERE status != 'killed'`. */
  function FinishUnlessKilled(row: Row, now: int, e: Ending): Row {
    if row.status != Killed
    then row.(endedAt := Some(now), status := e.status, reason := e.reason,
              toClient := e.toClient, toBackend := e.toBackend)
    else row
  }

  /** The second UPDATE of `finish`, sent when the first matched no row: `WHERE status = 'killed'`. */
  function FinishKilled(row: Row, now: int, e: Ending): Row {
    if row.status == Killed
    then row.(endedAt := Some(now), toClient := e.toClient, toBackend := e.toBackend)
    else row
  }

  /** The UPDATE of the admin kill routes: `WHERE status = 'active'`. */
  function KillIfActive(row: Row, reason: Reason): Row {
    if row.status == Active then row.(status := Killed, reason := reason) else row
  }

  predicate IsStale(row: Row, instance: string) {
    row.instance == instance && row.status == Active && row.endedAt.None?
  }

  /** The UPDATE of the startup reconciliation. */
  function Reconciled(row: Row, instance: string, now: int): Row {
    if IsStale(row, instance)
    then row.(endedAt := Some(now), status := Errored, reason := RelayRestart)
    else row
  }

  /** What a reader of the history may rely on from one moment to a later one: no row goes back to
      active, the status and reason of a killed row are final, and an end time is never lost. */
  ghost predicate Advances(before: Row, after: Row) {
    && (after.status == Active ==> before.status == Active)
    && (before.status == Killed ==> after.status == Killed && after.reason == before.reason)
    && (before.endedAt.Some? ==> after.endedAt.Some?)
    && after.instance == before.instance
  }

  // ---- the four updates in any order ----

  /** One guarded update of the row of a connection, by whichever service. */
  datatype Update =
    | FinishFirst(now: int, ending: Ending)
    | FinishSecond(now: int, ending: Ending)
    | Kill(reason: Reason)
    | Reconcile(instance: string, now: int)

  function Apply(row: Row, u: Update): Row {
    match u
    case FinishFirst(now, ending) => FinishUnlessKilled(row, now, ending)
    case FinishSecond(now, ending) => FinishKilled(row, now, ending)
    case Kill(reason) => KillIfActive(row, reason)
    case Reconcile(instance, now) => Reconciled(row, instance, now)
  }

  function ApplyAll(row: Row, us: seq<Update>): Row {
    if us == [] then row else Apply(ApplyAll(row, us[..|us| - 1]), us[|us| - 1])
  }

  /** The handler never finishes a connection as active. */
  predicate ProperEndings(us: seq<Update>) {
    forall i :: 0 <= i < |us| && us[i].FinishFirst? ==> us[i].ending.status != Active
  }

  /** Whatever updates follow in whatever order: nothing a reader relies on is taken back. */
  lemma {:induction false} UpdatesAdvance(row: Row, us: seq<Update>)
    requires ProperEndings(us)
    ensures Advances(row, ApplyAll(row, us))
  {
    if us != [] {
      UpdatesAdvance(row, us[..|us| - 1]);
    }
  }

  /** The update ends an active row other than by a kill. */
  predicate Ends(instance: string, u: Update) {
    u.FinishFirst? || (u.Reconcile? && u.instance == instance)
  }

  /** The update at `i` reports a kill, or is a kill that comes before every end. */
  ghost predicate DecidesKill(instance: string, us: seq<Update>, i: int) {
    && 0 <= i < |us|
    && ((us[i].FinishFirst? && us[i].ending.status == Killed)
        || (us[i].Kill? && forall j :: 0 <= j < i ==> !Ends(instance, us[j])))
  }

  /** From a fresh row, under any updates in any order: it stays active exactly until the first of them
      that ends or kills it, and it is killed exactly when some update decides so. */
  lemma {:induction false} KilledExactlyWhen(instance: string, us: seq<Update>)
    requires ProperEndings(us)
    ensures var row := ApplyAll(NewRow(instance), us);
      && row.instance == instance
      && (row.status == Active <==> forall i :: 0 <= i < |us| ==> !us[i].Kill? && !Ends(instance, us[i]))
      && (row.status == Active ==> row.endedAt.None?)
      && (row.status == Killed <==> exists i :: DecidesKill(instance, us, i))
  {
    if us != [] {
      var n := |us| - 1;
      var front, u := us[..n], us[n];
      KilledExactlyWhen(instance, front);
      assert forall i :: 0 <= i < n ==> front[i] == us[i];
      forall i | 0 <= i < n
        ensures DecidesKill(instance, front, i) <==> DecidesKill(instance, us, i)
      {
      }
      if exists i :: DecidesKill(instance, front, i) {
        var i :| DecidesKill(instance, front, i);
        assert DecidesKill(instance, us, i);
      }
      var row, before := ApplyAll(NewRow(instance), us), ApplyAll(NewRow(instance), front);
      if row.status == Killed && before.status != Killed {
        assert DecidesKill(instance, us, n);
      }
      if DecidesKill(instance, us, n) && us[n].Kill? && before.status != Active {
        var j :| 0 <= j < n && (front[j].Kill? || Ends(instance, front[j]));
        KillBefore(instance, us, j);
      }
    }
  }

  /** Among updates none of which ends the row, a kill decides. */
  lemma KillBefore(instance: string, us: seq<Update>, j: int)
    requires us != [] && 0 <= j < |us| - 1 && us[j].Kill? && forall i :: 0 <= i < |us| - 1 ==> !Ends(instance, us[i])
    ensures DecidesKill(instance, us[..|us| - 1], j)
  {
  }

  /** The update at `i` is the first that decides a kill. */
  ghost predicate FirstToKill(instance: string, us: seq<Update>, i: int) {
    DecidesKill(instance, us, i) && forall j :: 0 <= j < i ==> !DecidesKill(instance, us, j)
  }

  /** A killed row has the reason of the first update that decided so, for good. */
  lemma {:induction false} KilledBecause(instance: string, us: seq<Update>) returns (i: int)
    requires ProperEndings(us) && ApplyAll(NewRow(instance), us).status == Killed
    ensures FirstToKill(instance, us, i)
    ensures ApplyAll(NewRow(instance), us).reason == if us[i].Kill? then us[i].reason else us[i].ending.reason
  {
    var n := |us| - 1;
    var front := us[..n];
    KilledExactlyWhen(instance, us);
    KilledExactlyWhen(instance, front);
    forall j | 0 <= j < n
      ensures DecidesKill(instance, front, j) <==> DecidesKill(instance, us, j)
    {
    }
    if ApplyAll(NewRow(instance), front).status == Killed {
      i := KilledBecause(instance, front);
    } else {
      i := n;
    }
  }

  /** The update at `i` is the one of the two in `finish` that matches the row. */
  ghost predicate Finishes(instance: string, us: seq<Update>, i: int) {
    && 0 <= i < |us|
    && var status := ApplyAll(NewRow(instance), us[..i]).status;
      (us[i].FinishFirst? && status != Killed) || (us[i].FinishSecond? && status == Killed)
  }

  ghost predicate LastToFinish(instance: string, us: seq<Update>, i: int) {
    Finishes(instance, us, i) && forall j :: i < j ==> !Finishes(instance, us, j)
  }

  /** The end time and the counts are those of the last `finish`, and so are status and reason of a row
      that is not killed. A row that was never finished has no counts, and an end only by a restart. */
  lemma {:induction false} LastFinishCounts(instance: string, us: seq<Update>) returns (i: int)
    requires ProperEndings(us)
    ensures var row := ApplyAll(NewRow(instance), us);
      if i < 0
      then && (forall j :: !Finishes(instance, us, j)) && row.toClient == row.toBackend == 0
           && (row.endedAt.Some? ==> row.status == Errored && row.reason == RelayRestart)
           && (row.endedAt.Some? ==>
                 exists u :: u in us && u.Reconcile? && u.instance == instance && row.endedAt == Some(u.now))
      else && LastToFinish(instance, us, i) && row.endedAt == Some(us[i].now)
           && row.toClient == us[i].ending.toClient && row.toBackend == us[i].ending.toBackend
           && (row.status != Killed ==> row.status == us[i].ending.status && row.reason == us[i].ending.reason)
  {
    i := -1;
    if us != [] {
      var n := |us| - 1;
      var front := us[..n];
      i := LastFinishCounts(instance, front);
      KilledExactlyWhen(instance, front);
      forall j | 0 <= j < n
        ensures Finishes(instance, us, j) <==> Finishes(instance, front, j)
      {
        assert front[..j] == us[..j];
      }
      if Finishes(instance, us, n) {
        i := n;
      }
    }
  }

  // ---- the table ----

  /** `after` is `before` with exactly the stale rows of the instance ended. */
  ghost predicate StaleEnded(before: map<Cid, Row>, after: map<Cid, Row>, instance: string, now: int) {
    && after.Keys == before.Keys
    && (forall c :: c in before && !IsStale(before[c], instance) ==> after[c] == before[c])
    && (forall c :: c in before && IsStale(before[c], instance) ==>
          after[c] == before[c].(endedAt := Some(now), status := Errored, reason := RelayRestart))
  }

  lemma StaleEndedIs(before: map<Cid, Row>, after: map<Cid, Row>, instance: string, now: int)
    requires StaleEnded(before, after, instance, now)
    ensures after == map c | c in before :: Reconciled(before[c], instance, now)
  {
    forall c | c in before
      ensures after[c] == Reconciled(before[c], instance, now)
    {
      if IsStale(before[c], instance) {
      }
    }
  }

  class HistoryTable {
    var rows: map<Cid, Row>

    constructor ()
      ensures rows == map[]
    {
      rows := map[];
    }

    method Insert(cid: Cid, row: Row)
      modifies this
      ensures rows == old(rows)[cid := row]
    {
      rows := rows[cid := row];
    }

    /** The count tells whether the row was there and not killed; a killed one is untouched. */
    method UpdateUnlessKilled(cid: Cid, now: int, e: Ending) returns (rowcount: nat)
      modifies this
      ensures rowcount <= 1
      ensures rowcount == 0 ==> rows == old(rows)
      ensures rowcount == 1 <==> cid in old(rows) && old(rows)[cid].status != Killed
      ensures rowcount == 1 ==> rows == old(rows)[cid :=
        Row(old(rows)[cid].instance, e.status, e.reason, Some(now), e.toClient, e.toBackend)]
    {
      rowcount := 0;
      if cid in rows {
        if rows[cid].status != Killed {
          rowcount := 1;
        }
        rows := rows[cid := FinishUnlessKilled(rows[cid], now, e)];
      }
    }

    /** A killed row gets its end time and byte counts, and keeps its status and reason; any other is untouched. */
    method UpdateKilled(cid: Cid, now: int, e: Ending)
      modifies this
      ensures cid !in old(rows) || old(rows)[cid].status != Killed ==> rows == old(rows)
      ensures cid in old(rows) && old(rows)[cid].status == Killed ==> rows == old(rows)[cid :=
        Row(old(rows)[cid].instance, Killed, old(rows)[cid].reason, Some(now), e.toClient, e.toBackend)]
    {
      if cid in rows {
        rows := rows[cid := FinishKilled(rows[cid], now, e)];
      }
    }

    /** An active row is killed and keeps everything else; any other is untouched. */
    method UpdateActiveToKilled(cid: Cid, reason: Reason)
      modifies this
      ensures cid !in old(rows) || old(rows)[cid].status != Active ==> rows == old(rows)
      ensures cid in old(rows) && old(rows)[cid].status == Active ==>
        rows == old(rows)[cid := old(rows)[cid].(status := Killed, reason := reason)]
    {
      if cid in rows {
        rows := rows[cid := KillIfActive(rows[cid], reason)];
      }
    }

    /** Exactly the stale rows of the instance are ended, and counted. */
    method UpdateStale(instance: string, now: int) returns (rowcount: nat)
      modifies this
      ensures StaleEnded(old(rows), rows, instance, now)
      ensures rowcount == |set c | c in old(rows) && IsStale(old(rows)[c], instance)|
    {
      rowcount := |set c | c in rows && IsStale(rows[c], instance)|;
      rows := map c | c in rows :: Reconciled(rows[c], instance, now);
    }
  }
}
