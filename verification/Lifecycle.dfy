/** The life of relayed connections as an interleaving of atomic store operations.

    Actors: the relay handler of each connection, any number of admin kills (single or kill-all),
    the quality publisher of each connection, relay crashes and restarts. Every event is one atomic
    operation: one SQL statement or one Redis command. Key expiry may happen at any moment, which
    covers every clock. The handler may raise wherever it awaits, outside the session itself. */
module Lifecycle {
  import opened Basics
  import opened History
  import opened Runs

  /** Where the handler of a connection is. `tracker.start` opens the connection in Inserted. */
  datatype Phase =
    | Inserted                                           // row inserted, active key not yet written
    | Tracked                                            // `tracked_cid` is set; no session started
    | Relaying                                           // plugins started, relay running
    | Relayed(toClient: nat, toBackend: nat, killedLeg: bool)   // the relay returned
    | SessionEnded(toClient: nat, toBackend: nat, killedLeg: bool) // publisher cancelled
    | Finishing(ending: Ending, last: bool)              // about to send the first UPDATE
    | FinishMissed(ending: Ending, last: bool)           // the first UPDATE matched no row
    | RowsDone(ending: Ending, last: bool)               // about to delete the active key
    | Finished(last: bool)                               // `finish` returned
    | Done                                               // the handler returned
    | Crashed                                            // the relay process died

  /** The publisher: sleeping between samples, or inside a WATCH that saw this key version.
      `_sample` and `_publish` have no await, so no step of the same relay finds it inside the WATCH.
      It publishes only what it could read from both sockets, which the relay aborts before it returns. */
  datatype Publisher = Absent | Sleeping | Watching(version: nat)

  /** Where one admin kill of a connection is. */
  datatype Killer = KillStarted | KillSignalled | KillActiveDeleted | KillFinished

  /** History variables that the theorems speak of. */
  datatype Log = Log(
    killedFirst: bool,               // a kill's guarded UPDATE matched the row
    sawKillKey: bool,                // the handler read the kill key after the relay
    raisedBeforeFinish: bool,        // raised anywhere before `finish`
    raisedAfterFinish: bool,         // raised after `finish` returned
    relayed: Option<(nat, nat)>)     // the byte counts the relay returned

  datatype Conn = Conn(
    row: Row,
    active: bool,
    activeVersion: nat,
    killKey: bool,
    handler: Phase,
    publisher: Publisher,
    killers: seq<Killer>,
    log: Log)

  datatype Event =
    | SetActive                      // `tracker.start` writes the active key
    | StartSession(monitored: bool)  // `on_session_start`; `monitored`: both sockets are available
    | EndRelay(toClient: nat, toBackend: nat, killedLeg: bool)
    | EndSession                     // `on_session_end` cancels and awaits the publisher
    | Decide(durationExceeded: bool) // the end status is chosen
    | Raise(disconnect: bool)        // an exception reaches one of the two handlers
    | UpdateFirst(now: int)
    | UpdateSecond(now: int)
    | DeleteActive
    | Return
    | PublishWatch
    | PublishExec
    | KillBegin
    | KillSetKey(k: nat)
    | KillDeleteActive(k: nat)
    | KillUpdate(k: nat, reason: Reason)
    | KillKeyExpires
    | ActiveExpires
    | Crash
    | ReconcileRow(now: int)
    | FlushActive
    | FlushKill

  function Open(instance: string): Conn {
    Conn(NewRow(instance), false, 0, false, Inserted, Absent, [], Log(false, false, false, false, None))
  }

  function SetActiveKey(c: Conn): Conn {
    c.(active := true, activeVersion := c.activeVersion + 1)
  }

  /** DEL: deleting a key that is there makes every pending WATCH on it fail. */
  function DeleteActiveKey(c: Conn): Conn {
    if c.active then c.(active := false, activeVersion := c.activeVersion + 1) else c
  }

  /** The end status the handler chooses after a relay that returned. */
  function EndingOf(c: Conn, toClient: nat, toBackend: nat, killedLeg: bool, durationExceeded: bool): Ending {
    if !killedLeg then Ending(Closed, Normal, toClient, toBackend)
    else if c.killKey then Ending(Killed, AdminKill, toClient, toBackend)
    else if durationExceeded then Ending(Closed, MaxDuration, toClient, toBackend)
    else Ending(Closed, IdleTimeout, toClient, toBackend)
  }

  /** From the start of the session to its end no exception comes out: the registry swallows those of
      the hooks, and the relay gathers those of its legs. A cancellation ends the handler as a crash does. */
  predicate CanRaise(p: Phase) {
    p.Tracked? || p.SessionEnded? || (p.Finished? && !p.last)
  }

  function RaiseStep(c: Conn, disconnect: bool): Conn {
    var ending := if disconnect then Ending(Closed, ClientDisconnect, 0, 0) else Ending(Errored, RelayException, 0, 0);
    c.(handler := Finishing(ending, true),
       log := c.log.(
         raisedBeforeFinish := c.log.raisedBeforeFinish || !c.handler.Finished?,
         raisedAfterFinish := c.log.raisedAfterFinish || c.handler.Finished?))
  }

  /** The steps of the handler up to the point where it calls `finish`. */
  function SessionStep(c: Conn, e: Event): Option<Conn> {
    var p := c.handler;
    match e
    case SetActive => if p.Inserted? then Some(SetActiveKey(c).(handler := Tracked)) else None
    case StartSession(monitored) =>
      if p.Tracked? then Some(c.(handler := Relaying, publisher := if monitored then Sleeping else Absent)) else None
    case EndRelay(toClient, toBackend, killedLeg) =>
      if p.Relaying? && !c.publisher.Watching?
      then Some(c.(handler := Relayed(toClient, toBackend, killedLeg),
                   log := c.log.(relayed := Some((toClient, toBackend)))))
      else None
    case EndSession =>
      if p.Relayed?
      then Some(c.(handler := SessionEnded(p.toClient, p.toBackend, p.killedLeg), publisher := Absent))
      else None
    case Decide(durationExceeded) =>
      if p.SessionEnded?
      then Some(c.(handler := Finishing(EndingOf(c, p.toClient, p.toBackend, p.killedLeg, durationExceeded), false),
                   log := c.log.(sawKillKey := p.killedLeg && c.killKey)))
      else None
    case Raise(disconnect) => if CanRaise(p) then Some(RaiseStep(c, disconnect)) else None
    case _ => None
  }

  /** The steps of `finish` and of the code after it. */
  function FinishStep(c: Conn, e: Event): Option<Conn> {
    var p := c.handler;
    match e
    case UpdateFirst(now) =>
      if p.Finishing?
      then Some(c.(row := FinishUnlessKilled(c.row, now, p.ending),
                   handler := if c.row.status == Killed then FinishMissed(p.ending, p.last)
                              else RowsDone(p.ending, p.last)))
      else None
    case UpdateSecond(now) =>
      if p.FinishMissed?
      then Some(c.(row := FinishKilled(c.row, now, p.ending), handler := RowsDone(p.ending, p.last)))
      else None
    case DeleteActive => if p.RowsDone? then Some(DeleteActiveKey(c).(handler := Finished(p.last))) else None
    case Return => if p.Finished? then Some(c.(handler := Done)) else None
    case _ => None
  }

  /** The steps of one of the admin kills. */
  function KillerStep(c: Conn, e: Event): Option<Conn> {
    match e
    case KillBegin => Some(c.(killers := c.killers + [KillStarted]))
    case KillSetKey(k) =>
      if k < |c.killers| && c.killers[k] == KillStarted
      then Some(c.(killKey := true, killers := c.killers[k := KillSignalled])) else None
    case KillDeleteActive(k) =>
      if k < |c.killers| && c.killers[k] == KillSignalled
      then Some(DeleteActiveKey(c).(killers := c.killers[k := KillActiveDeleted])) else None
    case KillUpdate(k, reason) =>
      if k < |c.killers| && c.killers[k] == KillActiveDeleted && (reason == AdminKill || reason == AdminKillAll)
      then Some(c.(row := KillIfActive(c.row, reason), killers := c.killers[k := KillFinished],
                   log := c.log.(killedFirst := c.log.killedFirst || c.row.status == Active)))
      else None
    case _ => None
  }

  /** The publisher, key expiry, and the death and restart of the relay process. */
  function OtherStep(c: Conn, e: Event): Option<Conn> {
    match e
    case PublishWatch =>
      if c.handler.Relaying? && c.publisher.Sleeping? then Some(c.(publisher := Watching(c.activeVersion))) else None
    case PublishExec =>
      if !c.publisher.Watching? then None
      else if c.publisher.version == c.activeVersion then Some(SetActiveKey(c).(publisher := Sleeping))
      else Some(c.(publisher := Sleeping))
    case KillKeyExpires => Some(c.(killKey := false))
    case ActiveExpires => Some(DeleteActiveKey(c))
    case Crash =>
      if c.handler.Done? then Some(c.(publisher := Absent))
      else Some(c.(handler := Crashed, publisher := Absent))
    case ReconcileRow(now) =>
      if c.handler.Crashed? || c.handler.Done? then Some(c.(row := Reconciled(c.row, c.row.instance, now))) else None
    case FlushActive => if c.handler.Crashed? || c.handler.Done? then Some(DeleteActiveKey(c)) else None
    case FlushKill => Some(c.(killKey := false))
    case _ => None
  }

  /** One step of one connection. */
  function ConnStep(c: Conn, e: Event): Option<Conn> {
    if SessionStep(c, e).Some? then SessionStep(c, e)
    else if FinishStep(c, e).Some? then FinishStep(c, e)
    else if KillerStep(c, e).Some? then KillerStep(c, e)
    else OtherStep(c, e)
  }

  // ---- the whole system: connections come and go, all interleaved ----

  type Sys = map<Cid, Conn>

  datatype SysEvent = OpenConn(cid: Cid, instance: string) | At(cid: Cid, event: Event)

  /** Connection ids are fresh. A crash of the relay is a Crash event at each of its connections. */
  function SysStep(s: Sys, e: SysEvent): Option<Sys> {
    match e
    case OpenConn(cid, instance) => if cid in s then None else Some(s[cid := Open(instance)])
    case At(cid, event) =>
      if cid !in s then None
      else match ConnStep(s[cid], event)
        case None => None
        case Some(c) => Some(s[cid := c])
  }

  /** The state after the interleaving `events`, None when some event is not enabled. */
  function After(s: Sys, events: seq<SysEvent>): Option<Sys> {
    Run(SysStep, s, events)
  }

  // ---- the invariant ----

  /** The handler has completed `finish` at least once. */
  predicate HasFinished(c: Conn) {
    c.handler.Finished? || c.handler.Done? || c.log.raisedAfterFinish
  }

  predicate InFinish(p: Phase) {
    p.Finishing? || p.FinishMissed? || p.RowsDone?
  }

  predicate IsLast(p: Phase) {
    (InFinish(p) || p.Finished?) && p.last
  }

  /** The byte counts the handler reports: those of the relay, and zeros once it has raised. */
  predicate Reported(c: Conn, toClient: nat, toBackend: nat) {
    if c.log.raisedBeforeFinish || c.log.raisedAfterFinish then toClient == 0 && toBackend == 0
    else c.log.relayed == Some((toClient, toBackend))
  }

  ghost predicate RowInv(c: Conn) {
    && (c.row.status == Active ==> c.row.endedAt.None? && c.row.reason == Unset)
    && (c.row.endedAt.None? ==> c.row.status == Active || c.row.status == Killed)
    && (c.log.killedFirst ==> c.row.status == Killed)
    && (c.row.status == Killed ==> c.log.killedFirst || c.log.sawKillKey)
    && (c.handler.FinishMissed? ==> c.row.status == Killed)
    && ((HasFinished(c) && !c.handler.Crashed?) || c.handler.RowsDone? ==>
          && c.row.endedAt.Some? && c.row.status != Active
          && (c.log.sawKillKey ==> c.row.status == Killed))
    && (c.handler.RowsDone? || c.handler.Finished? || c.handler.Done? ==>
          Reported(c, c.row.toClient, c.row.toBackend))
  }

  ghost predicate HandlerInv(c: Conn) {
    && (InFinish(c.handler) ==>
          && c.handler.ending.status != Active
          && Reported(c, c.handler.ending.toClient, c.handler.ending.toBackend)
          && (!c.handler.last ==> (c.handler.ending.status == Killed <==> c.log.sawKillKey))
          && (c.handler.last ==> c.handler.ending.status != Killed))
    && (c.handler.Relayed? || c.handler.SessionEnded? ==>
          c.log.relayed == Some((c.handler.toClient, c.handler.toBackend)))
    && (c.log.raisedBeforeFinish || c.log.raisedAfterFinish ==>
          IsLast(c.handler) || c.handler.Done? || c.handler.Crashed?)
    && (IsLast(c.handler) && c.log.sawKillKey ==> c.log.raisedAfterFinish)
    && (c.log.sawKillKey ==> InFinish(c.handler) || c.handler.Finished? || c.handler.Done? || c.handler.Crashed?)
  }

  ghost predicate KeyInv(c: Conn) {
    && (c.handler.Inserted? ==> !c.active)
    && (!c.publisher.Absent? ==> c.handler.Relaying? || c.handler.Relayed?)
    && (c.publisher.Watching? ==> c.handler.Relaying?)
    && (HasFinished(c) && !c.handler.Crashed? ==> !c.active)
    && (c.publisher.Watching? ==> c.publisher.version <= c.activeVersion)
  }

  ghost predicate ConnInv(c: Conn) {
    RowInv(c) && HandlerInv(c) && KeyInv(c)
  }

  ghost predicate SysInv(s: Sys) {
    forall cid :: cid in s ==> ConnInv(s[cid])
  }

  lemma SessionKeepsInv(c: Conn, e: Event)
    requires ConnInv(c) && SessionStep(c, e).Some?
    ensures ConnInv(SessionStep(c, e).value)
  {
  }

  lemma FinishKeepsInv(c: Conn, e: Event)
    requires ConnInv(c) && FinishStep(c, e).Some?
    ensures ConnInv(FinishStep(c, e).value)
  {
  }

  lemma KillerKeepsInv(c: Conn, e: Event)
    requires ConnInv(c) && KillerStep(c, e).Some?
    ensures ConnInv(KillerStep(c, e).value)
  {
  }

  lemma PublishKeepsInv(c: Conn, e: Event)
    requires ConnInv(c) && OtherStep(c, e).Some? && (e.PublishWatch? || e.PublishExec?)
    ensures ConnInv(OtherStep(c, e).value)
  {
  }

  lemma CrashKeepsInv(c: Conn, e: Event)
    requires ConnInv(c) && OtherStep(c, e).Some? && (e.Crash? || e.ReconcileRow?)
    ensures ConnInv(OtherStep(c, e).value)
  {
  }

  lemma KeysKeepInv(c: Conn, e: Event)
    requires ConnInv(c) && OtherStep(c, e).Some?
    requires e.KillKeyExpires? || e.ActiveExpires? || e.FlushActive? || e.FlushKill?
    ensures ConnInv(OtherStep(c, e).value)
  {
  }

  lemma OtherKeepsInv(c: Conn, e: Event)
    requires ConnInv(c) && OtherStep(c, e).Some?
    ensures ConnInv(OtherStep(c, e).value)
  {
    if e.PublishWatch? || e.PublishExec? {
      PublishKeepsInv(c, e);
    } else if e.Crash? || e.ReconcileRow? {
      CrashKeepsInv(c, e);
    } else {
      KeysKeepInv(c, e);
    }
  }

  /** No step loses a fact that readers of the history rely on. */
  lemma StepAdvancesRow(c: Conn, e: Event)
    requires ConnInv(c) && ConnStep(c, e).Some?
    ensures Advances(c.row, ConnStep(c, e).value.row)
  {
  }

  lemma StepKeepsInv(c: Conn, e: Event)
    requires ConnInv(c) && ConnStep(c, e).Some?
    ensures ConnInv(ConnStep(c, e).value)
  {
    if SessionStep(c, e).Some? {
      SessionKeepsInv(c, e);
    } else if FinishStep(c, e).Some? {
      FinishKeepsInv(c, e);
    } else if KillerStep(c, e).Some? {
      KillerKeepsInv(c, e);
    } else {
      OtherKeepsInv(c, e);
    }
  }

  lemma SysStepKeepsInv(s: Sys, e: SysEvent)
    requires SysInv(s) && SysStep(s, e).Some?
    ensures SysInv(SysStep(s, e).value)
    ensures HistoryAdvances(s, SysStep(s, e).value)
  {
    if e.At? {
      StepKeepsInv(s[e.cid], e.event);
      StepAdvancesRow(s[e.cid], e.event);
    }
  }

  ghost predicate HistoryAdvances(before: Sys, after: Sys) {
    forall cid :: cid in before ==> cid in after && Advances(before[cid].row, after[cid].row)
  }

  /** The states some interleaving reaches from the empty system. */
  ghost predicate Reachable(s: Sys) {
    exists events :: After(map[], events) == Some(s)
  }

  lemma ReachableInv(s: Sys)
    requires Reachable(s)
    ensures SysInv(s)
  {
    var events :| After(map[], events) == Some(s);
    forall t: Sys, e: SysEvent | SysInv(t) && SysStep(t, e).Some?
      ensures SysInv(SysStep(t, e).value)
    {
      SysStepKeepsInv(t, e);
    }
    RunKeeps(SysStep, (t: Sys) => SysInv(t), map[], events);
  }

  // ---- main results ----

  /** In every interleaving: a row never goes back to active, the status and reason of a killed row
      never change again, and an end time is never lost, however much later one looks. */
  lemma HistoryIsMonotone(s: Sys, later: seq<SysEvent>)
    requires Reachable(s) && After(s, later).Some?
    ensures HistoryAdvances(s, After(s, later).value)
  {
    ReachableInv(s);
    forall t: Sys, e: SysEvent | SysInv(t) && SysStep(t, e).Some?
      ensures SysInv(SysStep(t, e).value) && HistoryAdvances(t, SysStep(t, e).value)
    {
      SysStepKeepsInv(t, e);
    }
    RunRelates(SysStep, (t: Sys) => SysInv(t), (t: Sys, u: Sys) => HistoryAdvances(t, u), s, later);
  }

  lemma ActiveHasNoEnd(s: Sys, cid: Cid)
    requires Reachable(s) && cid in s
    ensures s[cid].row.status == Active ==> s[cid].row.endedAt.None?
  {
    ReachableInv(s);
  }

  /** Once the handler has returned, the row has an end time and the byte counts the handler reported;
      it is killed exactly when an admin kill updated it first or the handler saw the kill key. */
  lemma SettledRow(s: Sys, cid: Cid)
    requires Reachable(s) && cid in s && s[cid].handler.Done?
    ensures var c := s[cid];
      && c.row.endedAt.Some?
      && c.row.status != Active
      && (c.row.status == Killed <==> c.log.killedFirst || c.log.sawKillKey)
      && Reported(c, c.row.toClient, c.row.toBackend)
  {
    ReachableInv(s);
  }

  /** The stored byte counts are the relayed ones exactly when nothing raised, or nothing was relayed. */
  lemma BytesAreRelayed(s: Sys, cid: Cid)
    requires Reachable(s) && cid in s && s[cid].handler.Done? && s[cid].log.relayed.Some?
    ensures var c := s[cid];
      (c.row.toClient, c.row.toBackend) == c.log.relayed.value <==>
      (!c.log.raisedBeforeFinish && !c.log.raisedAfterFinish) || c.log.relayed == Some((0, 0))
  {
    ReachableInv(s);
  }

  /** The active key exists only between the tracker's start and the end of `finish`; the relay
      crashing in between is the one way for it to stay. */
  lemma ActiveKeyLifetime(s: Sys, cid: Cid)
    requires Reachable(s) && cid in s && s[cid].active
    ensures !s[cid].handler.Inserted?
    ensures s[cid].handler.Crashed? || !HasFinished(s[cid])
  {
    ReachableInv(s);
  }

  /** Something is left that writes the active key: the tracker's start is still to write it, a session
      is still to start its publisher, or a publisher runs beside the relay. */
  predicate WriterLeft(c: Conn) {
    c.handler.Inserted? || c.handler.Tracked? || (c.handler.Relaying? && !c.publisher.Absent?)
  }

  /** In every reachable state the active key is absent at all later moments exactly when it is absent
      and no writer is left; a handler that has completed `finish` leaves it so. */
  lemma ActiveKeyGoneForever(s: Sys, cid: Cid)
    requires Reachable(s) && cid in s
    ensures (forall later :: After(s, later).Some? && cid in After(s, later).value ==>
               !After(s, later).value[cid].active)
       <==> !s[cid].active && !WriterLeft(s[cid])
    ensures HasFinished(s[cid]) && !s[cid].handler.Crashed? ==> !s[cid].active && !WriterLeft(s[cid])
  {
    ReachableInv(s);
    if !s[cid].active && !WriterLeft(s[cid]) {
      forall later | After(s, later).Some?
        ensures cid in After(s, later).value && !After(s, later).value[cid].active
      {
        QuietForever(s, cid, later);
      }
    } else {
      var later := KeyComesBack(s, cid);
    }
  }

  /** No task is left that could write the active key of `cid`. */
  ghost predicate Quiet(s: Sys, cid: Cid) {
    cid in s && !s[cid].active && !WriterLeft(s[cid]) && !s[cid].publisher.Watching?
  }

  lemma QuietStays(s: Sys, e: SysEvent, cid: Cid)
    requires Quiet(s, cid) && SysStep(s, e).Some?
    ensures Quiet(SysStep(s, e).value, cid)
  {
  }

  lemma QuietForever(s: Sys, cid: Cid, later: seq<SysEvent>)
    requires Quiet(s, cid) && After(s, later).Some?
    ensures Quiet(After(s, later).value, cid)
  {
    forall t: Sys, e: SysEvent | Quiet(t, cid) && SysStep(t, e).Some?
      ensures Quiet(SysStep(t, e).value, cid)
    {
      QuietStays(t, e, cid);
    }
    RunKeeps(SysStep, (t: Sys) => Quiet(t, cid), s, later);
  }

  /** One more event of `cid` at the end of a run. */
  lemma Extend(s: Sys, cid: Cid, later: seq<SysEvent>, e: Event) returns (longer: seq<SysEvent>)
    requires After(s, later).Some? && cid in After(s, later).value
    requires ConnStep(After(s, later).value[cid], e).Some?
    ensures After(s, longer).Some? && cid in After(s, longer).value
    ensures Some(After(s, longer).value[cid]) == ConnStep(After(s, later).value[cid], e)
  {
    RunSnoc(SysStep, s, later, At(cid, e));
    longer := later + [At(cid, e)];
  }

  /** A running relay with a publisher brings the active key back. */
  lemma PublishAgain(s: Sys, cid: Cid, sofar: seq<SysEvent>) returns (later: seq<SysEvent>)
    requires After(s, sofar).Some? && cid in After(s, sofar).value
    requires var c := After(s, sofar).value[cid]; c.handler.Relaying? && !c.publisher.Absent?
    ensures After(s, later).Some? && cid in After(s, later).value && After(s, later).value[cid].active
  {
    later := sofar;
    if After(s, later).value[cid].publisher.Watching? {
      later := Extend(s, cid, later, PublishExec);
    }
    if !After(s, later).value[cid].active {
      later := Extend(s, cid, later, PublishWatch);
      later := Extend(s, cid, later, PublishExec);
    }
  }

  /** From every state with a writer left some run has the active key. */
  lemma KeyComesBack(s: Sys, cid: Cid) returns (later: seq<SysEvent>)
    requires cid in s && (s[cid].active || WriterLeft(s[cid]))
    ensures After(s, later).Some? && cid in After(s, later).value && After(s, later).value[cid].active
  {
    later := [];
    if s[cid].active {
    } else if s[cid].handler.Inserted? {
      later := Extend(s, cid, later, SetActive);
    } else if s[cid].handler.Tracked? {
      later := Extend(s, cid, later, StartSession(true));
      later := PublishAgain(s, cid, later);
    } else {
      later := PublishAgain(s, cid, later);
    }
  }

  /** A restart leaves no row of a crashed connection active; a row killed before its handler died
      without finishing keeps no end time, at every later moment. */
  lemma RestartSettlesRow(s: Sys, cid: Cid, now: int, later: seq<SysEvent>)
    requires Reachable(s) && cid in s && s[cid].handler.Crashed?
    ensures var t := SysStep(s, At(cid, ReconcileRow(now)));
      && t.Some?
      && t.value[cid].row.status != Active
      && (t.value[cid].row.endedAt.None? <==> s[cid].row.endedAt.None? && s[cid].row.status == Killed)
    ensures Abandoned(s, cid) && After(s, later).Some? ==> Abandoned(After(s, later).value, cid)
  {
    ReachableInv(s);
    if Abandoned(s, cid) && After(s, later).Some? {
      AbandonedForever(s, cid, later);
    }
  }

  lemma AbandonedStays(s: Sys, e: SysEvent, cid: Cid)
    requires Abandoned(s, cid) && SysStep(s, e).Some?
    ensures Abandoned(SysStep(s, e).value, cid)
  {
  }

  lemma AbandonedForever(s: Sys, cid: Cid, later: seq<SysEvent>)
    requires Abandoned(s, cid) && After(s, later).Some?
    ensures Abandoned(After(s, later).value, cid)
  {
    forall t: Sys, e: SysEvent | Abandoned(t, cid) && SysStep(t, e).Some?
      ensures Abandoned(SysStep(t, e).value, cid)
    {
      AbandonedStays(t, e, cid);
    }
    RunKeeps(SysStep, (t: Sys) => Abandoned(t, cid), s, later);
  }

  /** Killed, and its handler died before it could finish. */
  ghost predicate Abandoned(s: Sys, cid: Cid) {
    cid in s && s[cid].handler.Crashed? && s[cid].row.status == Killed && s[cid].row.endedAt.None?
  }

  // ---- each actor alone ----

  /** When each event can happen. */
  lemma EnabledWhen(c: Conn, e: Event)
    ensures ConnStep(c, e).Some? <==> match e
      case SetActive => c.handler.Inserted?
      case StartSession(_) => c.handler.Tracked?
      case EndRelay(_, _, _) => c.handler.Relaying? && !c.publisher.Watching?
      case EndSession => c.handler.Relayed?
      case Decide(_) => c.handler.SessionEnded?
      case Raise(_) => c.handler.Tracked? || c.handler.SessionEnded? || c.handler == Finished(false)
      case UpdateFirst(_) => c.handler.Finishing?
      case UpdateSecond(_) => c.handler.FinishMissed?
      case DeleteActive => c.handler.RowsDone?
      case Return => c.handler.Finished?
      case PublishWatch => c.handler.Relaying? && c.publisher.Sleeping?
      case PublishExec => c.publisher.Watching?
      case KillSetKey(k) => k < |c.killers| && c.killers[k] == KillStarted
      case KillDeleteActive(k) => k < |c.killers| && c.killers[k] == KillSignalled
      case KillUpdate(k, reason) =>
        k < |c.killers| && c.killers[k] == KillActiveDeleted && (reason == AdminKill || reason == AdminKillAll)
      case ReconcileRow(_) => c.handler.Crashed? || c.handler.Done?
      case FlushActive => c.handler.Crashed? || c.handler.Done?
      case KillBegin => true
      case KillKeyExpires => true
      case ActiveExpires => true
      case Crash => true
      case FlushKill => true
  {
  }

  /** The system opens a connection under a fresh id, and a step of one connection is its own. */
  lemma SystemSteps(s: Sys, cid: Cid, instance: string, e: Event)
    ensures cid in s ==> SysStep(s, OpenConn(cid, instance)) == None
    ensures cid !in s ==>
      && SysStep(s, OpenConn(cid, instance)) == Some(s[cid := Open(instance)]) && SysStep(s, At(cid, e)) == None
    ensures cid in s && ConnStep(s[cid], e).None? ==> SysStep(s, At(cid, e)) == None
    ensures cid in s && ConnStep(s[cid], e).Some? ==>
      SysStep(s, At(cid, e)) == Some(s[cid := ConnStep(s[cid], e).value])
  {
  }

  /** From the insert of the row to the report of the relay. */
  lemma SessionAlone(instance: string, monitored: bool, toClient: nat, toBackend: nat, killedLeg: bool)
    ensures var c := Run(ConnStep, Open(instance),
                         [SetActive, StartSession(monitored), EndRelay(toClient, toBackend, killedLeg), EndSession]);
      c == Some(Conn(Row(instance, Active, Unset, None, 0, 0), true, 1, false,
                     SessionEnded(toClient, toBackend, killedLeg), Absent, [],
                     Log(false, false, false, false, Some((toClient, toBackend)))))
  {
    var c := Open(instance);
    var c1 := ConnStep(c, SetActive).value;
    var c2 := ConnStep(c1, StartSession(monitored)).value;
    var c3 := ConnStep(c2, EndRelay(toClient, toBackend, killedLeg)).value;
    RunFour(ConnStep, c, SetActive, c1, StartSession(monitored), c2, EndRelay(toClient, toBackend, killedLeg), c3,
            EndSession);
  }

  /** The handler from the end of the session on: the end that is stored, by the killed legs, the kill key
      and the duration, in that order. A row that is killed already gets the end time and the counts. */
  lemma EndAlone(c: Conn, durationExceeded: bool, now: int) returns (d: Conn)
    requires c.handler.SessionEnded?
    ensures var p := c.handler;
      d.row == if c.row.status == Killed
        then Row(c.row.instance, Killed, c.row.reason, Some(now), p.toClient, p.toBackend)
        else if !p.killedLeg then Row(c.row.instance, Closed, Normal, Some(now), p.toClient, p.toBackend)
        else if c.killKey then Row(c.row.instance, Killed, AdminKill, Some(now), p.toClient, p.toBackend)
        else if durationExceeded then Row(c.row.instance, Closed, MaxDuration, Some(now), p.toClient, p.toBackend)
        else Row(c.row.instance, Closed, IdleTimeout, Some(now), p.toClient, p.toBackend)
    ensures !d.active && d.handler == Done && d.killKey == c.killKey && d.killers == c.killers
    ensures Run(ConnStep, c, [Decide(durationExceeded)] + FinishEvents(c.row, now)) == Some(d)
  {
    var c1 := ConnStep(c, Decide(durationExceeded)).value;
    d := FinishAlone(c1, now);
    RunFirst(ConnStep, c, Decide(durationExceeded), FinishEvents(c.row, now));
  }

  /** The commands of `finish` and the return of the handler. */
  function FinishEvents(row: Row, now: int): seq<Event> {
    if row.status == Killed then [UpdateFirst(now), UpdateSecond(now), DeleteActive, Return]
    else [UpdateFirst(now), DeleteActive, Return]
  }

  lemma FinishAlone(c: Conn, now: int) returns (d: Conn)
    requires c.handler.Finishing?
    ensures var e := c.handler.ending;
      d.row == Row(c.row.instance, if c.row.status == Killed then Killed else e.status,
                   if c.row.status == Killed then c.row.reason else e.reason, Some(now), e.toClient, e.toBackend)
    ensures !d.active && d.handler == Done && d.killKey == c.killKey && d.killers == c.killers && d.log == c.log
    ensures Run(ConnStep, c, FinishEvents(c.row, now)) == Some(d)
  {
    var c1 := ConnStep(c, UpdateFirst(now)).value;
    var c2 := if c.row.status == Killed then ConnStep(c1, UpdateSecond(now)).value else c1;
    assert c2.handler == RowsDone(c.handler.ending, c.handler.last);
    var c3 := ConnStep(c2, DeleteActive).value;
    d := ConnStep(c3, Return).value;
    if c.row.status == Killed {
      RunFour(ConnStep, c, UpdateFirst(now), c1, UpdateSecond(now), c2, DeleteActive, c3, Return);
    } else {
      RunThree(ConnStep, c, UpdateFirst(now), c1, DeleteActive, c3, Return);
    }
  }

  /** An exception ends the handler: what is stored for a client that disconnects and for any other one. */
  lemma RaiseAlone(c: Conn, disconnect: bool, now: int) returns (d: Conn)
    requires c.handler.Tracked? || c.handler.SessionEnded? || c.handler == Finished(false)
    ensures d.row == if c.row.status == Killed then Row(c.row.instance, Killed, c.row.reason, Some(now), 0, 0)
      else if disconnect then Row(c.row.instance, Closed, ClientDisconnect, Some(now), 0, 0)
      else Row(c.row.instance, Errored, RelayException, Some(now), 0, 0)
    ensures !d.active && d.handler == Done && d.log.relayed == c.log.relayed
    ensures d.log.raisedAfterFinish <==> c.log.raisedAfterFinish || c.handler.Finished?
    ensures d.log.raisedBeforeFinish <==> c.log.raisedBeforeFinish || !c.handler.Finished?
    ensures Run(ConnStep, c, [Raise(disconnect)] + FinishEvents(c.row, now)) == Some(d)
  {
    var c1 := ConnStep(c, Raise(disconnect)).value;
    d := FinishAlone(c1, now);
    RunFirst(ConnStep, c, Raise(disconnect), FinishEvents(c.row, now));
  }

  lemma KillerSteps(c: Conn, k: nat, reason: Reason)
    requires reason == AdminKill || reason == AdminKillAll
    ensures ConnStep(c, KillBegin) == Some(c.(killers := c.killers + [KillStarted]))
    ensures k < |c.killers| && c.killers[k] == KillStarted ==>
      ConnStep(c, KillSetKey(k)) == Some(c.(killKey := true, killers := c.killers[k := KillSignalled]))
    ensures k < |c.killers| && c.killers[k] == KillSignalled ==> var d := ConnStep(c, KillDeleteActive(k));
      && d.Some? && !d.value.active
      && d.value.(active := c.active, activeVersion := c.activeVersion)
         == c.(killers := c.killers[k := KillActiveDeleted])
    ensures k < |c.killers| && c.killers[k] == KillActiveDeleted ==> var d := ConnStep(c, KillUpdate(k, reason));
      && d.Some? && d.value.killers == c.killers[k := KillFinished]
      && d.value.row == (if c.row.status == Active then c.row.(status := Killed, reason := reason) else c.row)
      && d.value.(row := c.row, killers := c.killers, log := c.log) == c
  {
  }

  /** One admin kill: the kill key is up, the active key is gone, and an active row is killed. */
  lemma KillAlone(c: Conn, reason: Reason) returns (d: Conn)
    requires reason == AdminKill || reason == AdminKillAll
    ensures d.killKey && !d.active && d.handler == c.handler && d.publisher == c.publisher
    ensures d.row == if c.row.status == Active then c.row.(status := Killed, reason := reason) else c.row
    ensures d.killers == c.killers + [KillFinished]
    ensures var k := |c.killers|;
      Run(ConnStep, c, [KillBegin, KillSetKey(k), KillDeleteActive(k), KillUpdate(k, reason)]) == Some(d)
  {
    var k := |c.killers|;
    KillerSteps(c, k, reason);
    var c1 := c.(killers := c.killers + [KillStarted]);
    KillerSteps(c1, k, reason);
    var c2 := c1.(killKey := true, killers := c.killers + [KillSignalled]);
    assert c2.killers == c1.killers[k := KillSignalled];
    KillerSteps(c2, k, reason);
    var c3 := ConnStep(c2, KillDeleteActive(k)).value;
    KillerSteps(c3, k, reason);
    d := ConnStep(c3, KillUpdate(k, reason)).value;
    assert d.killers == c.killers + [KillFinished];
    RunFour(ConnStep, c, KillBegin, c1, KillSetKey(k), c2, KillDeleteActive(k), c3, KillUpdate(k, reason));
  }

  lemma RestartSteps(c: Conn, now: int)
    ensures !c.handler.Done? ==> ConnStep(c, Crash) == Some(c.(handler := Crashed, publisher := Absent))
    ensures c.handler == Crashed ==> var d := ConnStep(c, ReconcileRow(now));
      && d.Some? && d.value.(row := c.row) == c
      && d.value.row == if c.row.status == Active && c.row.endedAt.None?
        then Row(c.row.instance, Errored, RelayRestart, Some(now), c.row.toClient, c.row.toBackend) else c.row
    ensures c.handler == Crashed ==> var d := ConnStep(c, FlushActive);
      d.Some? && !d.value.active && d.value.(active := c.active, activeVersion := c.activeVersion) == c
    ensures ConnStep(c, FlushKill) == Some(c.(killKey := false))
  {
  }

  /** A crash and the start after it: a row that is still active without an end is closed with an error,
      and the keys are gone. */
  lemma RestartAlone(c: Conn, now: int) returns (d: Conn)
    requires !c.handler.Done?
    ensures d.row == if c.row.status == Active && c.row.endedAt.None?
      then Row(c.row.instance, Errored, RelayRestart, Some(now), c.row.toClient, c.row.toBackend) else c.row
    ensures d.handler == Crashed && d.publisher == Absent && !d.active && !d.killKey
    ensures Run(ConnStep, c, [Crash, ReconcileRow(now), FlushActive, FlushKill]) == Some(d)
  {
    RestartSteps(c, now);
    var c1 := c.(handler := Crashed, publisher := Absent);
    RestartSteps(c1, now);
    var c2 := ConnStep(c1, ReconcileRow(now)).value;
    RestartSteps(c2, now);
    var c3 := ConnStep(c2, FlushActive).value;
    RestartSteps(c3, now);
    d := c3.(killKey := false);
    RunFour(ConnStep, c, Crash, c1, ReconcileRow(now), c2, FlushActive, c3, FlushKill);
  }

  /** The publisher writes the active key, unless the key was written or deleted since its WATCH. */
  lemma PublishAlone(c: Conn) returns (d: Conn)
    requires c.handler.Relaying? && c.publisher.Sleeping?
    ensures d.active && d.publisher == Sleeping && d.row == c.row && d.handler == c.handler
    ensures Run(ConnStep, c, [PublishWatch, PublishExec]) == Some(d)
  {
    var c1 := ConnStep(c, PublishWatch).value;
    d := ConnStep(c1, PublishExec).value;
    RunTwo(ConnStep, c, PublishWatch, c1, PublishExec);
  }

  lemma PublishFails(c: Conn, k: nat) returns (d: Conn)
    requires c.handler.Relaying? && c.publisher.Sleeping? && c.active
    requires k < |c.killers| && c.killers[k] == KillSignalled
    ensures !d.active && d.publisher == Sleeping && d.row == c.row && d.handler == c.handler
    ensures Run(ConnStep, c, [PublishWatch, KillDeleteActive(k), PublishExec]) == Some(d)
  {
    var c1 := ConnStep(c, PublishWatch).value;
    var c2 := ConnStep(c1, KillDeleteActive(k)).value;
    d := ConnStep(c2, PublishExec).value;
    RunThree(ConnStep, c, PublishWatch, c1, KillDeleteActive(k), c2, PublishExec);
  }

  /** Keys expire, and nothing else changes with them. */
  lemma ExpiryAlone(c: Conn)
    ensures var d := ConnStep(c, KillKeyExpires); d.Some? && d.value == c.(killKey := false)
    ensures var d := ConnStep(c, ActiveExpires);
      && d.Some? && !d.value.active
      && d.value.(active := c.active, activeVersion := c.activeVersion) == c
  {
  }

  // ---- claims that fail, each by one interleaving of a single connection ----

  /** One connection, reached from the empty system. */
  ghost predicate Reaches(c: Conn) {
    exists events :: After(map[], events) == Some(map[0 := c])
  }

  lemma Opened(instance: string)
    ensures Reaches(Open(instance))
  {
    assert After(map[], []) == Some(map[]);
    RunSnoc(SysStep, map[], [], OpenConn(0, instance));
    assert After(map[], [] + [OpenConn(0, instance)]) == Some(map[0 := Open(instance)]);
  }

  lemma Then(c: Conn, e: Event) returns (d: Conn)
    requires Reaches(c) && ConnStep(c, e).Some?
    ensures Some(d) == ConnStep(c, e) && Reaches(d)
  {
    var events :| After(map[], events) == Some(map[0 := c]);
    d := ConnStep(c, e).value;
    RunSnoc(SysStep, map[], events, At(0, e));
    assert map[0 := c][0 := d] == map[0 := d];
    assert After(map[], events + [At(0, e)]) == Some(map[0 := d]);
  }

  /** A run of the connection alone is one of the system. */
  lemma {:induction false} ThenAll(c: Conn, events: seq<Event>, d: Conn)
    requires Reaches(c) && Run(ConnStep, c, events) == Some(d)
    ensures Reaches(d)
    decreases |events|
  {
    if events != [] {
      var next := Then(c, events[0]);
      ThenAll(next, events[1..], d);
    }
  }

  const FRESH_LOG := Log(false, false, false, false, None)

  /** A connection in the middle of its relay, with a monitored session. */
  const RELAYING := Conn(NewRow("relay"), true, 1, false, Relaying, Sleeping, [], FRESH_LOG)

  /** The same connection once `finish` has returned, with 5 and 7 bytes relayed. */
  const FINISHED := Conn(
    Row("relay", Closed, Normal, Some(1), 5, 7), false, 2, false, Finished(false), Absent, [],
    FRESH_LOG.(relayed := Some((5, 7))))

  lemma ReachesRelaying()
    ensures Reaches(RELAYING)
  {
    Opened("relay");
    var c := Then(Open("relay"), SetActive);
    c := Then(c, StartSession(true));
  }

  lemma ReachesFinished()
    ensures Reaches(FINISHED)
  {
    ReachesRelaying();
    var c := Then(RELAYING, EndRelay(5, 7, false));
    c := Then(c, EndSession);
    c := Then(c, Decide(false));
    c := Then(c, UpdateFirst(1));
    c := Then(c, DeleteActive);
  }

  /** An exception after `finish` runs `finish` again and stores zero bytes over the relayed ones. */
  lemma LateExceptionLosesBytes() returns (c: Conn)
    ensures Reaches(c) && c.handler.Done? && c.log.raisedAfterFinish && !c.log.raisedBeforeFinish
    ensures c.log.relayed == Some((5, 7)) && c.row.toClient == 0 && c.row.toBackend == 0
  {
    ReachesFinished();
    c := RaiseAlone(FINISHED, false, 2);
    ThenAll(FINISHED, [Raise(false)] + FinishEvents(FINISHED.row, 2), c);
  }

  /** Between a completed kill and `finish` the publisher can bring the active key back. */
  lemma PublisherRevivesKilled() returns (c: Conn)
    ensures Reaches(c) && c.killers == [KillFinished] && c.row.status == Killed && c.active && c.handler.Relaying?
  {
    ReachesRelaying();
    c := KillAlone(RELAYING, AdminKill);
    ThenAll(RELAYING, [KillBegin, KillSetKey(0), KillDeleteActive(0), KillUpdate(0, AdminKill)], c);
    c := Revive(c);
  }

  lemma Revive(c: Conn) returns (d: Conn)
    requires Reaches(c) && c.handler.Relaying? && c.publisher.Sleeping?
    ensures Reaches(d) && d == SetActiveKey(c)
  {
    d := Then(c, PublishWatch);
    d := Then(d, PublishExec);
  }
}
