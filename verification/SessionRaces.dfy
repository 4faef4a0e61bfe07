/** One web session key under concurrent calls: accesses (WATCH, read, then EXEC), logouts, the clock
    and, for admin sessions, `update_admin_must_change`, which reads and writes without WATCH. */
module SessionRaces {
  import opened Basics
  import opened Redis
  import opened Sessions
  import opened Runs

  type Actor = int

  /** What an open access will send with EXEC: a delete, or a refresh with the remaining time. */
  datatype Pending = Pending(version: int, refresh: Option<Entry<WebPayload>>)

  /** An open `update_admin_must_change`: it has the payload; then also a remaining time that was not
      over, and will write. */
  datatype Update = Got(payload: WebPayload) | Timed(entry: Entry<WebPayload>)

  datatype State = State(
    now: int,
    cell: Cell,
    version: int,                       // bumped whenever the key is written or removed
    open: map<Actor, Pending>,
    updates: map<Actor, Update>)

  /** The session's first key, its idle limit, and whether unwatched updates exist. */
  datatype Config = Config(start: Entry<WebPayload>, idleTtl: int, unwatchedUpdates: bool)

  datatype Event =
    | Tick
    | Read(actor: Actor, fingerprint: Digest)
    | Exec(actor: Actor)
    | Delete
    | UpdateGet(actor: Actor)
    | UpdateTtl(actor: Actor)
    | UpdateWrite(actor: Actor)

  function Init(cfg: Config): State {
    State(cfg.start.value.lastSeen, Some(cfg.start), 0, map[], map[])
  }

  function Write(s: State, c: Cell): State {
    if s.cell == None && c == None then s else s.(cell := c, version := s.version + 1)
  }

  function Step(cfg: Config, s: State, e: Event): Option<State> {
    match e
    case Tick => if s.open == map[] && s.updates == map[] then Some(s.(now := s.now + 1)) else None
    case Read(a, fingerprint) =>
      if a in s.open || !CellAlive(s.cell, s.now) then None
      else Some(s.(open := s.open[a := Pending(s.version, AfterAccess(s.cell, s.now, cfg.idleTtl, fingerprint))]))
    case Exec(a) =>
      if a !in s.open then None
      else
        var closed := s.(open := s.open - {a});
        // a WatchError is swallowed and nothing is written
        if s.open[a].version == s.version then Some(Write(closed, s.open[a].refresh)) else Some(closed)
    case Delete => Some(Write(s, None))
    case UpdateGet(a) =>
      if cfg.unwatchedUpdates && a !in s.updates && CellAlive(s.cell, s.now)
      then Some(s.(updates := s.updates[a := Got(s.cell.value.value)])) else None
    case UpdateTtl(a) =>
      if a !in s.updates || !s.updates[a].Got? then None
      // a key that is gone by now ends the call
      else if !CellAlive(s.cell, s.now) then Some(s.(updates := s.updates - {a}))
      else Some(s.(updates := s.updates[a := Timed(Entry(s.updates[a].payload, s.cell.value.expires))]))
    case UpdateWrite(a) =>
      if a in s.updates && s.updates[a].Timed?
      then Some(Write(s, Some(s.updates[a].entry)).(updates := s.updates - {a})) else None
  }

  function StepOf(cfg: Config): (State, Event) -> Option<State> {
    (s: State, e: Event) => Step(cfg, s, e)
  }

  function After(cfg: Config, s: State, events: seq<Event>): Option<State> {
    Run(StepOf(cfg), s, events)
  }

  // ---- each call alone ----

  /** An access that nobody disturbs is the one of sequential calls; one that loses its race writes nothing. */
  lemma AccessAlone(cfg: Config, s: State, a: Actor, fingerprint: Digest)
    requires a !in s.open && s.cell.Some? && s.now < s.cell.value.expires
    ensures var e := s.cell.value; var end := After(cfg, s, [Read(a, fingerprint), Exec(a)]);
      && end.Some? && end.value.now == s.now && end.value.open == s.open && end.value.updates == s.updates
      && end.value.cell == if e.value.fingerprint == fingerprint && s.now - e.value.lastSeen <= cfg.idleTtl
                           then Some(Entry(e.value.(lastSeen := s.now), e.expires)) else None
    ensures var end := After(cfg, s, [Read(a, fingerprint), Delete, Exec(a)]);
      end.Some? && end.value.cell == None && end.value.open == s.open
  {
    var s1 := Step(cfg, s, Read(a, fingerprint)).value;
    RunTwo(StepOf(cfg), s, Read(a, fingerprint), s1, Exec(a));
    assert s1.open - {a} == s.open;
    var s2 := Step(cfg, s1, Delete).value;
    RunThree(StepOf(cfg), s, Read(a, fingerprint), s1, Delete, s2, Exec(a));
  }

  /** An update alone leaves the session and its expiry, and one that finds no key ends there. */
  lemma UpdateAlone(cfg: Config, s: State, a: Actor)
    requires cfg.unwatchedUpdates && a !in s.updates && s.cell.Some? && s.now < s.cell.value.expires
    ensures var end := After(cfg, s, [UpdateGet(a), UpdateTtl(a), UpdateWrite(a)]);
      && end.Some? && end.value.now == s.now && end.value.cell == s.cell
      && end.value.open == s.open && end.value.updates == s.updates
    ensures var end := After(cfg, s, [UpdateGet(a), Delete, UpdateTtl(a)]);
      end.Some? && end.value.cell == None && end.value.updates == s.updates
  {
    var s1 := Step(cfg, s, UpdateGet(a)).value;
    var s2 := Step(cfg, s1, UpdateTtl(a)).value;
    RunThree(StepOf(cfg), s, UpdateGet(a), s1, UpdateTtl(a), s2, UpdateWrite(a));
    assert s2.updates - {a} == s.updates;
    var s3 := Step(cfg, s1, Delete).value;
    RunThree(StepOf(cfg), s, UpdateGet(a), s1, Delete, s3, UpdateTtl(a));
    assert s1.updates - {a} == s.updates;
  }

  /** A logout, the clock, and calls that find no key. */
  lemma OthersAlone(cfg: Config, s: State, a: Actor, fingerprint: Digest)
    ensures var end := Step(cfg, s, Delete);
      && end.Some? && end.value.cell == None && end.value.now == s.now
      && end.value.open == s.open && end.value.updates == s.updates
    ensures s.open == map[] && s.updates == map[] ==> Step(cfg, s, Tick) == Some(s.(now := s.now + 1))
    ensures s.cell == None || s.cell.value.expires <= s.now ==>
      Step(cfg, s, Read(a, fingerprint)) == None && Step(cfg, s, UpdateGet(a)) == None
  {
  }

  predicate Absent(s: State) {
    !CellAlive(s.cell, s.now)
  }

  /** In every interleaving: a session that is gone at some moment is gone at all later ones. */
  ghost predicate NeverWrittenBack(cfg: Config) {
    forall before, s, after, end ::
      After(cfg, Init(cfg), before) == Some(s) && Absent(s) && After(cfg, s, after) == Some(end) ==> Absent(end)
  }

  /** An access still open has seen the current version only if the key is alive, and an update still
      open would write a key that is alive. */
  ghost predicate Inv(cfg: Config, s: State) {
    && (s.updates != map[] ==> cfg.unwatchedUpdates)
    && (forall a :: a in s.updates && s.updates[a].Timed? ==> s.now < s.updates[a].entry.expires)
    && forall a :: a in s.open ==>
         && s.open[a].version <= s.version
         && (s.open[a].version == s.version ==> CellAlive(s.cell, s.now))
  }

  /** No update is between its look at the remaining time and its write. */
  predicate NoneWillWrite(s: State) {
    forall a :: a in s.updates ==> s.updates[a].Got?
  }

  /** Absent, and nobody is left who could write the key: every open access has lost its race. */
  ghost predicate Gone(cfg: Config, s: State) {
    Inv(cfg, s) && Absent(s) && NoneWillWrite(s)
  }

  lemma StepKeeps(cfg: Config, s: State, e: Event)
    requires Inv(cfg, s) && Step(cfg, s, e).Some?
    ensures Inv(cfg, Step(cfg, s, e).value)
    ensures Gone(cfg, s) ==> Gone(cfg, Step(cfg, s, e).value)
  {
  }

  lemma ReachableInv(cfg: Config, events: seq<Event>)
    requires After(cfg, Init(cfg), events).Some?
    ensures Inv(cfg, After(cfg, Init(cfg), events).value)
  {
    forall s: State, e: Event {:trigger StepOf(cfg)(s, e)} | Inv(cfg, s) && StepOf(cfg)(s, e).Some?
      ensures Inv(cfg, StepOf(cfg)(s, e).value)
    {
      StepKeeps(cfg, s, e);
    }
    RunKeeps(StepOf(cfg), (t: State) => Inv(cfg, t), Init(cfg), events);
  }

  lemma GoneForever(cfg: Config, s: State, after: seq<Event>)
    requires Gone(cfg, s) && After(cfg, s, after).Some?
    ensures Absent(After(cfg, s, after).value)
  {
    forall t: State, e: Event {:trigger StepOf(cfg)(t, e)} | Gone(cfg, t) && StepOf(cfg)(t, e).Some?
      ensures Gone(cfg, StepOf(cfg)(t, e).value)
    {
      StepKeeps(cfg, t, e);
    }
    RunKeeps(StepOf(cfg), (t: State) => Gone(cfg, t), s, after);
  }

  /** An open update writes the key back. */
  lemma UpdateRevives(cfg: Config, s: State, a: Actor)
    requires Inv(cfg, s) && a in s.updates && s.updates[a].Timed?
    ensures After(cfg, s, [UpdateWrite(a)]).Some? && !Absent(After(cfg, s, [UpdateWrite(a)]).value)
  {
    RunSnoc(StepOf(cfg), s, [], UpdateWrite(a));
    assert [] + [UpdateWrite(a)] == [UpdateWrite(a)];
  }

  /** In every reachable state in which the session is gone: it stays gone in every continuation exactly
      when no unwatched update is about to write. So a logout holds from then on, whatever accesses race
      with it, unless an update has looked at the key's remaining time before and not yet written. */
  lemma GoneForGoodIff(cfg: Config, before: seq<Event>, s: State)
    requires After(cfg, Init(cfg), before) == Some(s) && Absent(s)
    ensures (forall after, end :: After(cfg, s, after) == Some(end) ==> Absent(end)) <==> NoneWillWrite(s)
  {
    ReachableInv(cfg, before);
    if NoneWillWrite(s) {
      forall after, end | After(cfg, s, after) == Some(end)
        ensures Absent(end)
      {
        GoneForever(cfg, s, after);
      }
    } else {
      var a :| a in s.updates && !s.updates[a].Got?;
      UpdateRevives(cfg, s, a);
    }
  }

  /** A deleted or expired session is never written back exactly when every writer watches the key. */
  lemma NeverWrittenBackIff(cfg: Config)
    requires cfg.start.value.lastSeen < cfg.start.expires
    ensures NeverWrittenBack(cfg) <==> !cfg.unwatchedUpdates
  {
    if cfg.unwatchedUpdates {
      UnwatchedUpdateRevives(cfg);
    } else {
      forall before, s, after, end |
        After(cfg, Init(cfg), before) == Some(s) && Absent(s) && After(cfg, s, after) == Some(end)
        ensures Absent(end)
      {
        ReachableInv(cfg, before);
        GoneForGoodIff(cfg, before, s);
      }
    }
  }

  /** An update reads the key, a logout deletes it, and the update writes it back. */
  lemma UnwatchedUpdateRevives(cfg: Config)
    requires cfg.unwatchedUpdates && cfg.start.value.lastSeen < cfg.start.expires
    ensures !NeverWrittenBack(cfg)
  {
    var step, s0 := StepOf(cfg), Init(cfg);
    RunSnoc(step, s0, [], UpdateGet(0));
    var events := [] + [UpdateGet(0)];
    RunSnoc(step, s0, events, UpdateTtl(0));
    events := events + [UpdateTtl(0)];
    RunSnoc(step, s0, events, Delete);
    events := events + [Delete];
    var s := After(cfg, s0, events).value;
    assert 0 in s.updates && s.updates[0].Timed? && Absent(s);
    GoneForGoodIff(cfg, events, s);
  }
}
