/** Does an admin kill revoke the RDP token for good?

    The portal issues tokens, relay handlers bind a client fingerprint to a token under WATCH and
    record which token a connection used (the CONN_TOKEN key), admin kills look that key up and
    delete the token, handlers and restarts delete keys, and the clock runs. All of it interleaves;
    the clock stands still while a WATCH body is open. */
module TokenRevocation {
  import opened Basics
  import opened Redis
  import opened Runs

  type Token = int
  type Cid = int
  type Actor = int

  datatype Session = Session(fingerprint: Option<string>)

  /** An open WATCH body of `set_token_fingerprint`: it has read the key and its remaining time. */
  datatype Bind = Bind(token: Token, version: int, ttl: int)

  /** A connection: the token it recorded, and whether its handler is still before `finish`. */
  datatype Conn = Conn(token: Token, running: bool)

  datatype KillPhase = Looked(raw: Option<Token>) | TokenDeleted | KillDone

  /** `liveAtLookup`: when the kill looked, the connection had recorded its token and was running. */
  datatype Kill = Kill(cid: Cid, liveAtLookup: bool, phase: KillPhase)

  /** The flush of a relay that starts: first every token key, then every CONN_TOKEN key, of whichever
      relay. A scan finds at least the keys that were there when it began. */
  datatype Flush = TokenPass(pending: set<Token>) | ConnTokenPass

  datatype State = State(
    now: int,
    issued: set<Token>,
    tokens: Db<Token, Session>,
    connTokens: Db<Cid, Token>,
    version: map<Token, int>,          // bumped by every write to the token's key
    binds: map<Actor, Bind>,
    conns: map<Cid, Conn>,
    kills: map<Actor, Kill>,
    flushes: map<Actor, Flush>)

  /** `maxIssueTtl`: the longest lifetime a token is issued with (the managed setting);
      `connTtl`: the lifetime of a CONN_TOKEN key (the value in the configuration file);
      `startsBeside`: a relay may start while connections of another one are running. */
  datatype Config = Config(maxIssueTtl: int, connTtl: int, startsBeside: bool) {
    predicate Valid() {
      0 < maxIssueTtl && 0 < connTtl
    }

    /** What a kill needs to revoke a token for good. */
    predicate Revocable() {
      maxIssueTtl <= connTtl && !startsBeside
    }
  }

  datatype Event =
    | Tick
    | Issue(token: Token, ttl: int)
    | BindRead(actor: Actor, token: Token)
    | BindExec(actor: Actor, fingerprint: string)
    | Record(cid: Cid, token: Token)
    | HandlerOver(cid: Cid)                 // the handler reaches `finish`, or dies
    | DropToken(token: Token)               // `delete_session`
    | DropConnToken(cid: Cid)               // by the handler after `finish`
    | KillLook(actor: Actor, cid: Cid)
    | KillDeleteToken(actor: Actor)
    | KillDeleteConnToken(actor: Actor)
    | FlushBegin(actor: Actor)
    | FlushToken(actor: Actor, token: Token)
    | FlushNext(actor: Actor)
    | FlushConnToken(actor: Actor, cid: Cid)
    | FlushEnd(actor: Actor)

  const INIT := State(0, {}, map[], map[], map[], map[], map[], map[], map[])

  predicate NoneRunning(s: State) {
    forall c :: c in s.conns ==> !s.conns[c].running
  }

  function Version(s: State, t: Token): int {
    if t in s.version then s.version[t] else 0
  }

  function Touch(s: State, t: Token): State {
    s.(version := s.version[t := Version(s, t) + 1])
  }

  function DeleteToken(s: State, t: Token): State {
    if t in s.tokens then Touch(s, t).(tokens := Del(s.tokens, t)) else s
  }

  /** `get_session` finds the token. */
  function GetSession(s: State, t: Token): Option<Session> {
    Get(s.tokens, s.now, t)
  }

  /** The flush of a starting relay. */
  function FlushStep(cfg: Config, s: State, e: Event): Option<State> {
    match e
    case FlushBegin(a) =>
      if a !in s.flushes && (cfg.startsBeside || NoneRunning(s))
      then Some(s.(flushes := s.flushes[a := TokenPass(set t | t in s.tokens && Alive(s.tokens, s.now, t))])) else None
    case FlushToken(a, t) =>
      if a in s.flushes && s.flushes[a].TokenPass?
      then Some(DeleteToken(s, t).(flushes := s.flushes[a := TokenPass(s.flushes[a].pending - {t})])) else None
    case FlushNext(a) =>
      if a in s.flushes && s.flushes[a].TokenPass?
         && forall t :: t in s.flushes[a].pending ==> !Alive(s.tokens, s.now, t)
      then Some(s.(flushes := s.flushes[a := ConnTokenPass])) else None
    case FlushConnToken(a, c) =>
      if a in s.flushes && s.flushes[a].ConnTokenPass? then Some(s.(connTokens := Del(s.connTokens, c))) else None
    case FlushEnd(a) =>
      if a in s.flushes && s.flushes[a].ConnTokenPass? then Some(s.(flushes := s.flushes - {a})) else None
    case _ => None
  }

  /** The clock, and the portal's side of a token. */
  function TokenStep(cfg: Config, s: State, e: Event): Option<State> {
    match e
    case Tick => if s.binds == map[] then Some(s.(now := s.now + 1)) else None
    case Issue(t, ttl) =>
      if t !in s.issued && 0 < ttl <= cfg.maxIssueTtl
      then Some(Touch(s, t).(issued := s.issued + {t}, tokens := SetEx(s.tokens, s.now, t, ttl, Session(None))))
      else None
    case DropToken(t) => Some(DeleteToken(s, t))
    case _ => None
  }

  /** `set_token_fingerprint` */
  function BindStep(s: State, e: Event): Option<State> {
    match e
    case BindRead(a, t) =>
      // a missing key ends the call with False
      if a !in s.binds && Alive(s.tokens, s.now, t)
      then Some(s.(binds := s.binds[a := Bind(t, Version(s, t), Ttl(s.tokens, s.now, t))])) else None
    case BindExec(a, fingerprint) =>
      if a !in s.binds then None
      else
        var b := s.binds[a];
        var closed := s.(binds := s.binds - {a});
        if b.version != Version(s, b.token) then Some(closed) // WatchError: the loop starts over
        else Some(Touch(closed, b.token).(
                    tokens := SetEx(s.tokens, s.now, b.token, b.ttl, Session(Some(fingerprint)))))
    case _ => None
  }

  /** The relay handler of a connection. */
  function HandlerStep(cfg: Config, s: State, e: Event): Option<State> {
    match e
    case Record(c, t) =>
      // a relay serves only once its own flush is over
      if c !in s.conns && t in s.issued && (cfg.startsBeside || s.flushes == map[])
      then Some(s.(conns := s.conns[c := Conn(t, true)], connTokens := SetEx(s.connTokens, s.now, c, cfg.connTtl, t)))
      else None
    case HandlerOver(c) => if c in s.conns then Some(s.(conns := s.conns[c := s.conns[c].(running := false)])) else None
    case DropConnToken(c) =>
      if c in s.conns && !s.conns[c].running then Some(s.(connTokens := Del(s.connTokens, c))) else None
    case _ => None
  }

  /** An admin kill. */
  function KillStep(s: State, e: Event): Option<State> {
    match e
    case KillLook(a, c) =>
      if a in s.kills then None
      else Some(s.(kills := s.kills[a := Kill(c, c in s.conns && s.conns[c].running,
                                              Looked(Get(s.connTokens, s.now, c)))]))
    case KillDeleteToken(a) =>
      if a !in s.kills || !s.kills[a].phase.Looked? then None
      else if s.kills[a].phase.raw.None? then Some(s.(kills := s.kills[a := s.kills[a].(phase := KillDone)]))
      else Some(DeleteToken(s, s.kills[a].phase.raw.value).(
                  kills := s.kills[a := s.kills[a].(phase := TokenDeleted)]))
    case KillDeleteConnToken(a) =>
      if a !in s.kills || !s.kills[a].phase.TokenDeleted? then None
      else Some(s.(connTokens := Del(s.connTokens, s.kills[a].cid),
                   kills := s.kills[a := s.kills[a].(phase := KillDone)]))
    case _ => None
  }

  function Step(cfg: Config, s: State, e: Event): Option<State> {
    match e
    case Tick | Issue(_, _) | DropToken(_) => TokenStep(cfg, s, e)
    case BindRead(_, _) | BindExec(_, _) => BindStep(s, e)
    case Record(_, _) | HandlerOver(_) | DropConnToken(_) => HandlerStep(cfg, s, e)
    case KillLook(_, _) | KillDeleteToken(_) | KillDeleteConnToken(_) => KillStep(s, e)
    case _ => FlushStep(cfg, s, e)
  }

  function StepOf(cfg: Config): (State, Event) -> Option<State> {
    (s: State, e: Event) => Step(cfg, s, e)
  }

  function After(cfg: Config, s: State, events: seq<Event>): Option<State> {
    Run(StepOf(cfg), s, events)
  }

  // ---- each actor alone ----

  /** A token is issued once, for no longer than the longest lifetime, and dropped at any time. */
  lemma TokenAlone(cfg: Config, s: State, t: Token, ttl: int)
    ensures t !in s.issued && 0 < ttl <= cfg.maxIssueTtl ==> var end := Step(cfg, s, Issue(t, ttl));
      && end.Some? && SameElsewhere(s, end.value) && end.value.issued == s.issued + {t}
      && end.value.tokens == s.tokens[t := Entry(Session(None), s.now + ttl)]
    ensures t in s.issued || ttl <= 0 || cfg.maxIssueTtl < ttl ==> Step(cfg, s, Issue(t, ttl)) == None
    ensures var end := Step(cfg, s, DropToken(t));
      && end.Some? && SameElsewhere(s, end.value) && end.value.issued == s.issued && end.value.tokens == s.tokens - {t}
    ensures s.binds == map[] ==> Step(cfg, s, Tick) == Some(s.(now := s.now + 1))
  {
  }

  /** Only the token keys, their versions and the set of issued tokens may differ. */
  ghost predicate SameElsewhere(s: State, s': State) {
    && s'.now == s.now && s'.connTokens == s.connTokens && s'.binds == s.binds && s'.conns == s.conns
    && s'.kills == s.kills && s'.flushes == s.flushes
  }

  /** A bind that nobody disturbs writes the fingerprint and keeps the expiry; one whose token is dropped
      in between writes nothing. */
  lemma BindAlone(cfg: Config, s: State, a: Actor, t: Token, fingerprint: string)
    requires a !in s.binds
    ensures t !in s.tokens || s.tokens[t].expires <= s.now ==> Step(cfg, s, BindRead(a, t)) == None
    ensures t in s.tokens && s.now < s.tokens[t].expires ==>
      var end := After(cfg, s, [BindRead(a, t), BindExec(a, fingerprint)]);
      && end.Some? && SameElsewhere(s, end.value) && end.value.issued == s.issued
      && end.value.tokens == s.tokens[t := Entry(Session(Some(fingerprint)), s.tokens[t].expires)]
    ensures t in s.tokens && s.now < s.tokens[t].expires ==>
      var end := After(cfg, s, [BindRead(a, t), DropToken(t), BindExec(a, fingerprint)]);
      end.Some? && SameElsewhere(s, end.value) && end.value.tokens == s.tokens - {t}
  {
    if Alive(s.tokens, s.now, t) {
      var s1 := Step(cfg, s, BindRead(a, t)).value;
      assert s1.binds - {a} == s.binds;
      RunTwo(StepOf(cfg), s, BindRead(a, t), s1, BindExec(a, fingerprint));
      var s2 := Step(cfg, s1, DropToken(t)).value;
      RunThree(StepOf(cfg), s, BindRead(a, t), s1, DropToken(t), s2, BindExec(a, fingerprint));
    }
  }

  /** Only the connections and their CONN_TOKEN keys may differ. */
  ghost predicate SameTokens(s: State, s': State) {
    && s'.now == s.now && s'.issued == s.issued && s'.tokens == s.tokens && s'.version == s.version
    && s'.binds == s.binds && s'.kills == s.kills && s'.flushes == s.flushes
  }

  /** A handler from recording its token to the delete of that record. */
  lemma HandlerAlone(cfg: Config, s: State, c: Cid, t: Token)
    requires c !in s.conns && t in s.issued && (cfg.startsBeside || s.flushes == map[])
    ensures var end := After(cfg, s, [Record(c, t)]);
      && end.Some? && SameTokens(s, end.value) && end.value.conns == s.conns[c := Conn(t, true)]
      && end.value.connTokens == s.connTokens[c := Entry(t, s.now + cfg.connTtl)]
    ensures var end := After(cfg, s, [Record(c, t), HandlerOver(c), DropConnToken(c)]);
      && end.Some? && SameTokens(s, end.value) && end.value.conns == s.conns[c := Conn(t, false)]
      && end.value.connTokens == s.connTokens - {c}
    ensures After(cfg, s, [Record(c, t), DropConnToken(c)]) == None
  {
    var s1 := Step(cfg, s, Record(c, t)).value;
    RunOne(StepOf(cfg), s, Record(c, t));
    RunTwo(StepOf(cfg), s, Record(c, t), s1, DropConnToken(c));
    var s2 := Step(cfg, s1, HandlerOver(c)).value;
    RunThree(StepOf(cfg), s, Record(c, t), s1, HandlerOver(c), s2, DropConnToken(c));
    assert s.connTokens[c := Entry(t, s.now + cfg.connTtl)] - {c} == s.connTokens - {c};
  }

  /** The three commands of a kill that finds a record. */
  lemma KillSteps(s: State, a: Actor, c: Cid, live: bool, t: Token)
    ensures a !in s.kills && c in s.connTokens && s.now < s.connTokens[c].expires ==>
      KillStep(s, KillLook(a, c)) == Some(s.(kills := s.kills[a := Kill(
        c, c in s.conns && s.conns[c].running, Looked(Some(s.connTokens[c].value)))]))
    ensures a in s.kills && s.kills[a] == Kill(c, live, Looked(Some(t))) ==>
      var end := KillStep(s, KillDeleteToken(a));
      && end.Some? && SameElsewhere(s.(kills := s.kills[a := Kill(c, live, TokenDeleted)]), end.value)
      && end.value.tokens == s.tokens - {t} && end.value.issued == s.issued
    ensures a in s.kills && s.kills[a] == Kill(c, live, TokenDeleted) ==>
      KillStep(s, KillDeleteConnToken(a)) == Some(s.(connTokens := s.connTokens - {c},
                                                     kills := s.kills[a := Kill(c, live, KillDone)]))
  {
  }

  /** A kill deletes the recorded token and the record. */
  lemma KillAlone(cfg: Config, s: State, a: Actor, c: Cid)
    requires a !in s.kills && c in s.connTokens && s.now < s.connTokens[c].expires
    ensures var end := After(cfg, s, [KillLook(a, c), KillDeleteToken(a), KillDeleteConnToken(a)]);
      && end.Some? && end.value.tokens == s.tokens - {s.connTokens[c].value} && end.value.conns == s.conns
      && end.value.connTokens == s.connTokens - {c} && end.value.now == s.now && end.value.issued == s.issued
      && end.value.binds == s.binds && end.value.flushes == s.flushes
  {
    var live, t := c in s.conns && s.conns[c].running, s.connTokens[c].value;
    KillSteps(s, a, c, live, t);
    var s1 := s.(kills := s.kills[a := Kill(c, live, Looked(Some(t)))]);
    KillSteps(s1, a, c, live, t);
    var s2 := KillStep(s1, KillDeleteToken(a)).value;
    KillSteps(s2, a, c, live, t);
    RunThree(StepOf(cfg), s, KillLook(a, c), s1, KillDeleteToken(a), s2, KillDeleteConnToken(a));
  }

  /** Without a record it deletes nothing. */
  lemma KillFindsNothing(cfg: Config, s: State, a: Actor, c: Cid)
    requires a !in s.kills && (c !in s.connTokens || s.connTokens[c].expires <= s.now)
    ensures var end := After(cfg, s, [KillLook(a, c), KillDeleteToken(a)]);
      end.Some? && end.value.(kills := s.kills) == s && Step(cfg, end.value, KillDeleteConnToken(a)) == None
  {
    var s1 := Step(cfg, s, KillLook(a, c)).value;
    RunTwo(StepOf(cfg), s, KillLook(a, c), s1, KillDeleteToken(a));
  }

  /** A flush starts with the token keys that are there. */
  lemma FlushBegins(cfg: Config, s: State, a: Actor)
    ensures var end := Step(cfg, s, FlushBegin(a));
      && (end.Some? <==> a !in s.flushes && (cfg.startsBeside || forall x :: x in s.conns ==> !s.conns[x].running))
      && (end.Some? ==> a in end.value.flushes && end.value.(flushes := s.flushes) == s)
      && (end.Some? ==> end.value.flushes[a].TokenPass?)
      && (end.Some? ==>
            forall u :: u in end.value.flushes[a].pending <==> u in s.tokens && s.now < s.tokens[u].expires)
  {
  }

  /** It deletes token keys one by one, and goes on when those are gone. */
  lemma FlushTokens(cfg: Config, s: State, a: Actor, t: Token)
    requires a in s.flushes && s.flushes[a].TokenPass?
    ensures var end := Step(cfg, s, FlushToken(a, t));
      && end.Some? && end.value.tokens == s.tokens - {t} && end.value.connTokens == s.connTokens
      && end.value.conns == s.conns && end.value.flushes == s.flushes[a := TokenPass(s.flushes[a].pending - {t})]
    ensures Step(cfg, s, FlushNext(a)) ==
      if forall u :: u in s.flushes[a].pending ==> !(u in s.tokens && s.now < s.tokens[u].expires)
      then Some(s.(flushes := s.flushes[a := ConnTokenPass])) else None
  {
  }

  /** Then it deletes CONN_TOKEN keys, of whichever relay. */
  lemma FlushConnTokens(cfg: Config, s: State, a: Actor, c: Cid)
    requires a in s.flushes && s.flushes[a].ConnTokenPass?
    ensures Step(cfg, s, FlushConnToken(a, c)) == Some(s.(connTokens := s.connTokens - {c}))
    ensures Step(cfg, s, FlushEnd(a)) == Some(s.(flushes := s.flushes - {a}))
  {
  }

  /** The token can never be used again: it was issued, its key is gone or expired, and no open
      WATCH body could still write it. */
  ghost predicate Dead(s: State, t: Token) {
    && t in s.issued
    && !Alive(s.tokens, s.now, t)
    && forall a :: a in s.binds && s.binds[a].token == t ==> s.binds[a].version != Version(s, t)
  }

  /** The kill of `a` has deleted what its lookup found. */
  predicate Revoked(s: State, a: Actor) {
    a in s.kills && s.kills[a].liveAtLookup && !s.kills[a].phase.Looked? && s.kills[a].cid in s.conns
  }

  // ---- the invariant ----

  predicate BindOk(s: State, b: Bind) {
    && b.token in s.issued
    && b.version <= Version(s, b.token)
    && (b.version == Version(s, b.token) ==>
          Alive(s.tokens, s.now, b.token) && s.tokens[b.token].expires == s.now + b.ttl)
  }

  ghost predicate BindsInv(s: State) {
    forall a :: a in s.binds ==> BindOk(s, s.binds[a])
  }

  ghost predicate TokensInv(cfg: Config, s: State) {
    forall t :: t in s.tokens ==> t in s.issued && s.tokens[t].expires <= s.now + cfg.maxIssueTtl
  }

  predicate Covered(s: State, c: Cid)
    requires c in s.conns
  {
    && c in s.connTokens
    && s.conns[c].token in s.tokens
    && s.tokens[s.conns[c].token].expires <= s.connTokens[c].expires
  }

  /** A running connection's CONN_TOKEN key outlives its token. */
  ghost predicate ConnOk(s: State, c: Cid)
    requires c in s.conns
  {
    && s.conns[c].token in s.issued
    && (c in s.connTokens ==> s.connTokens[c].value == s.conns[c].token)
    && (s.conns[c].running ==> Dead(s, s.conns[c].token) || Covered(s, c))
  }

  ghost predicate ConnsInv(s: State) {
    && (forall c :: c in s.conns ==> ConnOk(s, c))
    && (forall c :: c in s.connTokens ==> c in s.conns)
  }

  ghost predicate KillOk(s: State, k: Kill) {
    && (k.liveAtLookup || (k.phase.Looked? && k.phase.raw.Some?) || k.phase.TokenDeleted? ==> k.cid in s.conns)
    && (k.phase.Looked? && k.phase.raw.Some? ==> k.phase.raw.value == s.conns[k.cid].token)
    && (k.phase.TokenDeleted? ==> Dead(s, s.conns[k.cid].token))
    && (k.liveAtLookup && !(k.phase.Looked? && k.phase.raw.Some?) ==> Dead(s, s.conns[k.cid].token))
  }

  ghost predicate KillsInv(s: State) {
    forall a :: a in s.kills ==> KillOk(s, s.kills[a])
  }

  /** Where no relay starts beside running connections, none runs while one flushes. */
  predicate FlushInv(cfg: Config, s: State) {
    cfg.startsBeside || s.flushes == map[] || NoneRunning(s)
  }

  ghost predicate Inv(cfg: Config, s: State) {
    BindsInv(s) && TokensInv(cfg, s) && ConnsInv(s) && KillsInv(s) && FlushInv(cfg, s)
  }

  /** One step either leaves the key of a token and its version alone or bumps the version. */
  predicate KeyMoves(s: State, s': State, t: Token) {
    || Version(s, t) < Version(s', t)
    || (Version(s, t) == Version(s', t) && (t in s.tokens <==> t in s'.tokens)
        && (t in s.tokens ==> s.tokens[t] == s'.tokens[t]))
  }

  lemma TokenMovesKey(cfg: Config, s: State, e: Event, t: Token)
    requires TokenStep(cfg, s, e).Some?
    ensures KeyMoves(s, TokenStep(cfg, s, e).value, t)
  {
  }

  lemma BindMovesKey(s: State, e: Event, t: Token)
    requires BindStep(s, e).Some?
    ensures KeyMoves(s, BindStep(s, e).value, t)
  {
  }

  lemma HandlerMovesNoKey(cfg: Config, s: State, e: Event)
    requires HandlerStep(cfg, s, e).Some?
    ensures var s' := HandlerStep(cfg, s, e).value;
      && s'.tokens == s.tokens && s'.version == s.version && s'.binds == s.binds
      && s'.now == s.now && s'.issued == s.issued
  {
  }

  lemma DeletionMovesKey(s: State, u: Token, t: Token)
    ensures KeyMoves(s, DeleteToken(s, u), t)
  {
  }

  lemma KillTakesToken(s: State, e: Event)
    requires KillStep(s, e).Some?
    ensures var s' := KillStep(s, e).value;
      || (s'.tokens == s.tokens && s'.version == s.version)
      || exists u :: s'.tokens == DeleteToken(s, u).tokens && s'.version == DeleteToken(s, u).version
  {
    if e.KillDeleteToken? && s.kills[e.actor].phase.raw.Some? {
      assert KillStep(s, e).value.tokens == DeleteToken(s, s.kills[e.actor].phase.raw.value).tokens;
    }
  }

  lemma KillMovesKey(s: State, e: Event, t: Token)
    requires KillStep(s, e).Some?
    ensures KeyMoves(s, KillStep(s, e).value, t)
  {
    KillTakesToken(s, e);
    var s' := KillStep(s, e).value;
    if s'.tokens != s.tokens || s'.version != s.version {
      var u :| s'.tokens == DeleteToken(s, u).tokens && s'.version == DeleteToken(s, u).version;
      DeletionMovesKey(s, u, t);
    }
  }

  lemma FlushMovesKey(cfg: Config, s: State, e: Event, t: Token)
    requires FlushStep(cfg, s, e).Some?
    ensures KeyMoves(s, FlushStep(cfg, s, e).value, t)
  {
  }

  lemma StepMovesKey(cfg: Config, s: State, e: Event, t: Token)
    requires Step(cfg, s, e).Some?
    ensures KeyMoves(s, Step(cfg, s, e).value, t)
  {
    if e.Tick? || e.Issue? || e.DropToken? {
      TokenMovesKey(cfg, s, e, t);
    } else if e.BindRead? || e.BindExec? {
      BindMovesKey(s, e, t);
    } else if e.Record? || e.HandlerOver? || e.DropConnToken? {
      HandlerMovesNoKey(cfg, s, e);
    } else if e.KillLook? || e.KillDeleteToken? || e.KillDeleteConnToken? {
      KillMovesKey(s, e, t);
    } else {
      FlushMovesKey(cfg, s, e, t);
    }
  }

  lemma StepKeepsBind(cfg: Config, s: State, e: Event, a: Actor)
    requires BindsInv(s) && Step(cfg, s, e).Some?
    requires a in s.binds && a in Step(cfg, s, e).value.binds
    ensures BindOk(Step(cfg, s, e).value, Step(cfg, s, e).value.binds[a])
  {
    StepMovesKey(cfg, s, e, s.binds[a].token);
    ClockStands(cfg, s, e);
    BindUnchanged(cfg, s, e, a);
    BindMoves(s, Step(cfg, s, e).value, s.binds[a]);
  }

  lemma ClockStands(cfg: Config, s: State, e: Event)
    requires Step(cfg, s, e).Some?
    ensures s.binds != map[] ==> Step(cfg, s, e).value.now == s.now
    ensures s.issued <= Step(cfg, s, e).value.issued
  {
  }

  lemma BindsElsewhere(cfg: Config, s: State, e: Event)
    requires Step(cfg, s, e).Some? && !e.BindRead? && !e.BindExec?
    ensures Step(cfg, s, e).value.binds == s.binds
  {
  }

  lemma BindStepBinds(s: State, e: Event, a: Actor)
    requires BindStep(s, e).Some? && a in BindStep(s, e).value.binds
    ensures if a in s.binds then BindStep(s, e).value.binds[a] == s.binds[a] else e == BindRead(a, e.token)
  {
  }

  lemma BindUnchanged(cfg: Config, s: State, e: Event, a: Actor)
    requires Step(cfg, s, e).Some? && a in Step(cfg, s, e).value.binds
    ensures if a in s.binds then Step(cfg, s, e).value.binds[a] == s.binds[a] else e == BindRead(a, e.token)
  {
    if e.BindRead? || e.BindExec? {
      BindStepBinds(s, e, a);
    } else {
      BindsElsewhere(cfg, s, e);
    }
  }

  lemma ReadIsOk(s: State, e: Event)
    requires TokensIssued(s) && e.BindRead? && BindStep(s, e).Some?
    ensures e.actor in BindStep(s, e).value.binds && BindOk(BindStep(s, e).value, BindStep(s, e).value.binds[e.actor])
  {
  }

  ghost predicate TokensIssued(s: State) {
    forall t :: t in s.tokens ==> t in s.issued
  }

  lemma BindMoves(s: State, s': State, b: Bind)
    requires BindOk(s, b) && KeyMoves(s, s', b.token) && s.now == s'.now && s.issued <= s'.issued
    ensures BindOk(s', b)
  {
  }

  lemma StepKeepsBinds(cfg: Config, s: State, e: Event)
    requires BindsInv(s) && TokensInv(cfg, s) && Step(cfg, s, e).Some?
    ensures BindsInv(Step(cfg, s, e).value)
  {
    var s' := Step(cfg, s, e).value;
    forall a | a in s'.binds
      ensures BindOk(s', s'.binds[a])
    {
      if a in s.binds {
        StepKeepsBind(cfg, s, e, a);
      } else {
        BindUnchanged(cfg, s, e, a);
        ReadIsOk(s, e);
      }
    }
  }

  lemma ExecKeepsTokens(cfg: Config, s: State, e: Event)
    requires e.BindExec? && BindsInv(s) && TokensInv(cfg, s) && Step(cfg, s, e).Some?
    ensures TokensInv(cfg, Step(cfg, s, e).value)
  {
    assert BindOk(s, s.binds[e.actor]);
  }

  lemma FlushKeepsTokens(cfg: Config, s: State, e: Event)
    requires FlushStep(cfg, s, e).Some? && TokensInv(cfg, s)
    ensures TokensInv(cfg, FlushStep(cfg, s, e).value)
  {
  }

  lemma StepKeepsTokens(cfg: Config, s: State, e: Event)
    requires BindsInv(s) && TokensInv(cfg, s) && Step(cfg, s, e).Some?
    ensures TokensInv(cfg, Step(cfg, s, e).value)
  {
    if e.BindExec? {
      ExecKeepsTokens(cfg, s, e);
    } else if FlushStep(cfg, s, e).Some? {
      FlushKeepsTokens(cfg, s, e);
    }
  }

  /** No bind writes the key of a dead token, nor is a WATCH body opened on it. */
  lemma BindSparesDead(s: State, e: Event, t: Token)
    requires Dead(s, t) && BindStep(s, e).Some?
    ensures var s' := BindStep(s, e).value;
      && !Alive(s'.tokens, s'.now, t)
      && forall a :: a in s'.binds && s'.binds[a].token == t ==> a in s.binds && s.binds[a] == s'.binds[a]
  {
  }

  lemma TokenSparesDead(cfg: Config, s: State, e: Event, t: Token)
    requires Dead(s, t) && TokenStep(cfg, s, e).Some?
    ensures !Alive(TokenStep(cfg, s, e).value.tokens, TokenStep(cfg, s, e).value.now, t)
  {
  }

  lemma KillSparesDead(s: State, e: Event, t: Token)
    requires Dead(s, t) && KillStep(s, e).Some?
    ensures !Alive(KillStep(s, e).value.tokens, KillStep(s, e).value.now, t)
  {
  }

  lemma FlushSparesDead(cfg: Config, s: State, e: Event, t: Token)
    requires Dead(s, t) && FlushStep(cfg, s, e).Some?
    ensures !Alive(FlushStep(cfg, s, e).value.tokens, FlushStep(cfg, s, e).value.now, t)
  {
  }

  /** No step writes the key of a dead token: the only writers are a fresh issue and a bind that has
      seen the current version. */
  lemma DeadKeyStaysGone(cfg: Config, s: State, e: Event, t: Token)
    requires Dead(s, t) && Step(cfg, s, e).Some?
    ensures !Alive(Step(cfg, s, e).value.tokens, Step(cfg, s, e).value.now, t)
  {
    if e.Tick? || e.Issue? || e.DropToken? {
      TokenSparesDead(cfg, s, e, t);
    } else if e.BindRead? || e.BindExec? {
      BindSparesDead(s, e, t);
    } else if e.Record? || e.HandlerOver? || e.DropConnToken? {
      HandlerMovesNoKey(cfg, s, e);
    } else if e.KillLook? || e.KillDeleteToken? || e.KillDeleteConnToken? {
      KillSparesDead(s, e, t);
    } else {
      FlushSparesDead(cfg, s, e, t);
    }
  }

  /** No step opens a WATCH body on a dead token. */
  lemma DeadBindsStay(cfg: Config, s: State, e: Event, t: Token, a: Actor)
    requires Dead(s, t) && Step(cfg, s, e).Some?
    requires a in Step(cfg, s, e).value.binds && Step(cfg, s, e).value.binds[a].token == t
    ensures a in s.binds && s.binds[a] == Step(cfg, s, e).value.binds[a]
  {
    if e.BindRead? || e.BindExec? {
      BindSparesDead(s, e, t);
    } else {
      BindsElsewhere(cfg, s, e);
    }
  }

  lemma DeadStaysDead(cfg: Config, s: State, e: Event, t: Token)
    requires BindsInv(s) && Dead(s, t) && Step(cfg, s, e).Some?
    ensures Dead(Step(cfg, s, e).value, t)
  {
    var s' := Step(cfg, s, e).value;
    DeadKeyStaysGone(cfg, s, e, t);
    StepMovesKey(cfg, s, e, t);
    IssuedStays(cfg, s, e, t);
    forall a | a in s'.binds && s'.binds[a].token == t
      ensures s'.binds[a].version != Version(s', t)
    {
      DeadBindsStay(cfg, s, e, t, a);
      assert BindOk(s, s.binds[a]);
    }
  }

  /** Once its key is deleted a token is dead: a WATCH body still open on it has lost. */
  lemma DeletedIsDead(s: State, t: Token)
    requires BindsInv(s) && t in s.issued
    ensures Dead(DeleteToken(s, t), t)
  {
    forall a | a in s.binds && s.binds[a].token == t
      ensures s.binds[a].version != Version(DeleteToken(s, t), t)
    {
      assert BindOk(s, s.binds[a]);
    }
  }

  lemma ExpiredIsDead(s: State, t: Token)
    requires BindsInv(s) && t in s.issued && !Alive(s.tokens, s.now, t)
    ensures Dead(s, t)
  {
    forall a | a in s.binds && s.binds[a].token == t
      ensures s.binds[a].version != Version(s, t)
    {
      assert BindOk(s, s.binds[a]);
    }
  }

  lemma ConnTokenStays(cfg: Config, s: State, e: Event, c: Cid)
    requires Step(cfg, s, e).Some? && c in s.conns
    ensures var s' := Step(cfg, s, e).value;
      c in s'.conns && s'.conns[c].token == s.conns[c].token && (s'.conns[c].running ==> s.conns[c].running)
  {
  }

  lemma ConnValueStays(cfg: Config, s: State, e: Event, c: Cid)
    requires Step(cfg, s, e).Some? && c in s.conns
    requires c in s.connTokens ==> s.connTokens[c].value == s.conns[c].token
    ensures var s' := Step(cfg, s, e).value; c in s'.connTokens ==> s'.connTokens[c].value == s.conns[c].token
  {
  }

  /** A token that a running connection's CONN_TOKEN key outlives stays so, or dies, or the handler is over. */
  ghost predicate StaysCovered(s: State, c: Cid, t: Token) {
    c in s.conns && s.conns[c].token == t && (Dead(s, t) || Covered(s, c) || !s.conns[c].running)
  }

  lemma ExecKeepsCovered(cfg: Config, s: State, e: Event, c: Cid)
    requires e.BindExec? && BindsInv(s) && Step(cfg, s, e).Some? && c in s.conns && Covered(s, c)
    ensures StaysCovered(Step(cfg, s, e).value, c, s.conns[c].token)
  {
    assert BindOk(s, s.binds[e.actor]);
  }

  lemma DeletionKeepsCovered(cfg: Config, s: State, e: Event, c: Cid)
    requires e.DropToken? || e.KillDeleteToken? || e.FlushToken?
    requires BindsInv(s) && Step(cfg, s, e).Some? && c in s.conns && Covered(s, c) && s.conns[c].token in s.issued
    ensures StaysCovered(Step(cfg, s, e).value, c, s.conns[c].token)
  {
    DeletedIsDead(s, s.conns[c].token);
  }

  lemma UnmappingKeepsCovered(cfg: Config, s: State, e: Event, c: Cid)
    requires cfg.Revocable() && (e.DropConnToken? || e.KillDeleteConnToken? || e.FlushConnToken?)
    requires Inv(cfg, s) && Step(cfg, s, e).Some? && c in s.conns && s.conns[c].running && Covered(s, c)
    ensures StaysCovered(Step(cfg, s, e).value, c, s.conns[c].token)
  {
    if e.KillDeleteConnToken? {
      assert KillOk(s, s.kills[e.actor]);
      if s.kills[e.actor].cid == c {
        DeadStaysDead(cfg, s, e, s.conns[c].token);
      }
    }
  }

  lemma OthersKeepCovered(cfg: Config, s: State, e: Event, c: Cid)
    requires !(e.BindExec? || e.DropToken? || e.KillDeleteToken? || e.FlushToken?)
    requires !(e.DropConnToken? || e.KillDeleteConnToken? || e.FlushConnToken?)
    requires Step(cfg, s, e).Some? && c in s.conns && Covered(s, c) && s.conns[c].token in s.issued
    ensures StaysCovered(Step(cfg, s, e).value, c, s.conns[c].token)
  {
  }

  lemma CoveredStays(cfg: Config, s: State, e: Event, c: Cid)
    requires cfg.Revocable()
    requires Inv(cfg, s) && Step(cfg, s, e).Some? && c in s.conns && s.conns[c].running && Covered(s, c)
    ensures StaysCovered(Step(cfg, s, e).value, c, s.conns[c].token)
  {
    assert ConnOk(s, c);
    if e.BindExec? {
      ExecKeepsCovered(cfg, s, e, c);
    } else if e.DropToken? || e.KillDeleteToken? || e.FlushToken? {
      DeletionKeepsCovered(cfg, s, e, c);
    } else if e.DropConnToken? || e.KillDeleteConnToken? || e.FlushConnToken? {
      UnmappingKeepsCovered(cfg, s, e, c);
    } else {
      OthersKeepCovered(cfg, s, e, c);
    }
  }

  lemma StepKeepsConn(cfg: Config, s: State, e: Event, c: Cid)
    requires cfg.Valid() && cfg.Revocable()
    requires Inv(cfg, s) && Step(cfg, s, e).Some? && c in s.conns
    ensures c in Step(cfg, s, e).value.conns && ConnOk(Step(cfg, s, e).value, c)
  {
    assert ConnOk(s, c);
    ConnTokenStays(cfg, s, e, c);
    ConnValueStays(cfg, s, e, c);
    IssuedStays(cfg, s, e, s.conns[c].token);
    if Dead(s, s.conns[c].token) {
      DeadStaysDead(cfg, s, e, s.conns[c].token);
    } else if s.conns[c].running {
      CoveredStays(cfg, s, e, c);
    }
    ConnOkFrom(Step(cfg, s, e).value, c);
  }

  lemma IssuedStays(cfg: Config, s: State, e: Event, t: Token)
    requires Step(cfg, s, e).Some? && t in s.issued
    ensures t in Step(cfg, s, e).value.issued
  {
  }

  lemma ConnOkFrom(s: State, c: Cid)
    requires c in s.conns && s.conns[c].token in s.issued
    requires c in s.connTokens ==> s.connTokens[c].value == s.conns[c].token
    requires s.conns[c].running ==> Dead(s, s.conns[c].token) || Covered(s, c)
    ensures ConnOk(s, c)
  {
  }

  lemma HandlerAddsNone(cfg: Config, s: State, e: Event)
    requires !e.Record? && HandlerStep(cfg, s, e).Some?
    ensures HandlerStep(cfg, s, e).value.conns.Keys == s.conns.Keys
    ensures HandlerStep(cfg, s, e).value.connTokens.Keys <= s.connTokens.Keys
  {
  }

  lemma KillAddsNone(s: State, e: Event)
    requires KillStep(s, e).Some?
    ensures KillStep(s, e).value.conns == s.conns && KillStep(s, e).value.connTokens.Keys <= s.connTokens.Keys
  {
  }

  lemma FlushAddsNone(cfg: Config, s: State, e: Event)
    requires FlushStep(cfg, s, e).Some?
    ensures FlushStep(cfg, s, e).value.conns == s.conns
    ensures FlushStep(cfg, s, e).value.connTokens.Keys <= s.connTokens.Keys
  {
  }

  lemma ConnsElsewhere(cfg: Config, s: State, e: Event)
    requires Step(cfg, s, e).Some? && !e.Record?
    ensures Step(cfg, s, e).value.conns.Keys == s.conns.Keys
    ensures Step(cfg, s, e).value.connTokens.Keys <= s.connTokens.Keys
  {
    if e.HandlerOver? || e.DropConnToken? {
      HandlerAddsNone(cfg, s, e);
    } else if e.KillLook? || e.KillDeleteToken? || e.KillDeleteConnToken? {
      KillAddsNone(s, e);
    } else if e.Tick? || e.Issue? || e.DropToken? || e.BindRead? || e.BindExec? {
    } else {
      FlushAddsNone(cfg, s, e);
    }
  }

  lemma OnlyRecordAdds(cfg: Config, s: State, e: Event, c: Cid)
    requires Step(cfg, s, e).Some? && c !in s.conns
    requires var s' := Step(cfg, s, e).value; c in s'.conns || c in s'.connTokens
    ensures c in s.connTokens || (e.Record? && e.cid == c)
  {
    if !e.Record? {
      ConnsElsewhere(cfg, s, e);
    }
  }

  lemma RecordedIsOk(cfg: Config, s: State, e: Event)
    requires cfg.Valid() && cfg.Revocable()
    requires BindsInv(s) && TokensInv(cfg, s) && e.Record? && Step(cfg, s, e).Some?
    ensures e.cid in Step(cfg, s, e).value.conns && ConnOk(Step(cfg, s, e).value, e.cid)
  {
    var s' := Step(cfg, s, e).value;
    if !Alive(s'.tokens, s'.now, e.token) {
      ExpiredIsDead(s', e.token);
    }
  }

  lemma StepKeepsConns(cfg: Config, s: State, e: Event)
    requires cfg.Valid() && cfg.Revocable()
    requires Inv(cfg, s) && Step(cfg, s, e).Some?
    ensures ConnsInv(Step(cfg, s, e).value)
  {
    var s' := Step(cfg, s, e).value;
    forall c | c in s'.conns || c in s'.connTokens
      ensures c in s'.conns && ConnOk(s', c)
    {
      if c in s.conns {
        StepKeepsConn(cfg, s, e, c);
      } else {
        OnlyRecordAdds(cfg, s, e, c);
        RecordedIsOk(cfg, s, e);
      }
    }
  }

  /** What one step can do to a kill that is under way. */
  predicate KillMoves(s: State, s': State, k: Kill, k': Kill) {
    || k' == k
    || (k.phase.Looked? && k.phase.raw.None? && k' == k.(phase := KillDone))
    || (k.phase.Looked? && k.phase.raw.Some? && k' == k.(phase := TokenDeleted)
        && s' == DeleteToken(s, k.phase.raw.value).(kills := s'.kills))
    || (k.phase.TokenDeleted? && k' == k.(phase := KillDone))
  }

  lemma StepMovesKill(cfg: Config, s: State, e: Event, a: Actor)
    requires Step(cfg, s, e).Some? && a in s.kills
    ensures var s' := Step(cfg, s, e).value; a in s'.kills && KillMoves(s, s', s.kills[a], s'.kills[a])
  {
  }

  lemma KillStaysOk(s: State, s': State, k: Kill, k': Kill)
    requires BindsInv(s) && KillOk(s, k) && KillMoves(s, s', k, k')
    requires k.cid in s.conns ==>
        && k.cid in s'.conns && s'.conns[k.cid].token == s.conns[k.cid].token && s.conns[k.cid].token in s.issued
        && (Dead(s, s.conns[k.cid].token) ==> Dead(s', s.conns[k.cid].token))
    ensures KillOk(s', k')
  {
    if k.cid in s.conns && k.phase.Looked? && k.phase.raw.Some? {
      DeletedIsDead(s, s.conns[k.cid].token);
    }
  }

  lemma StepKeepsKill(cfg: Config, s: State, e: Event, a: Actor)
    requires BindsInv(s) && KillsInv(s) && ConnsInv(s) && Step(cfg, s, e).Some? && a in s.kills
    ensures a in Step(cfg, s, e).value.kills && KillOk(Step(cfg, s, e).value, Step(cfg, s, e).value.kills[a])
  {
    var k := s.kills[a];
    StepMovesKill(cfg, s, e, a);
    if k.cid in s.conns {
      assert ConnOk(s, k.cid);
      ConnTokenStays(cfg, s, e, k.cid);
      if Dead(s, s.conns[k.cid].token) {
        DeadStaysDead(cfg, s, e, s.conns[k.cid].token);
      }
    }
    KillStaysOk(s, Step(cfg, s, e).value, k, Step(cfg, s, e).value.kills[a]);
  }

  lemma LookIsOk(cfg: Config, s: State, a: Actor, c: Cid)
    requires BindsInv(s) && ConnsInv(s) && a !in s.kills
    ensures KillOk(s, Kill(c, c in s.conns && s.conns[c].running, Looked(Get(s.connTokens, s.now, c))))
  {
    if c in s.conns {
      var t := s.conns[c].token;
      assert ConnOk(s, c);
      if s.conns[c].running && !Alive(s.connTokens, s.now, c) && !Dead(s, t) {
        ExpiredIsDead(s, t);
      }
    }
  }

  lemma OnlyLookAdds(cfg: Config, s: State, e: Event, a: Actor)
    requires Step(cfg, s, e).Some? && a !in s.kills && a in Step(cfg, s, e).value.kills
    ensures e == KillLook(a, e.cid)
  {
  }

  lemma LookedIsOk(cfg: Config, s: State, e: Event)
    requires BindsInv(s) && ConnsInv(s) && e.KillLook? && Step(cfg, s, e).Some?
    ensures var s' := Step(cfg, s, e).value; e.actor in s'.kills && KillOk(s', s'.kills[e.actor])
  {
    LookIsOk(cfg, s, e.actor, e.cid);
  }

  lemma StepKeepsKills(cfg: Config, s: State, e: Event)
    requires Inv(cfg, s) && Step(cfg, s, e).Some?
    ensures KillsInv(Step(cfg, s, e).value)
  {
    var s' := Step(cfg, s, e).value;
    forall a | a in s'.kills
      ensures KillOk(s', s'.kills[a])
    {
      if a in s.kills {
        StepKeepsKill(cfg, s, e, a);
      } else {
        OnlyLookAdds(cfg, s, e, a);
        LookedIsOk(cfg, s, e);
      }
    }
  }

  lemma StepKeepsInv(cfg: Config, s: State, e: Event)
    requires cfg.Valid() && cfg.Revocable()
    requires Inv(cfg, s) && Step(cfg, s, e).Some?
    ensures Inv(cfg, Step(cfg, s, e).value)
  {
    StepKeepsBinds(cfg, s, e);
    StepKeepsTokens(cfg, s, e);
    StepKeepsConns(cfg, s, e);
    StepKeepsKills(cfg, s, e);
    StepKeepsFlush(cfg, s, e);
  }

  /** Only a flush that begins opens one, and only a recorded connection starts to run. */
  lemma FlushOpens(cfg: Config, s: State, e: Event)
    requires Step(cfg, s, e).Some? && s.flushes == map[] && Step(cfg, s, e).value.flushes != map[]
    ensures e.FlushBegin? && (cfg.startsBeside || NoneRunning(s)) && Step(cfg, s, e).value.conns == s.conns
  {
  }

  lemma StillNoneRunning(cfg: Config, s: State, e: Event)
    requires Step(cfg, s, e).Some? && NoneRunning(s) && !e.Record?
    ensures NoneRunning(Step(cfg, s, e).value)
  {
  }

  lemma StepKeepsFlush(cfg: Config, s: State, e: Event)
    requires FlushInv(cfg, s) && Step(cfg, s, e).Some?
    ensures FlushInv(cfg, Step(cfg, s, e).value)
  {
    if s.flushes == map[] {
      if Step(cfg, s, e).value.flushes != map[] {
        FlushOpens(cfg, s, e);
      }
    } else if !cfg.startsBeside {
      StillNoneRunning(cfg, s, e);
    }
  }

  // ---- main results ----

  /** In every interleaving: once a kill of a connection that had recorded its token and was still
      running has deleted what it found, `get_session` finds that token at no later time. */
  ghost predicate KillRevokes(cfg: Config) {
    forall before, s, a, after, end ::
      After(cfg, INIT, before) == Some(s) && Revoked(s, a) && After(cfg, s, after) == Some(end) ==>
        GetSession(end, s.conns[s.kills[a].cid].token).None?
  }

  /** A kill revokes the token for good exactly when no token is issued with a lifetime longer than
      that of the CONN_TOKEN key and no relay starts beside running connections. */
  lemma KillRevokesIff(cfg: Config)
    requires cfg.Valid()
    ensures KillRevokes(cfg) <==> cfg.maxIssueTtl <= cfg.connTtl && !cfg.startsBeside
  {
    if cfg.Revocable() {
      forall before, s, a, after, end |
        After(cfg, INIT, before) == Some(s) && Revoked(s, a) && After(cfg, s, after) == Some(end)
        ensures GetSession(end, s.conns[s.kills[a].cid].token).None?
      {
        ReachableInv(cfg, before);
        assert KillOk(s, s.kills[a]);
        DeadForever(cfg, s, s.conns[s.kills[a].cid].token, after);
      }
    } else {
      var s, a;
      if cfg.connTtl < cfg.maxIssueTtl {
        s, a := LongTokenSurvives(cfg);
      } else {
        s, a := FlushedMappingSurvives(cfg);
      }
      var before :| After(cfg, INIT, before) == Some(s);
      assert After(cfg, s, []) == Some(s);
    }
  }

  lemma ReachableInv(cfg: Config, events: seq<Event>)
    requires cfg.Valid() && cfg.Revocable() && After(cfg, INIT, events).Some?
    ensures Inv(cfg, After(cfg, INIT, events).value)
  {
    forall s: State, e: Event {:trigger StepOf(cfg)(s, e)} | Inv(cfg, s) && StepOf(cfg)(s, e).Some?
      ensures Inv(cfg, StepOf(cfg)(s, e).value)
    {
      StepKeepsInv(cfg, s, e);
    }
    RunKeeps(StepOf(cfg), (s: State) => Inv(cfg, s), INIT, events);
  }

  lemma DeadForever(cfg: Config, s: State, t: Token, events: seq<Event>)
    requires BindsInv(s) && TokensInv(cfg, s) && Dead(s, t) && After(cfg, s, events).Some?
    ensures Dead(After(cfg, s, events).value, t)
  {
    var inv := (u: State) => BindsInv(u) && TokensInv(cfg, u) && Dead(u, t);
    forall u: State, e: Event {:trigger StepOf(cfg)(u, e)} | inv(u) && StepOf(cfg)(u, e).Some?
      ensures inv(StepOf(cfg)(u, e).value)
    {
      StepKeepsBinds(cfg, u, e);
      StepKeepsTokens(cfg, u, e);
      DeadStaysDead(cfg, u, e, t);
    }
    RunKeeps(StepOf(cfg), inv, s, events);
  }

  // ---- the two runs in which a kill does not revoke ----

  ghost predicate Reaches(cfg: Config, s: State) {
    exists events :: After(cfg, INIT, events) == Some(s)
  }

  lemma Start(cfg: Config)
    ensures Reaches(cfg, INIT)
  {
    assert After(cfg, INIT, []) == Some(INIT);
  }

  lemma Then(cfg: Config, s: State, e: Event) returns (t: State)
    requires Reaches(cfg, s) && Step(cfg, s, e).Some?
    ensures Some(t) == Step(cfg, s, e) && Reaches(cfg, t)
  {
    var events :| After(cfg, INIT, events) == Some(s);
    t := Step(cfg, s, e).value;
    RunSnoc(StepOf(cfg), INIT, events, e);
    assert After(cfg, INIT, events + [e]) == Some(t);
  }

  /** `n` seconds pass. */
  lemma {:induction false} Wait(cfg: Config, s: State, n: nat) returns (t: State)
    requires Reaches(cfg, s) && s.binds == map[]
    ensures Reaches(cfg, t) && t == s.(now := s.now + n)
  {
    t := s;
    if n > 0 {
      t := Wait(cfg, s, n - 1);
      t := Then(cfg, t, Tick);
    }
  }

  /** A running connection whose token lives and whose mapping is gone: the kill finds nothing. */
  lemma KillMisses(cfg: Config, s: State, c: Cid) returns (t: State, a: Actor)
    requires Reaches(cfg, s) && s.kills == map[] && c in s.conns && s.conns[c].running
    requires !Alive(s.connTokens, s.now, c) && GetSession(s, s.conns[c].token).Some?
    ensures Reaches(cfg, t) && Revoked(t, a) && GetSession(t, t.conns[t.kills[a].cid].token).Some?
  {
    a := 0;
    t := Then(cfg, s, KillLook(a, c));
    t := Then(cfg, t, KillDeleteToken(a));
  }

  /** A token is issued and recorded. */
  lemma IssueAndRecord(cfg: Config, s: State) returns (t: State)
    requires cfg.Valid() && Reaches(cfg, s) && 0 !in s.issued && 0 !in s.conns
    requires cfg.startsBeside || s.flushes == map[]
    ensures Reaches(cfg, t) && t.now == s.now && t.kills == s.kills && t.flushes == s.flushes && t.binds == s.binds
    ensures 0 in t.conns && t.conns[0] == Conn(0, true)
    ensures 0 in t.tokens && t.tokens[0].expires == t.now + cfg.maxIssueTtl
    ensures 0 in t.connTokens && t.connTokens[0].expires == t.now + cfg.connTtl
  {
    t := Then(cfg, s, Issue(0, cfg.maxIssueTtl));
    t := Then(cfg, t, Record(0, 0));
  }

  /** The CONN_TOKEN key expires before a token of the longest lifetime does. */
  lemma LongTokenSurvives(cfg: Config) returns (s: State, a: Actor)
    requires cfg.Valid() && cfg.connTtl < cfg.maxIssueTtl
    ensures Reaches(cfg, s) && Revoked(s, a) && GetSession(s, s.conns[s.kills[a].cid].token).Some?
  {
    Start(cfg);
    s := IssueAndRecord(cfg, INIT);
    s := Wait(cfg, s, cfg.connTtl);
    s, a := KillMisses(cfg, s, 0);
  }

  /** A relay that starts has been through the token keys; then a token is issued and recorded by a
      connection of another relay, and the flush takes its CONN_TOKEN key. */
  lemma FlushedMappingSurvives(cfg: Config) returns (s: State, a: Actor)
    requires cfg.Valid() && cfg.startsBeside
    ensures Reaches(cfg, s) && Revoked(s, a) && GetSession(s, s.conns[s.kills[a].cid].token).Some?
  {
    Start(cfg);
    s := Then(cfg, INIT, FlushBegin(0));
    s := Then(cfg, s, FlushNext(0));
    s := IssueAndRecord(cfg, s);
    s := Then(cfg, s, FlushConnToken(0, 0));
    s, a := KillMisses(cfg, s, 0);
  }
}
