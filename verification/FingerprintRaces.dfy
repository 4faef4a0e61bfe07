/** Which clients one token lets in: the fingerprint check of the relay handlers, over any number of
    connections on any number of relays, while the token may be deleted or expire at any moment.
    Between reading the session and its check a handler does not await, so the handlers of one relay
    do not interleave here; those of different relays do. */
module FingerprintRaces {
  import opened Basics
  import opened Runs

  type Fingerprint = string

  /** The token's key; once gone it does not come back. */
  datatype Key = Gone | Unbound | Bound(fingerprint: Fingerprint)

  /** A handler that has read the session: its client's fingerprint, and whether none was bound then. */
  datatype Pending = Pending(fingerprint: Fingerprint, sawNone: bool)

  /** `admitted`: the fingerprints of the clients let in so far. */
  datatype State = State(key: Key, pending: seq<Pending>, admitted: set<Fingerprint>)

  datatype Config = Config(oneRelay: bool)

  datatype Event =
    | Read(fingerprint: Fingerprint)   // `get_session` finds the token
    | Check(i: nat)                    // `token_fingerprint_matches`, or `set_token_fingerprint`
    | Vanish

  const INIT := State(Unbound, [], {})

  function Without(pending: seq<Pending>, i: nat): seq<Pending>
    requires i < |pending|
  {
    pending[..i] + pending[i + 1..]
  }

  function Step(cfg: Config, s: State, e: Event): Option<State> {
    match e
    case Read(f) =>
      if s.key.Gone? || (cfg.oneRelay && s.pending != []) then None
      else Some(s.(pending := s.pending + [Pending(f, s.key.Unbound?)]))
    case Check(i) =>
      if i >= |s.pending| then None
      else
        var p := s.pending[i];
        var closed := s.(pending := Without(s.pending, i));
        if p.sawNone then
          // the outcome of the bind is not looked at: a token that is gone does not stop the client
          Some(closed.(key := if s.key.Gone? then Gone else Bound(p.fingerprint),
                       admitted := s.admitted + {p.fingerprint}))
        else if s.key == Bound(p.fingerprint) then Some(closed.(admitted := s.admitted + {p.fingerprint}))
        else Some(closed)
    case Vanish => Some(s.(key := Gone))
  }

  function StepOf(cfg: Config): (State, Event) -> Option<State> {
    (s: State, e: Event) => Step(cfg, s, e)
  }

  function After(cfg: Config, s: State, events: seq<Event>): Option<State> {
    Run(StepOf(cfg), s, events)
  }

  /** One client whose handler nobody disturbs: the first one to show a fingerprint binds it and gets in,
      a later one gets in exactly with that fingerprint, and nobody gets in with a token that is gone. */
  lemma ClientAlone(cfg: Config, s: State, f: Fingerprint)
    requires s.pending == []
    ensures s.key.Gone? ==> Step(cfg, s, Read(f)) == None
    ensures !s.key.Gone? ==> After(cfg, s, [Read(f), Check(0)]) == Some(
      if s.key == Unbound then State(Bound(f), [], s.admitted + {f})
      else if s.key == Bound(f) then State(Bound(f), [], s.admitted + {f})
      else s)
    ensures Step(cfg, s, Vanish) == Some(State(Gone, [], s.admitted))
    ensures s.key == Unbound ==> After(cfg, s, [Read(f), Vanish, Check(0)]) == Some(State(Gone, [], s.admitted + {f}))
  {
    if !s.key.Gone? {
      var s1 := Step(cfg, s, Read(f)).value;
      assert Without(s1.pending, 0) == [];
      RunTwo(StepOf(cfg), s, Read(f), s1, Check(0));
      var s2 := Step(cfg, s1, Vanish).value;
      RunThree(StepOf(cfg), s, Read(f), s1, Vanish, s2, Check(0));
    }
  }

  /** All clients let in with the token show one fingerprint. */
  predicate OneClient(s: State) {
    forall f, g :: f in s.admitted && g in s.admitted ==> f == g
  }

  /** The client is in, or its handler has found no fingerprint and will let it in. */
  predicate Claims(s: State, f: Fingerprint) {
    f in s.admitted || exists i :: 0 <= i < |s.pending| && s.pending[i] == Pending(f, true)
  }

  ghost predicate ClaimsAgree(s: State) {
    forall f, g :: Claims(s, f) && Claims(s, g) ==> f == g
  }

  /** No client is in before a fingerprint is bound, and a bound one is that of a client who is. */
  predicate Inv(s: State) {
    && (s.key.Unbound? ==> s.admitted == {})
    && (s.key.Bound? ==> s.key.fingerprint in s.admitted)
  }

  lemma ReachableInv(cfg: Config, events: seq<Event>)
    requires After(cfg, INIT, events).Some?
    ensures Inv(After(cfg, INIT, events).value)
  {
    RunKeeps(StepOf(cfg), (s: State) => Inv(s), INIT, events);
  }

  // ---- one client from here on ----

  /** The key is bound or gone, and all claims agree. */
  ghost predicate Settled(s: State) {
    Inv(s) && !s.key.Unbound? && ClaimsAgree(s)
  }

  /** A step from a settled state makes no new claim. */
  lemma NoNewClaim(cfg: Config, s: State, e: Event, f: Fingerprint)
    requires Inv(s) && !s.key.Unbound? && Step(cfg, s, e).Some? && Claims(Step(cfg, s, e).value, f)
    ensures Claims(s, f)
  {
    var s' := Step(cfg, s, e).value;
    if f !in s'.admitted {
      var i :| 0 <= i < |s'.pending| && s'.pending[i] == Pending(f, true);
      if e.Read? {
        assert s.pending[i] == Pending(f, true);
      } else if e.Check? {
        assert s.pending[if i < e.i then i else i + 1] == Pending(f, true);
      } else {
        assert s.pending[i] == Pending(f, true);
      }
    } else if e.Check? && f !in s.admitted {
      assert s.pending[e.i] == Pending(f, true);
    }
  }

  lemma StepKeepsSettled(cfg: Config, s: State, e: Event)
    requires Settled(s) && Step(cfg, s, e).Some?
    ensures Settled(Step(cfg, s, e).value)
  {
    var s' := Step(cfg, s, e).value;
    forall f, g | Claims(s', f) && Claims(s', g)
      ensures f == g
    {
      NoNewClaim(cfg, s, e, f);
      NoNewClaim(cfg, s, e, g);
    }
  }

  lemma SettledForever(cfg: Config, s: State, after: seq<Event>)
    requires Settled(s) && After(cfg, s, after).Some?
    ensures OneClient(After(cfg, s, after).value)
  {
    forall t: State, e: Event {:trigger StepOf(cfg)(t, e)} | Settled(t) && StepOf(cfg)(t, e).Some?
      ensures Settled(StepOf(cfg)(t, e).value)
    {
      StepKeepsSettled(cfg, t, e);
    }
    RunKeeps(StepOf(cfg), (t: State) => Settled(t), s, after);
    var end := After(cfg, s, after).value;
    forall f, g | f in end.admitted && g in end.admitted
      ensures f == g
    {
      assert Claims(end, f) && Claims(end, g);
    }
  }

  // ---- two clients ----

  /** A run of any length from `s` in which `f` gets in, while those who claim a place keep it. */
  lemma Admit(cfg: Config, s: State, sofar: seq<Event>, f: Fingerprint) returns (longer: seq<Event>)
    requires After(cfg, s, sofar).Some? && Claims(After(cfg, s, sofar).value, f)
    ensures After(cfg, s, longer).Some? && f in After(cfg, s, longer).value.admitted
    ensures After(cfg, s, sofar).value.admitted <= After(cfg, s, longer).value.admitted
    ensures forall g :: Claims(After(cfg, s, sofar).value, g) ==> Claims(After(cfg, s, longer).value, g)
  {
    longer := sofar;
    var t := After(cfg, s, sofar).value;
    if f !in t.admitted {
      var i: nat :| i < |t.pending| && t.pending[i] == Pending(f, true);
      RunSnoc(StepOf(cfg), s, sofar, Check(i));
      longer := sofar + [Check(i)];
      forall g | Claims(t, g)
        ensures Claims(After(cfg, s, longer).value, g)
      {
        ClaimKept(cfg, t, i, g);
      }
    }
  }

  lemma ClaimKept(cfg: Config, s: State, i: nat, g: Fingerprint)
    requires i < |s.pending| && s.pending[i].sawNone && Claims(s, g)
    ensures Claims(Step(cfg, s, Check(i)).value, g)
  {
    var s' := Step(cfg, s, Check(i)).value;
    if g !in s'.admitted {
      var j :| 0 <= j < |s.pending| && s.pending[j] == Pending(g, true);
      assert j != i;
      assert s'.pending[if j < i then j else j - 1] == Pending(g, true);
    }
  }

  /** Two claims that differ let two clients in. */
  lemma BothGetIn(cfg: Config, s: State, sofar: seq<Event>, f: Fingerprint, g: Fingerprint) returns (longer: seq<Event>)
    requires After(cfg, s, sofar).Some? && f != g
    requires Claims(After(cfg, s, sofar).value, f) && Claims(After(cfg, s, sofar).value, g)
    ensures After(cfg, s, longer).Some? && !OneClient(After(cfg, s, longer).value)
  {
    longer := Admit(cfg, s, sofar, f);
    longer := Admit(cfg, s, longer, g);
  }

  /** With an unbound token two new clients on two relays both find no fingerprint. */
  lemma TwoReads(cfg: Config, s: State) returns (longer: seq<Event>)
    requires !cfg.oneRelay && s.key.Unbound?
    ensures After(cfg, s, longer).Some?
    ensures Claims(After(cfg, s, longer).value, "a") && Claims(After(cfg, s, longer).value, "b")
  {
    RunSnoc(StepOf(cfg), s, [], Read("a"));
    longer := [] + [Read("a")];
    RunSnoc(StepOf(cfg), s, longer, Read("b"));
    longer := longer + [Read("b")];
    var t := After(cfg, s, longer).value;
    assert t.pending == s.pending + [Pending("a", true)] + [Pending("b", true)];
    assert t.pending[|s.pending|] == Pending("a", true) && t.pending[|s.pending| + 1] == Pending("b", true);
  }

  // ---- main results ----

  /** With several relays, in every reachable state: all clients let in from here on, and those let in
      before, show one fingerprint exactly when the token is bound or gone and every handler that found
      none has a client with the fingerprint of the others. */
  lemma OneClientFromHereIff(cfg: Config, before: seq<Event>, s: State)
    requires !cfg.oneRelay && After(cfg, INIT, before) == Some(s)
    ensures (forall after, end :: After(cfg, s, after) == Some(end) ==> OneClient(end))
       <==> !s.key.Unbound? && ClaimsAgree(s)
  {
    ReachableInv(cfg, before);
    if s.key.Unbound? {
      var after := TwoReads(cfg, s);
      after := BothGetIn(cfg, s, after, "a", "b");
      assert After(cfg, s, after) == Some(After(cfg, s, after).value);
    } else if ClaimsAgree(s) {
      forall after, end | After(cfg, s, after) == Some(end)
        ensures OneClient(end)
      {
        SettledForever(cfg, s, after);
      }
    } else {
      var f, g :| Claims(s, f) && Claims(s, g) && f != g;
      var after := BothGetIn(cfg, s, [], f, g);
      assert After(cfg, s, after) == Some(After(cfg, s, after).value);
    }
  }

  /** On one relay a handler that finds no fingerprint is the first to check. */
  predicate OneAtATime(s: State) {
    && Inv(s) && OneClient(s) && |s.pending| <= 1
    && (s.pending != [] && s.pending[0].sawNone ==> s.admitted == {})
  }

  lemma StepKeepsOneAtATime(cfg: Config, s: State, e: Event)
    requires cfg.oneRelay && OneAtATime(s) && Step(cfg, s, e).Some?
    ensures OneAtATime(Step(cfg, s, e).value)
  {
  }

  /** A token lets in one client only, in every interleaving, exactly when one relay serves it. */
  lemma OneClientIff(cfg: Config)
    ensures (forall events, end :: After(cfg, INIT, events) == Some(end) ==> OneClient(end)) <==> cfg.oneRelay
  {
    if cfg.oneRelay {
      forall events, end | After(cfg, INIT, events) == Some(end)
        ensures OneClient(end)
      {
        forall s: State, e: Event {:trigger StepOf(cfg)(s, e)} | OneAtATime(s) && StepOf(cfg)(s, e).Some?
          ensures OneAtATime(StepOf(cfg)(s, e).value)
        {
          StepKeepsOneAtATime(cfg, s, e);
        }
        RunKeeps(StepOf(cfg), (s: State) => OneAtATime(s), INIT, events);
      }
    } else {
      assert After(cfg, INIT, []) == Some(INIT);
      OneClientFromHereIff(cfg, [], INIT);
    }
  }
}
