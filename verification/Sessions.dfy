/** The session store: RDP tokens and portal web sessions kept in Redis, by sequential calls.
    Random ids are fresh, digests do not collide, and decryption undoes encryption under the same
    additional data and fails under any other. */
module Sessions {
  import opened Basics
  import opened Redis

  datatype Digest = Digest(of: string)

  datatype Sealed = Sealed(plain: string, aad: (string, string, string))

  /** Decryption raises under any other additional data. */
  function Unseal(blob: Sealed, aad: (string, string, string)): string
    requires blob.aad == aad
  {
    blob.plain
  }

  datatype TokenPayload = TokenPayload(
    username: string, password: Sealed, targetHost: string, targetPort: int,
    fingerprint: Option<Digest>, serverId: Option<string>, serverDisplay: Option<string>)

  datatype SessionData = SessionData(
    token: string, username: string, targetHost: string, targetPort: int, password: string,
    fingerprint: Option<Digest>, serverId: Option<string>, serverDisplay: Option<string>)

  datatype WebPayload = WebPayload(
    username: string, password: Sealed, groups: seq<string>, groupGuids: seq<string>,
    fingerprint: Digest, lastSeen: int)

  datatype WebSessionData = WebSessionData(
    session: string, username: string, groups: seq<string>, groupGuids: seq<string>, password: string)

  /** What another client does to the watched key between WATCH and EXEC of one attempt. */
  datatype Rival = RivalDelete | RivalBind(fingerprint: string)

  /** A web session's key: None when it is not there. */
  type Cell = Option<Entry<WebPayload>>

  function CellOf(db: Db<string, WebPayload>, id: string): Cell {
    if id in db then Some(db[id]) else None
  }

  predicate CellAlive(c: Cell, now: int) {
    c.Some? && now < c.value.expires
  }

  /** An access is let in: the key is there, the fingerprint matches and the idle limit is kept. */
  predicate Admits(c: Cell, now: int, idleTtl: int, fingerprint: Digest) {
    && CellAlive(c, now)
    && c.value.value.fingerprint == fingerprint
    && now - c.value.value.lastSeen <= idleTtl
  }

  /** The key after an access: refreshed with its expiry kept, deleted when turned away, and left
      alone when there was nothing to read. */
  function AfterAccess(c: Cell, now: int, idleTtl: int, fingerprint: Digest): Cell {
    if !CellAlive(c, now) then c
    else if Admits(c, now, idleTtl, fingerprint)
    then Some(Entry(c.value.value.(lastSeen := now), c.value.expires))
    else None
  }

  /** The two stores differ at most in the fingerprint bound to `token`. */
  ghost predicate OnlyFingerprint(before: Db<string, TokenPayload>, after: Db<string, TokenPayload>, token: string) {
    if token !in before then after == before
    else exists f :: after == before[token := WithFingerprint(before[token], f)]
  }

  function WithFingerprint(e: Entry<TokenPayload>, f: Option<Digest>): Entry<TokenPayload> {
    Entry(e.value.(fingerprint := f), e.expires)
  }

  /** Writing the payload back with its remaining time changes the fingerprint alone. */
  lemma Rewritten(before: Db<string, TokenPayload>, db: Db<string, TokenPayload>, token: string, now: int, d: Digest)
    requires OnlyFingerprint(before, db, token) && Alive(db, now, token)
    ensures token in before
    ensures SetEx(db, now, token, Ttl(db, now, token), db[token].value.(fingerprint := Some(d)))
         == before[token := WithFingerprint(before[token], Some(d))]
  {
    var f :| db == before[token := WithFingerprint(before[token], f)];
  }

  class SessionStore {
    var tokens: Db<string, TokenPayload>
    var webs: Db<string, WebPayload>
    var now: int
    var webTtl: int
    var rdpTokenTtl: int
    var webIdleTtl: int

    /** Every password was sealed for the key and the user it is stored with. */
    ghost predicate Valid()
      reads this
    {
      && (forall t :: t in tokens ==> tokens[t].value.password.aad == ("rdp:token", t, tokens[t].value.username))
      && (forall w :: w in webs ==> webs[w].value.password.aad == ("rdp:web", w, webs[w].value.username))
    }

    constructor (webTtl: int, rdpTokenTtl: int, webIdleTtl: int)
      ensures Valid() && tokens == map[] && webs == map[]
      ensures this.webTtl == webTtl && this.rdpTokenTtl == rdpTokenTtl && this.webIdleTtl == webIdleTtl
    {
      tokens, webs, now := map[], map[], 0;
      this.webTtl, this.rdpTokenTtl, this.webIdleTtl := webTtl, rdpTokenTtl, webIdleTtl;
    }

    /** What a token stands for. */
    ghost function SessionView(token: string): Option<SessionData>
      requires Valid()
      reads this
    {
      if !Alive(tokens, now, token) then None else
        var p := tokens[token].value;
        Some(SessionData(token, p.username, p.targetHost, p.targetPort, p.password.plain,
                         p.fingerprint, p.serverId, p.serverDisplay))
    }

    /** `token` is the fresh random token. */
    method CreateSession(username: string, password: string, targetHost: string, targetPort: int,
                         serverId: Option<string>, serverDisplay: Option<string>, token: string)
      requires Valid() && token !in tokens && 0 < rdpTokenTtl
      modifies `tokens
      ensures Valid()
      ensures tokens == old(tokens)[token := Entry(
        TokenPayload(username, Sealed(password, ("rdp:token", token, username)), targetHost, targetPort, None, serverId,
                     serverDisplay),
        now + rdpTokenTtl)]
      ensures SessionView(token)
           == Some(SessionData(token, username, targetHost, targetPort, password, None, serverId, serverDisplay))
    {
      var payload := TokenPayload(username, Sealed(password, ("rdp:token", token, username)), targetHost, targetPort,
                                  None, serverId, serverDisplay);
      tokens := SetEx(tokens, now, token, rdpTokenTtl, payload);
    }

    method GetSession(token: string) returns (r: Option<SessionData>)
      requires Valid()
      ensures r == SessionView(token)
      ensures r.Some? <==> token in tokens && now < tokens[token].expires
      ensures r.Some? ==> var p := tokens[token].value;
        r.value == SessionData(token, p.username, p.targetHost, p.targetPort, p.password.plain, p.fingerprint,
                               p.serverId, p.serverDisplay)
    {
      var raw := Get(tokens, now, token);
      if raw.None? {
        return None;
      }
      var p := raw.value;
      var password := Unseal(p.password, ("rdp:token", token, p.username));
      r := Some(SessionData(token, p.username, p.targetHost, p.targetPort, password,
                            p.fingerprint, p.serverId, p.serverDisplay));
    }

    /** The WATCH loop. `rivals[i]` hits the key while attempt `i` is open. The fingerprint is bound
        exactly when the token is there and no rival deletes it; the expiry time never changes. */
    method SetTokenFingerprint(token: string, fingerprint: string, rivals: seq<Rival>) returns (bound: bool)
      requires Valid()
      modifies `tokens
      ensures Valid()
      ensures bound <==> token in old(tokens) && now < old(tokens)[token].expires && RivalDelete !in rivals
      ensures bound ==>
        tokens == old(tokens)[token := Entry(
          old(tokens)[token].value.(fingerprint := Some(Digest(fingerprint))), old(tokens)[token].expires)]
      ensures bound ==>
        SessionView(token).Some? && SessionView(token).value.fingerprint == Some(Digest(fingerprint))
      ensures !bound ==>
        tokens == if token in old(tokens) && now < old(tokens)[token].expires then old(tokens) - {token}
                  else old(tokens)
    {
      var attempt := 0;
      assert token in tokens ==>
        tokens == tokens[token := WithFingerprint(tokens[token], tokens[token].value.fingerprint)];
      while true
        invariant 0 <= attempt <= |rivals|
        invariant attempt == 0 ==> tokens == old(tokens)
        invariant attempt > 0 ==> Alive(old(tokens), now, token)
        invariant RivalDelete in rivals[..attempt] ==> tokens == old(tokens) - {token}
        invariant RivalDelete !in rivals[..attempt] ==> OnlyFingerprint(old(tokens), tokens, token)
        decreases |rivals| - attempt
      {
        var raw := Get(tokens, now, token);
        if raw.None? {
          assert rivals[..attempt] <= rivals;
          return false;
        }
        var payload := raw.value.(fingerprint := Some(Digest(fingerprint)));
        var ttl := Ttl(tokens, now, token);
        if ttl <= 0 {
          return false;
        }
        assert RivalDelete !in rivals[..attempt];
        if attempt < |rivals| {
          match rivals[attempt] {
            case RivalDelete => tokens := Del(tokens, token);
            case RivalBind(f) =>
              Rewritten(old(tokens), tokens, token, now, Digest(f));
              tokens := SetEx(tokens, now, token, ttl, raw.value.(fingerprint := Some(Digest(f))));
          }
          assert rivals[..attempt + 1] == rivals[..attempt] + [rivals[attempt]];
          attempt := attempt + 1;
        } else {
          assert rivals[..attempt] == rivals;
          Rewritten(old(tokens), tokens, token, now, Digest(fingerprint));
          tokens := SetEx(tokens, now, token, ttl, payload);
          return true;
        }
      }
    }

    /** A token that nobody has claimed matches no client. */
    method TokenFingerprintMatches(token: string, fingerprint: string) returns (matches: bool)
      requires Valid()
      ensures matches <==>
        SessionView(token).Some? && SessionView(token).value.fingerprint == Some(Digest(fingerprint))
    {
      var raw := Get(tokens, now, token);
      matches := raw.Some? && raw.value.fingerprint == Some(Digest(fingerprint));
    }

    method DeleteSession(token: string)
      requires Valid()
      modifies `tokens
      ensures Valid() && tokens == old(tokens) - {token} && SessionView(token) == None
    {
      tokens := Del(tokens, token);
    }

    /** `id` is the fresh random session id. */
    method CreateWebSession(username: string, password: string, groups: seq<string>, groupGuids: seq<string>,
                            fingerprint: string, id: string)
      requires Valid() && id !in webs && 0 < webTtl
      modifies `webs
      ensures Valid()
      ensures webs == old(webs)[id := Entry(
        WebPayload(username, Sealed(password, ("rdp:web", id, username)), groups, groupGuids, Digest(fingerprint), now),
        now + webTtl)]
    {
      var payload := WebPayload(username, Sealed(password, ("rdp:web", id, username)), groups, groupGuids,
                                Digest(fingerprint), now);
      webs := SetEx(webs, now, id, webTtl, payload);
    }

    method GetWebSession(id: string, fingerprint: string) returns (r: Option<WebSessionData>)
      requires Valid()
      modifies `webs
      ensures Valid()
      ensures r.Some? <==> Admits(CellOf(old(webs), id), now, webIdleTtl, Digest(fingerprint))
      ensures CellOf(webs, id) == AfterAccess(CellOf(old(webs), id), now, webIdleTtl, Digest(fingerprint))
      ensures id !in old(webs) || old(webs)[id].expires <= now ==> r == None && webs == old(webs)
      ensures id in old(webs) && now < old(webs)[id].expires ==> var e := old(webs)[id];
        && (r.Some? <==> e.value.fingerprint == Digest(fingerprint) && now - e.value.lastSeen <= webIdleTtl)
        && webs == if r.Some? then old(webs)[id := Entry(e.value.(lastSeen := now), e.expires)] else old(webs) - {id}
      ensures r.Some? ==> var p := old(webs)[id].value;
        r.value == WebSessionData(id, p.username, p.groups, p.groupGuids, p.password.plain)
    {
      var raw := Get(webs, now, id);
      if raw.None? {
        return None;
      }
      var payload := raw.value;
      if payload.fingerprint != Digest(fingerprint) {
        webs := Del(webs, id);
        return None;
      }
      if now - payload.lastSeen > webIdleTtl {
        webs := Del(webs, id);
        return None;
      }
      payload := payload.(lastSeen := now);
      var ttl := Ttl(webs, now, id);
      if ttl > 0 {
        webs := SetEx(webs, now, id, ttl, payload);
      }
      var password := Unseal(payload.password, ("rdp:web", id, payload.username));
      r := Some(WebSessionData(id, payload.username, payload.groups, payload.groupGuids, password));
    }

    method DeleteWebSession(id: string)
      requires Valid()
      modifies `webs
      ensures Valid()
      ensures webs == old(webs) - {id}
    {
      webs := Del(webs, id);
    }
  }

  // ---- the web session against its access history ----

  datatype Event = Access(at: int, fingerprint: Digest) | Logout(at: int)

  ghost predicate Chronological(created: int, events: seq<Event>, t: int) {
    && created <= t
    && (forall i :: 0 <= i < |events| ==> created <= events[i].at <= t)
    && (forall i, j :: 0 <= i < j < |events| ==> events[i].at <= events[j].at)
  }

  /** The key after a history of calls. */
  function Replay(start: Cell, idleTtl: int, events: seq<Event>): Cell {
    if events == [] then start
    else
      var c := Replay(start, idleTtl, events[..|events| - 1]);
      match events[|events| - 1]
      case Access(at, fingerprint) => AfterAccess(c, at, idleTtl, fingerprint)
      case Logout(_) => None
  }

  function LastSeen(created: int, events: seq<Event>): int {
    if events == [] then created else events[|events| - 1].at
  }

  /** The event at `i` is an access with the fingerprint of the login, soon enough after the one before. */
  ghost predicate Kept(created: int, idleTtl: int, fingerprint: Digest, events: seq<Event>, i: int)
    requires 0 <= i < |events|
  {
    && events[i].Access?
    && events[i].fingerprint == fingerprint
    && events[i].at - LastSeen(created, events[..i]) <= idleTtl
  }

  /** No logout, every access with the fingerprint of the login, and no gap above the idle limit. */
  ghost predicate Unbroken(created: int, idleTtl: int, fingerprint: Digest, events: seq<Event>) {
    forall i :: 0 <= i < |events| ==> Kept(created, idleTtl, fingerprint, events, i)
  }

  lemma UnbrokenOneMore(created: int, idleTtl: int, fingerprint: Digest, events: seq<Event>, e: Event)
    ensures Unbroken(created, idleTtl, fingerprint, events + [e])
       <==> && Unbroken(created, idleTtl, fingerprint, events)
            && e.Access? && e.fingerprint == fingerprint && e.at - LastSeen(created, events) <= idleTtl
  {
    var all := events + [e];
    forall i | 0 <= i < |events|
      ensures Kept(created, idleTtl, fingerprint, all, i) <==> Kept(created, idleTtl, fingerprint, events, i)
    {
      assert all[i] == events[i] && all[..i] == events[..i];
    }
    assert all[|events|] == e && all[..|events|] == events;
    if Unbroken(created, idleTtl, fingerprint, all) {
      assert Kept(created, idleTtl, fingerprint, all, |events|);
    }
  }

  lemma {:induction false} ReplayIsHistory(p: WebPayload, webTtl: int, idleTtl: int, events: seq<Event>, t: int)
    requires Chronological(p.lastSeen, events, t) && t < p.lastSeen + webTtl
    ensures Replay(Some(Entry(p, p.lastSeen + webTtl)), idleTtl, events)
         == if Unbroken(p.lastSeen, idleTtl, p.fingerprint, events)
            then Some(Entry(p.(lastSeen := LastSeen(p.lastSeen, events)), p.lastSeen + webTtl)) else None
    decreases |events|
  {
    if events != [] {
      var n := |events| - 1;
      var front := events[..n];
      assert events == front + [events[n]];
      ReplayIsHistory(p, webTtl, idleTtl, front, t);
      UnbrokenOneMore(p.lastSeen, idleTtl, p.fingerprint, front, events[n]);
    }
  }

  /** Sequential calls: an access at `t` is let in exactly when the session was not deleted, `t` is
      before its creation plus the lifetime, all accesses including this one matched the fingerprint,
      and no gap between consecutive accesses, the last one included, exceeded the idle limit. */
  lemma AccessDecidedByHistory(p: WebPayload, webTtl: int, idleTtl: int, events: seq<Event>, t: int,
                               fingerprint: Digest)
    requires Chronological(p.lastSeen, events, t)
    ensures Admits(Replay(Some(Entry(p, p.lastSeen + webTtl)), idleTtl, events), t, idleTtl, fingerprint)
       <==> && t < p.lastSeen + webTtl
            && Unbroken(p.lastSeen, idleTtl, p.fingerprint, events + [Access(t, fingerprint)])
  {
    UnbrokenOneMore(p.lastSeen, idleTtl, p.fingerprint, events, Access(t, fingerprint));
    if t < p.lastSeen + webTtl {
      ReplayIsHistory(p, webTtl, idleTtl, events, t);
    } else {
      ExpiryIsFixed(Some(Entry(p, p.lastSeen + webTtl)), idleTtl, events);
    }
  }

  lemma {:induction false} ExpiryIsFixed(start: Cell, idleTtl: int, events: seq<Event>)
    requires start.Some?
    ensures Replay(start, idleTtl, events).Some? ==> Replay(start, idleTtl, events).value.expires == start.value.expires
    decreases |events|
  {
    if events != [] {
      ExpiryIsFixed(start, idleTtl, events[..|events| - 1]);
    }
  }
}
