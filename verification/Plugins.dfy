/** The plugin chain of the relay. One list of plugin instances serves all sessions, so what a plugin
    does depends on the interleaved history of all of them. */
module Plugins {
  import opened Basics
  import Mcs

  /** The plugins that hold state of their own; a passive plugin only passes data on. */
  datatype Plugin =
    | McsPatch(clientFirst: bool, backendFirst: bool)
    | SessionMonitor(idleTimeout: real, maxDuration: real, lastActivity: real, startedAt: real)
    | Passive

  /** What happened on the registry, by any session. `requested`: the protocols that the session's
      client asked for, when known. */
  datatype Event =
    | Started(at: real)
    | ClientPacket(data: bytes, at: real)
    | BackendPacket(data: bytes, requested: Option<u32>, at: real)

  function NewMcsPatch(): Plugin {
    McsPatch(true, true)
  }

  function NewSessionMonitor(idleTimeout: real, maxDuration: real): Plugin {
    SessionMonitor(idleTimeout, maxDuration, 0.0, 0.0)
  }

  function AfterEvent(p: Plugin, e: Event): Plugin {
    match p
    case McsPatch(c, b) =>
      (match e
       case Started(_) => McsPatch(true, true)
       case ClientPacket(_, _) => McsPatch(false, b)
       case BackendPacket(_, _, _) => McsPatch(c, false))
    case SessionMonitor(_, _, _, started) =>
      p.(lastActivity := e.at, startedAt := if e.Started? then e.at else started)
    case Passive => p
  }

  // ---- the state as a property of the history ----

  /** No client packet since the latest session start. */
  ghost predicate ClientFresh(h: seq<Event>) {
    forall i :: 0 <= i < |h| && h[i].ClientPacket? ==> exists j :: i < j < |h| && h[j].Started?
  }

  ghost predicate BackendFresh(h: seq<Event>) {
    forall i :: 0 <= i < |h| && h[i].BackendPacket? ==> exists j :: i < j < |h| && h[j].Started?
  }

  lemma FreshAfterOneMore(h: seq<Event>, e: Event)
    ensures ClientFresh(h + [e]) <==> e.Started? || (!e.ClientPacket? && ClientFresh(h))
    ensures BackendFresh(h + [e]) <==> e.Started? || (!e.BackendPacket? && BackendFresh(h))
  {
    var g := h + [e];
    assert g[|h|] == e && forall i :: 0 <= i < |h| ==> g[i] == h[i];
    if ClientFresh(h) && !e.Started? && !e.ClientPacket? {
      forall i | 0 <= i < |g| && g[i].ClientPacket?
        ensures exists j :: i < j < |g| && g[j].Started?
      {
        var j :| i < j < |h| && h[j].Started?;
        assert g[j].Started?;
      }
    }
    if ClientFresh(g) && !e.Started? {
      forall i | 0 <= i < |h| && h[i].ClientPacket?
        ensures exists j :: i < j < |h| && h[j].Started?
      {
        assert g[i].ClientPacket?;
        var j :| i < j < |g| && g[j].Started?;
        assert h[j].Started?;
      }
    }
    if BackendFresh(h) && !e.Started? && !e.BackendPacket? {
      forall i | 0 <= i < |g| && g[i].BackendPacket?
        ensures exists j :: i < j < |g| && g[j].Started?
      {
        var j :| i < j < |h| && h[j].Started?;
        assert g[j].Started?;
      }
    }
    if BackendFresh(g) && !e.Started? {
      forall i | 0 <= i < |h| && h[i].BackendPacket?
        ensures exists j :: i < j < |h| && h[j].Started?
      {
        assert g[i].BackendPacket?;
        var j :| i < j < |g| && g[j].Started?;
        assert h[j].Started?;
      }
    }
  }

  /** The time of the latest event, and of the latest session start; zero before any. */
  function LastActivity(h: seq<Event>): real {
    if h == [] then 0.0 else h[|h| - 1].at
  }

  function LastStart(h: seq<Event>): real {
    if h == [] then 0.0 else if h[|h| - 1].Started? then h[|h| - 1].at else LastStart(h[..|h| - 1])
  }

  ghost predicate Monotone(h: seq<Event>, now: real) {
    && (forall i :: 0 <= i < |h| ==> h[i].at <= now)
    && (forall i, j :: 0 <= i < j < |h| ==> h[i].at <= h[j].at)
  }

  lemma {:induction false} LastStartIsLatest(h: seq<Event>, now: real)
    requires Monotone(h, now) && exists i :: 0 <= i < |h| && h[i].Started?
    ensures exists i :: 0 <= i < |h| && h[i].Started? && h[i].at == LastStart(h)
    ensures forall i :: 0 <= i < |h| && h[i].Started? ==> h[i].at <= LastStart(h)
    decreases |h|
  {
    var n := |h| - 1;
    var front := h[..n];
    if !h[n].Started? {
      var i :| 0 <= i < |h| && h[i].Started?;
      assert front[i].Started?;
      LastStartIsLatest(front, now);
      var j :| 0 <= j < n && front[j].Started? && front[j].at == LastStart(front);
      assert h[j].Started? && h[j].at == LastStart(h);
      assert forall k :: 0 <= k < n ==> front[k] == h[k];
    }
  }

  lemma {:induction false} NoStart(h: seq<Event>)
    requires forall i :: 0 <= i < |h| ==> !h[i].Started?
    ensures LastStart(h) == 0.0
  {
    if h != [] {
      NoStart(h[..|h| - 1]);
    }
  }

  ghost predicate Tracks(p: Plugin, h: seq<Event>) {
    match p
    case McsPatch(c, b) => (c <==> ClientFresh(h)) && (b <==> BackendFresh(h))
    case SessionMonitor(_, _, last, started) => last == LastActivity(h) && started == LastStart(h)
    case Passive => true
  }

  lemma TracksOneMore(p: Plugin, h: seq<Event>, e: Event)
    requires Tracks(p, h)
    ensures Tracks(AfterEvent(p, e), h + [e])
  {
    FreshAfterOneMore(h, e);
    assert (h + [e])[..|h|] == h;
  }

  /** What a client chunk becomes after the history `h`. */
  ghost predicate ClientOutput(hasPatch: bool, h: seq<Event>, data: bytes, out: bytes) {
    if hasPatch && ClientFresh(h) then Mcs.ClientPatch(data, out) else out == data
  }

  ghost predicate BackendOutput(hasPatch: bool, h: seq<Event>, data: bytes, requested: Option<u32>, out: bytes) {
    if hasPatch && BackendFresh(h) then Mcs.ServerPatch(data, if requested.Some? then requested.value else 1, out)
    else out == data
  }

  ghost predicate HasPatch(plugins: seq<Plugin>) {
    exists i :: 0 <= i < |plugins| && plugins[i].McsPatch?
  }

  ghost predicate HasLimits(p: Plugin, idleTimeout: real, maxDuration: real) {
    p.SessionMonitor? && p.idleTimeout == idleTimeout && p.maxDuration == maxDuration
  }

  /** The same chain, and the monitors keep their limits. */
  ghost predicate SameSettings(before: seq<Plugin>, after: seq<Plugin>) {
    && |after| == |before|
    && forall i :: 0 <= i < |before| ==>
      && (after[i].McsPatch? <==> before[i].McsPatch?)
      && (before[i].SessionMonitor? ==> HasLimits(after[i], before[i].idleTimeout, before[i].maxDuration))
  }

  class PluginRegistry {
    var plugins: seq<Plugin>
    ghost var history: seq<Event>

    ghost predicate Valid()
      reads this
    {
      forall i :: 0 <= i < |plugins| ==> Tracks(plugins[i], history)
    }

    constructor (patching: bool, idleTimeout: real, maxDuration: real)
      ensures Valid() && history == [] && HasPatch(plugins) == patching
      ensures exists i :: 0 <= i < |plugins| && HasLimits(plugins[i], idleTimeout, maxDuration)
      ensures forall i :: 0 <= i < |plugins| && plugins[i].SessionMonitor? ==>
        plugins[i].lastActivity == plugins[i].startedAt == 0.0
    {
      var monitor := NewSessionMonitor(idleTimeout, maxDuration);
      plugins := if patching then [NewMcsPatch(), monitor, Passive] else [monitor, Passive];
      history := [];
      new;
      assert plugins[0].McsPatch? == patching;
      assert HasLimits(plugins[if patching then 1 else 0], idleTimeout, maxDuration);
    }

    /** The loop that runs one hook of every plugin and only changes their state. */
    method OnSessionStart(at: real)
      requires Valid()
      modifies this
      ensures Valid() && history == old(history) + [Started(at)]
      ensures HasPatch(plugins) == HasPatch(old(plugins)) && SameSettings(old(plugins), plugins)
    {
      ghost var before := plugins;
      var i := 0;
      while i < |plugins|
        invariant 0 <= i <= |plugins| == |before| && history == old(history)
        invariant forall j :: 0 <= j < i ==> plugins[j] == AfterEvent(before[j], Started(at))
        invariant forall j :: i <= j < |plugins| ==> plugins[j] == before[j]
      {
        plugins := plugins[i := AfterEvent(plugins[i], Started(at))];
        i := i + 1;
      }
      Recorded(before, plugins, history, Started(at));
      history := history + [Started(at)];
    }

    /** The chain rebinds the data plugin by plugin; a second patcher finds its work done. */
    method OnClientPacket(data: bytes, at: real) returns (out: bytes)
      requires Valid()
      modifies this
      ensures Valid() && history == old(history) + [ClientPacket(data, at)]
      ensures HasPatch(plugins) == HasPatch(old(plugins)) && SameSettings(old(plugins), plugins)
      ensures ClientOutput(HasPatch(plugins), old(history), data, out)
    {
      out := data;
      ghost var before := plugins;
      ghost var e := ClientPacket(data, at);
      var i := 0;
      while i < |plugins|
        invariant 0 <= i <= |plugins| == |before| && history == old(history)
        invariant forall j :: 0 <= j < i ==> plugins[j] == AfterEvent(before[j], e)
        invariant forall j :: i <= j < |plugins| ==> plugins[j] == before[j]
        invariant ClientOutput(HasPatch(before[..i]), history, data, out)
      {
        if plugins[i].McsPatch? {
          if plugins[i].clientFirst {
            var next := Mcs.PatchMcsClient(out);
            if HasPatch(before[..i]) {
              Mcs.ClientPatchIdempotent(data, out, next);
            }
            out := next;
            plugins := plugins[i := plugins[i].(clientFirst := false)];
          }
        } else if plugins[i].SessionMonitor? {
          plugins := plugins[i := plugins[i].(lastActivity := at)];
        }
        PatchOnceMore(before, i);
        i := i + 1;
      }
      assert before[..|before|] == before;
      Recorded(before, plugins, history, e);
      history := history + [e];
    }

    method OnBackendPacket(data: bytes, requested: Option<u32>, at: real) returns (out: bytes)
      requires Valid()
      modifies this
      ensures Valid() && history == old(history) + [BackendPacket(data, requested, at)]
      ensures HasPatch(plugins) == HasPatch(old(plugins)) && SameSettings(old(plugins), plugins)
      ensures BackendOutput(HasPatch(plugins), old(history), data, requested, out)
    {
      out := data;
      ghost var before := plugins;
      ghost var e := BackendPacket(data, requested, at);
      var i := 0;
      while i < |plugins|
        invariant 0 <= i <= |plugins| == |before| && history == old(history)
        invariant forall j :: 0 <= j < i ==> plugins[j] == AfterEvent(before[j], e)
        invariant forall j :: i <= j < |plugins| ==> plugins[j] == before[j]
        invariant BackendOutput(HasPatch(before[..i]), history, data, requested, out)
      {
        if plugins[i].McsPatch? {
          if plugins[i].backendFirst {
            var next := Mcs.PatchMcsServer(out, requested);
            if HasPatch(before[..i]) {
              Mcs.ServerPatchIdempotent(data, requested.GetOr(Mcs.PROTOCOL_SSL), out, next);
            }
            out := next;
            plugins := plugins[i := plugins[i].(backendFirst := false)];
          }
        } else if plugins[i].SessionMonitor? {
          plugins := plugins[i := plugins[i].(lastActivity := at)];
        }
        PatchOnceMore(before, i);
        i := i + 1;
      }
      assert before[..|before|] == before;
      Recorded(before, plugins, history, e);
      history := history + [e];
    }
  }

  lemma Recorded(before: seq<Plugin>, after: seq<Plugin>, h: seq<Event>, e: Event)
    requires |before| == |after| && forall i :: 0 <= i < |before| ==> Tracks(before[i], h)
    requires forall i :: 0 <= i < |before| ==> after[i] == AfterEvent(before[i], e)
    ensures forall i :: 0 <= i < |after| ==> Tracks(after[i], h + [e])
    ensures HasPatch(after) == HasPatch(before) && SameSettings(before, after)
  {
    forall i | 0 <= i < |after|
      ensures Tracks(after[i], h + [e]) && (after[i].McsPatch? <==> before[i].McsPatch?)
    {
      TracksOneMore(before[i], h, e);
    }
  }

  lemma PatchOnceMore(plugins: seq<Plugin>, i: nat)
    requires i < |plugins|
    ensures HasPatch(plugins[..i + 1]) <==> HasPatch(plugins[..i]) || plugins[i].McsPatch?
  {
    assert plugins[..i + 1] == plugins[..i] + [plugins[i]];
    assert forall j :: 0 <= j < i ==> plugins[..i + 1][j] == plugins[..i][j];
  }

  // ---- the session monitor ----

  method IsIdle(p: Plugin, now: real, ghost h: seq<Event>) returns (r: bool)
    requires p.SessionMonitor? && Tracks(p, h) && Monotone(h, now)
    ensures h != [] ==>
      (r <==> p.idleTimeout > 0.0 && forall i :: 0 <= i < |h| ==> now - h[i].at > p.idleTimeout)
    ensures h == [] ==> (r <==> p.idleTimeout > 0.0 && now > p.idleTimeout)
  {
    r := p.idleTimeout > 0.0 && now - p.lastActivity > p.idleTimeout;
    assert h != [] ==> h[|h| - 1].at == p.lastActivity;
  }

  method IsDurationExceeded(p: Plugin, now: real, ghost h: seq<Event>) returns (r: bool)
    requires p.SessionMonitor? && Tracks(p, h) && Monotone(h, now)
    ensures (exists i :: 0 <= i < |h| && h[i].Started?) ==>
      (r <==> p.maxDuration > 0.0 && forall i :: 0 <= i < |h| && h[i].Started? ==> now - h[i].at > p.maxDuration)
    ensures (forall i :: 0 <= i < |h| ==> !h[i].Started?) ==>
      (r <==> p.maxDuration > 0.0 && now > p.maxDuration)
  {
    if exists i :: 0 <= i < |h| && h[i].Started? {
      LastStartIsLatest(h, now);
    } else {
      NoStart(h);
    }
    if p.maxDuration <= 0.0 {
      return false;
    }
    r := now - p.startedAt > p.maxDuration;
  }

  // ---- how many chunks are patched ----

  ghost function Starts(h: seq<Event>): nat {
    if h == [] then 0 else Starts(h[..|h| - 1]) + if h[|h| - 1].Started? then 1 else 0
  }

  ghost function PatchedClient(h: seq<Event>): nat {
    if h == [] then 0
    else PatchedClient(h[..|h| - 1]) + if h[|h| - 1].ClientPacket? && ClientFresh(h[..|h| - 1]) then 1 else 0
  }

  ghost function PatchedBackend(h: seq<Event>): nat {
    if h == [] then 0
    else PatchedBackend(h[..|h| - 1]) + if h[|h| - 1].BackendPacket? && BackendFresh(h[..|h| - 1]) then 1 else 0
  }

  /** Over all interleavings in which a session starts before anything else: per direction no more
      chunks are patched than sessions were started. */
  lemma {:induction false} PatchedAtMostStarts(h: seq<Event>)
    requires h != [] ==> h[0].Started?
    ensures PatchedClient(h) + (if h != [] && ClientFresh(h) then 1 else 0) <= Starts(h)
    ensures PatchedBackend(h) + (if h != [] && BackendFresh(h) then 1 else 0) <= Starts(h)
    decreases |h|
  {
    if h != [] {
      var n := |h| - 1;
      var front := h[..n];
      assert h == front + [h[n]];
      if n > 0 {
        assert front[0] == h[0];
      }
      PatchedAtMostStarts(front);
      FreshAfterOneMore(front, h[n]);
    }
  }

  /** With two sessions overlapping, the later one's first client chunk can pass unpatched. */
  lemma OverlapSkipsAPatch(first: bytes, second: bytes, t: real)
    ensures var h := [Started(t), Started(t), ClientPacket(first, t)];
      !ClientFresh(h) && forall out :: ClientOutput(true, h, second, out) <==> out == second
  {
    var h := [Started(t), Started(t), ClientPacket(first, t)];
    assert h[2].ClientPacket?;
  }
}
