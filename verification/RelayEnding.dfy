/** From the reports of the two legs to the end that is recorded for the connection. */
module RelayEnding {
  import opened Basics
  import opened History
  import opened Streams
  import opened Relay
  import L = Lifecycle

  predicate AnyKilled(legs: seq<LegResult>) {
    exists i :: 0 <= i < |legs| && legs[i].reason == EndReason.Killed
  }

  /** The handler's choice after the relay; it compares the texts of the reasons. */
  method DecideEnding(legs: seq<LegResult>, toClient: nat, toBackend: nat, durationExceeded: bool, c: L.Conn)
    returns (e: Ending)
    ensures var killed := exists i :: 0 <= i < |legs| && legs[i].reason == EndReason.Killed;
      && (e == Ending(Closed, Normal, toClient, toBackend) <==> !killed)
      && (e == Ending(Status.Killed, AdminKill, toClient, toBackend) <==> killed && c.killKey)
      && (e == Ending(Closed, MaxDuration, toClient, toBackend) <==> killed && !c.killKey && durationExceeded)
      && (e == Ending(Closed, IdleTimeout, toClient, toBackend) <==> killed && !c.killKey && !durationExceeded)
    ensures e == L.EndingOf(c, toClient, toBackend, AnyKilled(legs), durationExceeded)
  {
    var wasKilled := false;
    for i := 0 to |legs|
      invariant wasKilled <==> exists j :: 0 <= j < i && legs[j].reason == EndReason.Killed
    {
      OnlyKilledReadsKilled(legs[i].reason);
      if Text(legs[i].reason) == "killed" {
        wasKilled := true;
      }
    }
    if wasKilled {
      if c.killKey {
        e := Ending(Status.Killed, AdminKill, toClient, toBackend);
      } else if durationExceeded {
        e := Ending(Closed, MaxDuration, toClient, toBackend);
      } else {
        e := Ending(Closed, IdleTimeout, toClient, toBackend);
      }
    } else {
      e := Ending(Closed, Normal, toClient, toBackend);
    }
  }

  /** The two results of a relay whose legs ran these scripts. */
  function LegsOf(toBackend: seq<Turn>, toClient: seq<Turn>): seq<LegResult> {
    [LegResult(ClientToBackend, |Concat(Received(toBackend))|, ReasonOf(toBackend)),
     LegResult(BackendToClient, |Concat(Received(toClient))|, ReasonOf(toClient))]
  }

  /** The leg comes back to its loop's head after the kill event was set. */
  ghost predicate BackAtHead(script: seq<Turn>) {
    exists k :: 0 <= k < |script| && script[k].killSet && forall j :: 0 <= j < k ==> Continues(script[j])
  }

  /** The end recorded for a session, from the scripts of its legs. */
  function Recorded(c: L.Conn, toBackend: seq<Turn>, toClient: seq<Turn>, durationExceeded: bool): Ending {
    var legs := LegsOf(toBackend, toClient);
    L.EndingOf(c, LastOf(legs, BackendToClient), LastOf(legs, ClientToBackend), AnyKilled(legs), durationExceeded)
  }

  /** When each end is recorded, status and reason together, over the scripts of both legs: whether a leg
      came back to its loop's head after the event was set, and then the kill key and the duration; whether
      the session was idle is not asked again. */
  lemma EndingIff(c: L.Conn, toBackend: seq<Turn>, toClient: seq<Turn>, durationExceeded: bool)
    ensures var e := Recorded(c, toBackend, toClient, durationExceeded);
      var back := BackAtHead(toBackend) || BackAtHead(toClient);
      && (e.status == Closed && e.reason == Normal <==> !back)
      && (e.status == Status.Killed && e.reason == AdminKill <==> back && c.killKey)
      && (e.status == Closed && e.reason == MaxDuration <==> back && !c.killKey && durationExceeded)
      && (e.status == Closed && e.reason == IdleTimeout <==> back && !c.killKey && !durationExceeded)
      && e.toClient == |Concat(Received(toClient))| && e.toBackend == |Concat(Received(toBackend))|
  {
    var legs := LegsOf(toBackend, toClient);
    KilledIffBackAtHead(toBackend);
    KilledIffBackAtHead(toClient);
    assert legs[0].reason == ReasonOf(toBackend) && legs[1].reason == ReasonOf(toClient);
    assert legs[..1] == [legs[0]];
    assert LastOf(legs[..1], ClientToBackend) == legs[0].transferred;
  }

  /** In the turns of `a` the event is set only after the leg of `b` has ended. */
  ghost predicate SetOnlyAfter(a: seq<Turn>, b: seq<Turn>) {
    forall k :: 0 <= k < |a| && a[k].killSet ==> Completed(b) < |b| && b[Completed(b)].at < a[k].at
  }

  /** Nobody asks for a kill, neither an admin nor a limit: the relay alone sets the event, when the first
      leg has ended. */
  ghost predicate NobodyKills(toBackend: seq<Turn>, toClient: seq<Turn>) {
    SetOnlyAfter(toBackend, toClient) && SetOnlyAfter(toClient, toBackend)
  }

  /** Then one leg at most reports a kill, and the other one, which ended first, closed or raised. */
  lemma OneLegAtMost(toBackend: seq<Turn>, toClient: seq<Turn>)
    requires NobodyKills(toBackend, toClient)
    ensures ReasonOf(toBackend) != EndReason.Killed || ReasonOf(toClient) != EndReason.Killed
    ensures AnyKilled(LegsOf(toBackend, toClient))
      <==> ReasonOf(toBackend) == EndReason.Killed || ReasonOf(toClient) == EndReason.Killed
  {
    var n, m := Completed(toBackend), Completed(toClient);
    var legs := LegsOf(toBackend, toClient);
    assert legs[0].reason == ReasonOf(toBackend) && legs[1].reason == ReasonOf(toClient);
    if n < |toBackend| && toBackend[n].killSet {
      assert toClient[m].at < toBackend[n].at;
    }
  }

  /** A run without any kill that stores whatever the relay returned, for a leg that reported one. */
  lemma IdleRun(toClient: nat, toBackend: nat) returns (c: L.Conn)
    ensures L.Reaches(c) && c.handler.Done? && c.killers == []
    ensures c.row.status == Closed && c.row.reason == IdleTimeout
    ensures c.row.toClient == toClient && c.row.toBackend == toBackend
  {
    L.ReachesRelaying();
    c := L.Then(L.RELAYING, L.EndRelay(toClient, toBackend, true));
    c := L.Then(c, L.EndSession);
    var d := L.EndAlone(c, false, 1);
    L.ThenAll(c, [L.Decide(false)] + L.FinishEvents(c.row, 1), d);
    c := d;
  }

  /** The client closes, nobody asks for a kill, and a chunk from the backend is still under way: the
      connection is stored as closed by an idle timeout. */
  lemma CloseRecordedAsIdle() returns (c: L.Conn, toBackend: seq<Turn>, toClient: seq<Turn>)
    ensures NobodyKills(toBackend, toClient) && ReasonOf(toBackend) == Eof && AnyKilled(LegsOf(toBackend, toClient))
    ensures L.Reaches(c) && c.handler.Done? && c.killers == []
    ensures c.row.status == Closed && c.row.reason == IdleTimeout
    ensures c.row.toClient == |Concat(Received(toClient))| && c.row.toBackend == |Concat(Received(toBackend))|
  {
    toBackend := [Turn(false, [], Data([], None), 1.0)];
    toClient := [Turn(false, [], Data([7], None), 1.5), Turn(true, [], Data([], None), 2.0)];
    ScriptsOfClose(toBackend, toClient);
    c := IdleRun(1, 0);
  }

  lemma ScriptsOfClose(toBackend: seq<Turn>, toClient: seq<Turn>)
    requires toBackend == [Turn(false, [], Data([], None), 1.0)]
    requires toClient == [Turn(false, [], Data([7], None), 1.5), Turn(true, [], Data([], None), 2.0)]
    ensures NobodyKills(toBackend, toClient) && ReasonOf(toBackend) == Eof
    ensures AnyKilled(LegsOf(toBackend, toClient))
    ensures |Concat(Received(toBackend))| == 0 && |Concat(Received(toClient))| == 1
  {
    CompletedIs(toBackend, 0);
    CompletedIs(toClient, 1);
    assert LegsOf(toBackend, toClient)[1].reason == EndReason.Killed;
    assert Received(toBackend) == [] && Received(toClient) == [[7]];
    assert [[7]][1..] == [];
    assert Concat([[7]]) == [7] + Concat([]);
  }
}
