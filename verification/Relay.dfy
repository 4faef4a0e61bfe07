/** The relay's two pumps. A leg is run against a script: for every turn of its loop, what happened on
    the shared plugin registry while the leg waited, and what its read and its drain gave. */
module Relay {
  import opened Basics
  import opened Plugins
  import opened Streams
  import Mcs

  datatype Direction = ClientToBackend | BackendToClient

  /** What a read or a drain can raise, by the clauses that catch it. */
  datatype Exception =
    | IncompleteReadError | SslError(reason: string) | ConnectionError(text: string) | TimeoutError
    | OtherError(typeName: string, text: string)

  datatype Arrival = Data(data: bytes, drain: Option<Exception>) | ReadFails(exception: Exception)

  /** `killSet`: the kill event as the loop sees it; `others`: the calls that other legs and sessions
      made on the registry before the chunk is processed, at the time `at`. */
  datatype Turn = Turn(killSet: bool, others: seq<Event>, arrival: Arrival, at: real)

  datatype EndReason = Eof | Killed | Raised(exception: Exception)

  /** The text of the reason in the leg's result. */
  function Text(r: EndReason): string {
    match r
    case Eof => "eof"
    case Killed => "killed"
    case Raised(IncompleteReadError) => "incomplete-read"
    case Raised(SslError(reason)) => "ssl-error:" + reason
    case Raised(ConnectionError(text)) => "connection-error:" + text
    case Raised(TimeoutError) => "ssl-shutdown-timeout"
    case Raised(OtherError(typeName, text)) => "error:" + typeName + ":" + text
  }

  /** No exception reads as a kill, whatever its text. */
  lemma OnlyKilledReadsKilled(r: EndReason)
    ensures Text(r) == "killed" <==> r == Killed
  {
    assert Text(r) != [] && (Text(r)[0] == 'k' <==> r == Killed);
  }

  /** The texts that the event log shows. */
  lemma ReasonTexts(text: string, typeName: string)
    ensures Text(Eof) == "eof" && Text(Killed) == "killed"
    ensures Text(Raised(IncompleteReadError)) == "incomplete-read"
    ensures Text(Raised(TimeoutError)) == "ssl-shutdown-timeout"
    ensures Text(Raised(SslError(text))) == "ssl-error:" + text
    ensures Text(Raised(ConnectionError(text))) == "connection-error:" + text
    ensures Text(Raised(OtherError(typeName, text))) == "error:" + typeName + ":" + text
  {
  }

  datatype LegResult = LegResult(direction: Direction, transferred: nat, reason: EndReason)

  // ---- what a script means ----

  /** The turn hands a chunk to the writer. */
  predicate Pumps(t: Turn) {
    !t.killSet && t.arrival.Data? && t.arrival.data != []
  }

  predicate Continues(t: Turn) {
    Pumps(t) && t.arrival.drain.None?
  }

  /** The number of turns after which the loop comes back to its head. */
  function Completed(script: seq<Turn>): (n: nat)
    ensures n <= |script| && forall j :: 0 <= j < n ==> Continues(script[j])
    ensures n < |script| ==> !Continues(script[n])
  {
    if script == [] || !Continues(script[0]) then 0 else 1 + Completed(script[1..])
  }

  /** Why a leg ends at its turn `n`; a script that runs out is a peer that closes. */
  function ReasonAt(script: seq<Turn>, n: nat): EndReason
    requires n <= |script|
  {
    if n == |script| then Eof
    else if script[n].killSet then Killed
    else match script[n].arrival
      case ReadFails(exception) => Raised(exception)
      case Data(data, drain) => if data == [] || drain.None? then Eof else Raised(drain.value)
  }

  function ReasonOf(script: seq<Turn>): EndReason {
    ReasonAt(script, Completed(script))
  }

  /** The chunks read and handed on; the last one counts even when draining it fails. */
  function Received(script: seq<Turn>): (r: seq<bytes>)
    ensures |r| <= |script| && forall j :: 0 <= j < |r| ==> Pumps(script[j]) && r[j] == script[j].arrival.data
  {
    var n := Completed(script);
    var m := if n < |script| && Pumps(script[n]) then n + 1 else n;
    seq(m, j requires 0 <= j < m => script[j].arrival.data)
  }

  /** The leg passed a whole chunk on in each of these turns. */
  ghost predicate AllPass(turns: seq<Turn>) {
    forall j :: 0 <= j < |turns| ==>
      !turns[j].killSet && turns[j].arrival.Data? && turns[j].arrival.data != [] && turns[j].arrival.drain == None
  }

  /** The chunks that arrived in these turns. */
  ghost predicate ChunksOf(turns: seq<Turn>, chunks: seq<bytes>)
    requires AllPass(turns)
  {
    |chunks| == |turns| && forall j :: 0 <= j < |turns| ==> chunks[j] == turns[j].arrival.data
  }

  /** Why a leg ends, and what it has read by then: after turns that pass their chunks on, one in which the
      kill event is set, the read raises or gives nothing, or the drain raises; the chunk of that drain
      counts. */
  lemma LegEnds(turns: seq<Turn>, last: Turn, rest: seq<Turn>, chunks: seq<bytes>)
    requires AllPass(turns) && ChunksOf(turns, chunks)
    ensures ReasonOf(turns) == Eof && Received(turns) == chunks
    ensures var script := turns + [last] + rest;
      && (last.killSet ==> ReasonOf(script) == Killed && Received(script) == chunks)
      && (!last.killSet && last.arrival.ReadFails? ==>
            ReasonOf(script) == Raised(last.arrival.exception) && Received(script) == chunks)
      && (!last.killSet && last.arrival.Data? && last.arrival.data == [] ==>
            ReasonOf(script) == Eof && Received(script) == chunks)
      && (!last.killSet && last.arrival.Data? && last.arrival.data != [] && last.arrival.drain.Some? ==>
            ReasonOf(script) == Raised(last.arrival.drain.value) && Received(script) == chunks + [last.arrival.data])
  {
    CompletedIs(turns, |turns|);
    assert Received(turns) == chunks;
    var script, n := turns + [last] + rest, |turns|;
    assert forall j :: 0 <= j < n ==> script[j] == turns[j];
    assert script[n] == last;
    if !Continues(last) {
      CompletedIs(script, n);
    }
    if !Continues(last) && !Pumps(last) {
      assert Received(script) == chunks;
    }
    if !Continues(last) && Pumps(last) {
      assert Received(script) == chunks + [last.arrival.data];
    }
  }

  function PacketEvent(direction: Direction, requested: Option<u32>, t: Turn): Event
    requires Pumps(t)
  {
    if direction.ClientToBackend? then ClientPacket(t.arrival.data, t.at)
    else BackendPacket(t.arrival.data, requested, t.at)
  }

  /** The first `k` turns each hand on a chunk. */
  ghost predicate AllPump(script: seq<Turn>, k: nat) {
    k <= |script| && forall j :: 0 <= j < k ==> Pumps(script[j])
  }

  /** The history of the registry when the leg is back at its loop's head after `k` turns. */
  ghost function HistoryAt(direction: Direction, requested: Option<u32>, h: seq<Event>,
                           script: seq<Turn>, k: nat): seq<Event>
    requires AllPump(script, k)
  {
    if k == 0 then h else (
      assert Pumps(script[k - 1]);
      var before := HistoryAt(direction, requested, h, script, k - 1);
      before + script[k - 1].others + [PacketEvent(direction, requested, script[k - 1])])
  }

  /** What a chunk becomes when it is processed after the history `h`. */
  ghost predicate Output(direction: Direction, hasPatch: bool, requested: Option<u32>, h: seq<Event>,
                         data: bytes, out: bytes)
  {
    if direction.ClientToBackend? then ClientOutput(hasPatch, h, data, out)
    else BackendOutput(hasPatch, h, data, requested, out)
  }

  /** `out` is what the chunk of turn `j` becomes at its moment. */
  ghost predicate HandedAt(direction: Direction, hasPatch: bool, requested: Option<u32>, h: seq<Event>,
                           script: seq<Turn>, j: nat, out: bytes)
    requires AllPump(script, j + 1)
  {
    assert Pumps(script[j]);
    var before := HistoryAt(direction, requested, h, script, j) + script[j].others;
    Output(direction, hasPatch, requested, before, script[j].arrival.data, out)
  }

  /** `handed` is what the chunks of the first turns became, each at its own moment. */
  ghost predicate Handed(direction: Direction, hasPatch: bool, requested: Option<u32>, h: seq<Event>,
                         script: seq<Turn>, handed: seq<bytes>)
  {
    && AllPump(script, |handed|)
    && forall j :: 0 <= j < |handed| ==> HandedAt(direction, hasPatch, requested, h, script, j, handed[j])
  }

  lemma OutputKeepsLength(direction: Direction, hasPatch: bool, requested: Option<u32>, h: seq<Event>,
                          data: bytes, out: bytes)
    requires Output(direction, hasPatch, requested, h, data, out)
    ensures |out| == |data|
  {
    if out != data {
      if direction.ClientToBackend? {
        Mcs.ClientPatchLocal(data, out);
      } else if Mcs.HasBlock(data, Mcs.TS_UD_SC_CORE, Mcs.SERVER_CORE_MIN) {
        var i :| Mcs.Leftmost(data, Mcs.TS_UD_SC_CORE, Mcs.SERVER_CORE_MIN, i);
      }
    }
  }

  // ---- the code ----

  method Meanwhile(registry: PluginRegistry, others: seq<Event>)
    requires registry.Valid()
    modifies registry
    ensures registry.Valid() && registry.history == old(registry.history) + others
    ensures HasPatch(registry.plugins) == HasPatch(old(registry.plugins))
  {
    for i := 0 to |others|
      invariant registry.Valid() && registry.history == old(registry.history) + others[..i]
      invariant HasPatch(registry.plugins) == HasPatch(old(registry.plugins))
    {
      match others[i] {
        case Started(at) => registry.OnSessionStart(at);
        case ClientPacket(data, at) => var _ := registry.OnClientPacket(data, at);
        case BackendPacket(data, requested, at) => var _ := registry.OnBackendPacket(data, requested, at);
      }
      assert others[..i + 1] == others[..i] + [others[i]];
    }
    assert others[..|others|] == others;
  }

  method Transform(registry: PluginRegistry, direction: Direction, requested: Option<u32>, data: bytes, at: real)
    returns (out: bytes)
    requires registry.Valid()
    modifies registry
    ensures registry.Valid() && HasPatch(registry.plugins) == HasPatch(old(registry.plugins))
    ensures registry.history == old(registry.history)
      + [if direction.ClientToBackend? then ClientPacket(data, at) else BackendPacket(data, requested, at)]
    ensures Output(direction, HasPatch(registry.plugins), requested, old(registry.history), data, out)
  {
    if direction.ClientToBackend? {
      out := registry.OnClientPacket(data, at);
    } else {
      out := registry.OnBackendPacket(data, requested, at);
    }
  }

  /** The part of a turn that handles a chunk: through the plugins and on to the writer. */
  method PumpChunk(registry: PluginRegistry, direction: Direction, requested: Option<u32>, turn: Turn,
                   ghost patching: bool, ghost h: seq<Event>, ghost script: seq<Turn>, ghost written: seq<bytes>)
    returns (data: bytes)
    requires registry.Valid() && HasPatch(registry.plugins) == patching
    requires Handed(direction, patching, requested, h, script, written)
    requires |written| < |script| && script[|written|] == turn && Pumps(turn)
    requires registry.history == HistoryAt(direction, requested, h, script, |written|) + turn.others
    modifies registry
    ensures registry.Valid() && HasPatch(registry.plugins) == patching
    ensures Pumped(direction, patching, requested, h, script, written + [data], |written| + 1, registry.history)
    ensures |Concat(written + [data])| == |Concat(written)| + |data|
  {
    data := Transform(registry, direction, requested, turn.arrival.data, turn.at);
    PumpedOneMore(direction, patching, requested, h, script, written, data);
    ConcatOneMore(written, data);
  }

  /** The loop: it stops after `k` whole turns. */
  method PumpLoop(registry: PluginRegistry, direction: Direction, requested: Option<u32>, script: seq<Turn>)
    returns (reason: EndReason, transferred: nat, written: seq<bytes>, ghost k: nat)
    requires registry.Valid()
    modifies registry
    ensures registry.Valid() && HasPatch(registry.plugins) == HasPatch(old(registry.plugins))
    ensures k <= |script| && (forall j :: 0 <= j < k ==> Continues(script[j]))
    ensures (k < |script| ==> !Continues(script[k])) && reason == ReasonAt(script, k)
    ensures |written| == if k < |script| && Pumps(script[k]) then k + 1 else k
    ensures Handed(direction, HasPatch(old(registry.plugins)), requested, old(registry.history), script, written)
    ensures transferred == |Concat(written)|
  {
    ghost var h, patching := registry.history, HasPatch(registry.plugins);
    written, transferred, reason, k := [], 0, Eof, 0;
    var i := 0;
    while i < |script|
      invariant i == k <= |script| && (forall j :: 0 <= j < k ==> Continues(script[j]))
      invariant registry.Valid() && HasPatch(registry.plugins) == patching && reason == Eof
      invariant Pumped(direction, patching, requested, h, script, written, k, registry.history)
      invariant transferred == |Concat(written)|
    {
      var turn := script[i];
      if turn.killSet {
        reason := Killed;
        return;
      }
      Meanwhile(registry, turn.others);
      if turn.arrival.ReadFails? {
        reason := Raised(turn.arrival.exception);
        return;
      }
      if turn.arrival.data == [] {
        return;
      }
      var data := PumpChunk(registry, direction, requested, turn, patching, h, script, written);
      transferred := transferred + |data|;
      written := written + [data];
      if turn.arrival.drain.Some? {
        reason := Raised(turn.arrival.drain.value);
        return;
      }
      i, k := i + 1, k + 1;
    }
  }

  method Pipe(registry: PluginRegistry, direction: Direction, requested: Option<u32>, script: seq<Turn>)
    returns (r: LegResult, written: seq<bytes>)
    requires registry.Valid()
    modifies registry
    ensures registry.Valid() && r.direction == direction && r.reason == ReasonOf(script)
    ensures |written| == |Received(script)|
    ensures Handed(direction, HasPatch(old(registry.plugins)), requested, old(registry.history), script, written)
    ensures r.transferred == |Concat(written)| == |Concat(Received(script))|
    ensures HasPatch(registry.plugins) == HasPatch(old(registry.plugins))
  {
    ghost var h, patching := registry.history, HasPatch(registry.plugins);
    ghost var k;
    var reason, transferred;
    reason, transferred, written, k := PumpLoop(registry, direction, requested, script);
    CompletedIs(script, k);
    LengthsHold(direction, patching, requested, h, script, written);
    r := LegResult(direction, transferred, reason);
  }

  /** After `k` whole turns: what was handed on, and the history they leave. */
  ghost predicate Pumped(direction: Direction, hasPatch: bool, requested: Option<u32>, h: seq<Event>,
                         script: seq<Turn>, handed: seq<bytes>, k: nat, history: seq<Event>)
  {
    && |handed| == k && Handed(direction, hasPatch, requested, h, script, handed)
    && history == HistoryAt(direction, requested, h, script, k)
  }

  lemma PumpedOneMore(direction: Direction, hasPatch: bool, requested: Option<u32>, h: seq<Event>,
                      script: seq<Turn>, handed: seq<bytes>, out: bytes)
    requires Handed(direction, hasPatch, requested, h, script, handed)
    requires |handed| < |script| && Pumps(script[|handed|])
    requires var before := HistoryAt(direction, requested, h, script, |handed|) + script[|handed|].others;
      Output(direction, hasPatch, requested, before, script[|handed|].arrival.data, out)
    ensures Pumped(direction, hasPatch, requested, h, script, handed + [out], |handed| + 1,
                   HistoryAt(direction, requested, h, script, |handed|) + script[|handed|].others
                   + [PacketEvent(direction, requested, script[|handed|])])
  {
    HandedOneMore(direction, hasPatch, requested, h, script, handed, out);
  }

  lemma HandedOneMore(direction: Direction, hasPatch: bool, requested: Option<u32>, h: seq<Event>,
                      script: seq<Turn>, handed: seq<bytes>, out: bytes)
    requires Handed(direction, hasPatch, requested, h, script, handed)
    requires |handed| < |script| && Pumps(script[|handed|])
    requires var before := HistoryAt(direction, requested, h, script, |handed|) + script[|handed|].others;
      Output(direction, hasPatch, requested, before, script[|handed|].arrival.data, out)
    ensures Handed(direction, hasPatch, requested, h, script, handed + [out])
  {
    var more := handed + [out];
    assert AllPump(script, |more|);
    forall j | 0 <= j < |more|
      ensures HandedAt(direction, hasPatch, requested, h, script, j, more[j])
    {
      if j < |handed| {
        assert more[j] == handed[j];
      }
    }
  }

  lemma {:induction false} CompletedIs(script: seq<Turn>, k: nat)
    requires k <= |script| && forall j :: 0 <= j < k ==> Continues(script[j])
    requires k < |script| ==> !Continues(script[k])
    ensures Completed(script) == k
    decreases k
  {
    if k > 0 {
      CompletedIs(script[1..], k - 1);
    }
  }

  lemma {:induction false} ConcatOneMore(parts: seq<bytes>, part: bytes)
    ensures Concat(parts + [part]) == Concat(parts) + part
  {
    if parts != [] {
      ConcatOneMore(parts[1..], part);
      assert (parts + [part])[1..] == parts[1..] + [part];
    }
  }

  // ---- what the pump promises ----

  /** In every interleaving each chunk keeps its length, so the count is that of the bytes read. */
  lemma {:induction false} LengthsHold(direction: Direction, hasPatch: bool, requested: Option<u32>, h: seq<Event>,
                                       script: seq<Turn>, handed: seq<bytes>)
    requires Handed(direction, hasPatch, requested, h, script, handed) && |handed| == |Received(script)|
    ensures forall j :: 0 <= j < |handed| ==> |handed[j]| == |Received(script)[j]|
    ensures |Concat(handed)| == |Concat(Received(script))|
  {
    var received := Received(script);
    forall j | 0 <= j < |handed|
      ensures |handed[j]| == |received[j]|
    {
      assert HandedAt(direction, hasPatch, requested, h, script, j, handed[j]);
      var before := HistoryAt(direction, requested, h, script, j) + script[j].others;
      OutputKeepsLength(direction, hasPatch, requested, before, script[j].arrival.data, handed[j]);
    }
    SameTotal(handed, received);
  }

  lemma {:induction false} SameTotal(a: seq<bytes>, b: seq<bytes>)
    requires |a| == |b| && forall j :: 0 <= j < |a| ==> |a[j]| == |b[j]|
    ensures |Concat(a)| == |Concat(b)|
  {
    if a != [] {
      SameTotal(a[1..], b[1..]);
    }
  }

  /** No other session starts while the leg runs, and none sends packets in its direction. */
  ghost predicate NotOverlapped(direction: Direction, script: seq<Turn>) {
    forall k, i :: 0 <= k < |script| && 0 <= i < |script[k].others| ==>
      !script[k].others[i].Started? &&
      !(if direction.ClientToBackend? then script[k].others[i].ClientPacket? else script[k].others[i].BackendPacket?)
  }

  /** Every chunk after the first passes unchanged. */
  lemma OnlyTheFirstChunk(direction: Direction, hasPatch: bool, requested: Option<u32>, h: seq<Event>,
                          script: seq<Turn>, handed: seq<bytes>, j: nat)
    requires Handed(direction, hasPatch, requested, h, script, handed)
    requires NotOverlapped(direction, script) && 0 < j < |handed|
    ensures handed[j] == script[j].arrival.data
  {
    assert HandedAt(direction, hasPatch, requested, h, script, j, handed[j]) && Pumps(script[j - 1]);
    var head := HistoryAt(direction, requested, h, script, j);
    var before := head + script[j].others;
    var last := |head| - 1;
    assert before[last] == head[last] == PacketEvent(direction, requested, script[j - 1]);
    assert forall i :: last < i < |before| ==> before[i] == script[j].others[i - |head|] && !before[i].Started?;
  }

  lemma OneByteOfConcat(sent: seq<bytes>, received: seq<bytes>, p: nat, v: byte)
    requires |sent| == |received| > 0 && sent[1..] == received[1..]
    requires p < |received[0]| && sent[0] == received[0][p := v]
    ensures p < |Concat(received)| && Concat(received)[p] == received[0][p]
    ensures Concat(sent) == Concat(received)[p := v]
  {
    var rest := Concat(received[1..]);
    assert Concat(received) == received[0] + rest && Concat(sent) == sent[0] + rest;
    assert received[0][p := v] + rest == (received[0] + rest)[p := v];
  }

  /** The first chunk comes out changed in at most one byte. */
  lemma FirstChunk(hasPatch: bool, requested: Option<u32>, h: seq<Event>, script: seq<Turn>, handed: seq<bytes>)
    returns (p: nat)
    requires Handed(ClientToBackend, hasPatch, requested, h, script, handed) && handed != []
    ensures Pumps(script[0])
    ensures handed[0] == script[0].arrival.data
      || (p < |handed[0]| == |script[0].arrival.data| && script[0].arrival.data[p] == 1
          && handed[0] == script[0].arrival.data[p := 2])
  {
    assert HandedAt(ClientToBackend, hasPatch, requested, h, script, 0, handed[0]);
    assert Pumps(script[0]);
    var data := script[0].arrival.data;
    p := 0;
    if handed[0] != data {
      Mcs.ClientPatchLocal(data, handed[0]);
      p :| 0 <= p < |data| && data[p] == 1 && handed[0] == data[p := 2];
    }
  }

  ghost predicate DiffersAt(sent: bytes, received: bytes, p: int) {
    0 <= p < |received| && received[p] == 1 && sent == received[p := 2]
  }

  /** The bytes written for one session that no other one overlaps, whatever the chunking: those read,
      but for at most one byte, which lies in the first chunk. */
  lemma OneByteAtMost(hasPatch: bool, requested: Option<u32>, h: seq<Event>, script: seq<Turn>, handed: seq<bytes>)
    requires Handed(ClientToBackend, hasPatch, requested, h, script, handed) && |handed| == |Received(script)|
    requires NotOverlapped(ClientToBackend, script)
    ensures Concat(handed) == Concat(Received(script))
      || exists p :: DiffersAt(Concat(handed), Concat(Received(script)), p) && p < |Received(script)[0]|
  {
    var received := Received(script);
    if handed != [] {
      forall j | 0 < j < |handed|
        ensures handed[j] == received[j]
      {
        OnlyTheFirstChunk(ClientToBackend, hasPatch, requested, h, script, handed, j);
      }
      assert handed[1..] == received[1..];
      var p := FirstChunk(hasPatch, requested, h, script, handed);
      if handed[0] != received[0] {
        OneByteOfConcat(handed, received, p, 2);
        assert DiffersAt(Concat(handed), Concat(received), p);
      }
    }
  }

  /** A leg says "killed" exactly when it came back to its loop's head after the event was set, and the
      relay sets that event itself when the other leg ends first: the word does not mean a kill. */
  lemma KilledIffBackAtHead(script: seq<Turn>)
    ensures ReasonOf(script) == Killed
      <==> exists k :: 0 <= k < |script| && script[k].killSet && forall j :: 0 <= j < k ==> Continues(script[j])
  {
    var n := Completed(script);
    if k :| 0 <= k < |script| && script[k].killSet && forall j :: 0 <= j < k ==> Continues(script[j]) {
      CompletedIs(script, k);
    }
  }

  /** The totals of a relay whose legs ended with a result or, for None, with an exception. */
  method CollectLegs(results: seq<Option<LegResult>>)
    returns (bytesToClient: nat, bytesToBackend: nat, legs: seq<LegResult>)
    ensures legs == Results(results) && forall leg :: leg in legs <==> Some(leg) in results
    ensures bytesToClient == LastOf(legs, BackendToClient) && bytesToBackend == LastOf(legs, ClientToBackend)
  {
    bytesToClient, bytesToBackend, legs := 0, 0, [];
    for i := 0 to |results|
      invariant legs == Results(results[..i])
      invariant bytesToClient == LastOf(legs, BackendToClient) && bytesToBackend == LastOf(legs, ClientToBackend)
    {
      assert results[..i + 1][..i] == results[..i];
      if results[i].Some? {
        var item := results[i].value;
        legs := legs + [item];
        if item.direction.ClientToBackend? {
          bytesToBackend := item.transferred;
        } else {
          bytesToClient := item.transferred;
        }
      }
    }
    assert results[..|results|] == results;
    ResultsAre(results);
  }

  lemma {:induction false} ResultsAre(results: seq<Option<LegResult>>)
    ensures forall leg :: leg in Results(results) <==> Some(leg) in results
  {
    if results != [] {
      ResultsAre(results[..|results| - 1]);
      assert results == results[..|results| - 1] + [results[|results| - 1]];
    }
  }

  function Results(results: seq<Option<LegResult>>): seq<LegResult> {
    if results == [] then [] else (
      var item := results[|results| - 1];
      Results(results[..|results| - 1]) + if item.Some? then [item.value] else [])
  }

  function LastOf(legs: seq<LegResult>, direction: Direction): nat {
    if legs == [] then 0
    else if legs[|legs| - 1].direction == direction then legs[|legs| - 1].transferred
    else LastOf(legs[..|legs| - 1], direction)
  }

  /** With one leg per direction each total is that leg's count, and zero when the leg raised. */
  lemma TotalsOfTwoLegs(toBackend: Option<LegResult>, toClient: Option<LegResult>)
    requires toBackend.Some? ==> toBackend.value.direction == ClientToBackend
    requires toClient.Some? ==> toClient.value.direction == BackendToClient
    ensures var legs := Results([toBackend, toClient]);
      && LastOf(legs, ClientToBackend) == (if toBackend.Some? then toBackend.value.transferred else 0)
      && LastOf(legs, BackendToClient) == (if toClient.Some? then toClient.value.transferred else 0)
  {
    var items := [toBackend, toClient];
    assert items[..1] == [toBackend] && items[..1][..0] == [];
    var first := if toBackend.Some? then [toBackend.value] else [];
    assert Results(items[..1][..0]) == [] && Results(items[..1]) == first;
    if toBackend.Some? && toClient.Some? {
      assert Results(items)[..1] == first;
    }
    assert LastOf(first[..0], BackendToClient) == 0;
  }
}
