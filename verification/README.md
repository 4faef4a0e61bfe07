# RDP proxy: a Dafny model and its proofs

The repository is a proxy for Remote Desktop connections: a portal issues short-lived tokens and
.rdp files, a relay terminates TLS, authenticates to the target with CredSSP and pumps bytes both
ways, and an admin service shows, kills and configures. This project models the parts where the
state is shared or the bytes are cut by hand, and proves what they promise.

Four families, one module per component:

1. **Connection life cycle.** `Lifecycle` interleaves the relay handler, any number of admin kills,
   the quality publisher, key expiry, crashes and restarts, one atomic SQL statement or Redis command
   at a time, over any number of connections. `TokenRevocation` does the same for tokens, fingerprint
   binds under WATCH, kills and the flush of a starting relay; `FingerprintRaces` for the clients that
   one token lets in; `SessionRaces` for one web session key.
   `Runs` is the shared theory of runs. `History`, `Tracker` and `Sessions` are the operations run alone,
   as classes over their rows and keys. `RelayEnding` leads from the reports of the relay's legs to the
   end that is recorded.
2. **Bytes.** `Der`, `CredSsp`, `Framing`, `Streams`, `ProxyProtocol`, `Numerals` and `Mcs` are the formats;
   `Plugins` and `Relay` are the shared plugin chain and the pump that applies it.
3. **Derived state.** `Settings` (cache against rows), `LoginLimiter` (counters against the history of
   failures, with `LimiterRaces` for failures and clears at the same time), `Sessions` (web session key against the history of accesses), `Quality` (window against
   all samples).
4. **RDP templates.** `Templates` has both merges of the code against one definition without sorting
   or folding, and the table with its single default.

## What does not hold, and exactly when it does

Each of these is a lemma. The conditions can be checked before the call, except two: whether anything
raises (`Lifecycle.BytesAreRelayed`) and when a leg comes back to its loop (`RelayEnding.EndingIff`)
show only during the run.

- The stored byte counts are the relayed ones unless something raises: an exception after `finish`
  runs `finish` again with zeros (`Lifecycle.LateExceptionLosesBytes`, exact condition
  `Lifecycle.BytesAreRelayed`).
- A completed kill does not keep the active key away: until the relay has returned, the publisher can
  write it back (`Lifecycle.PublisherRevivesKilled`). In every reachable state the key is gone for good
  exactly when it is absent and no writer of it is left (`Lifecycle.ActiveKeyGoneForever`).
- A kill revokes the token for good exactly when no token is issued with a longer lifetime than that of
  the CONN_TOKEN key, which comes from the configuration file while the token's comes from the managed
  settings, and no relay starts while connections of another one run, because its flush takes their
  CONN_TOKEN keys too (`TokenRevocation.KillRevokesIff`, with a failing run for either cause in
  `TokenRevocation.LongTokenSurvives` and `TokenRevocation.FlushedMappingSurvives`).
- A deleted or expired session stays gone exactly when, at that moment, no `update_admin_must_change`
  stands between its look at the remaining time and its write, which is not watched
  (`SessionRaces.GoneForGoodIff`). Portal sessions have no such writer, so theirs are never written back
  (`SessionRaces.NeverWrittenBackIff`).
- A token lets in one client only, in every interleaving, exactly when one relay serves it: a handler
  binds over a fingerprint that another relay has bound since it read the session, and lets its client
  in even when the bind fails (`FingerprintRaces.OneClientIff`). With several relays it is so from a
  moment on exactly when the token is bound or gone and all clients let in, or about to be, agree
  (`FingerprintRaces.OneClientFromHereIff`).
- A lock does not last as long as each failure said: a later failure over the limit sets it anew, for
  less time when the managed lock time was lowered. It is the latest one that counts, exactly
  (`LoginLimiter.LockIsLatestIff`).
- A row killed before its handler died never gets an end time (`Lifecycle.RestartSettlesRow`).
- With two sessions overlapping, the later one's first chunk can pass unpatched
  (`Plugins.OverlapSkipsAPatch`); a chunk is patched exactly when no packet of its direction came since
  the latest session start (`Plugins.PluginRegistry.OnClientPacket`).
- "Idle timeout" does not mean idleness. It is recorded exactly when there is no kill key, the duration
  is not exceeded, and a leg came back to its loop after the kill event was set
  (`RelayEnding.EndingIff`), and the relay sets that event itself when the other leg ends, so a
  plain close can be stored so (`RelayEnding.CloseRecordedAsIdle`).
- A CredSSP record inside a TPKT frame is never read: the length is unpacked from one octet too few and
  the read raises (`Framing.RecordIsConsumed`).
- Seeding keeps the port clients are sent to, except for a row with only a legacy port that differs
  from the YAML port, and it keeps the DNS settings, except for a valid row that lacks a value which the
  YAML and the model class give differently (`Settings.FirstLoadKeepsViews`).
- A save before the first load leaves the cache in agreement with the row exactly when it overwrites the
  whole row (`Settings.SaveBeforeLoad`). The services load when they start.
- The order in which the database returns the templates does not matter exactly when, for every key,
  the applicable templates of the highest priority that define it give it one value
  (`Templates.OrderDoesNotMatterIff`).

## Model

| member | source | states |
|---|---|---|
| History.UpdatesAdvance | src/libs/redis_store/active_tracker.py:84-126 | under any guarded updates by any services in any order no row goes back to active, a killed row keeps status and reason, and no end time is lost |
| History.KilledExactlyWhen | src/libs/redis_store/active_tracker.py:84-100 | from a fresh row, under any updates in any order: active until the first that ends or kills it, and killed if and only if one reports a kill or is a kill before every end |
| History.KilledBecause | src/libs/redis_store/active_tracker.py:84-100 | a killed row has the reason of the first update that decided so, for good |
| History.LastFinishCounts | src/libs/redis_store/active_tracker.py:84-126 | end time and counts are those of the last `finish` that matched the row, and so are status and reason of a row that is not killed; a row never finished has an end only by a restart |
| Tracker.ConnectionTracker.Start | src/libs/redis_store/active_tracker.py:39-68 | a fresh active row without end, reason or counts and an active key for 86400 seconds, nothing else |
| Tracker.ConnectionTracker.Finish | src/libs/redis_store/active_tracker.py:76-103 | in any state of the row: end time and bytes are stored, a killed row keeps status and reason, the active key is gone |
| Tracker.ConnectionTracker.FlushPattern | src/libs/redis_store/active_tracker.py:139-141 | exactly the live keys matching the pattern are deleted, each counted once |
| Tracker.ConnectionTracker.ReconcileStaleActiveOnStartup | src/libs/redis_store/active_tracker.py:105-145 | exactly the active rows of this instance without an end become errors by a restart, exactly the live keys of the six kinds are gone, and both counts are those of what changed |
| Tracker.AllPatternsAreTransient | src/libs/redis_store/active_tracker.py:129-136 | the six patterns together match exactly the transient keys |
| Tracker.PatternsAreDisjoint | src/libs/redis_store/active_tracker.py:129-140 | no key matches two patterns, so the count has no duplicates |
| Tracker.AdminSessions.KillSession | src/services/admin/routes/sessions.py:332-359 | kill signal up for 60 seconds; active key gone; a live CONN_TOKEN entry with a text goes together with the token it names, and without one no token and no record goes; row killed by "admin_kill" if active; no other key touched |
| Tracker.AdminSessions.KillAllSessions | src/services/admin/routes/sessions.py:301-328 | the same for every listed connection, in any scan order and with repeated keys: tokens by the records at the start, rows by "admin_kill_all", nothing else changes; the count is the length of the list, which is the number of listed keys exactly when none is repeated |
| Tracker.KillOneMore | src/services/admin/routes/sessions.py:307-318 | one more kill keeps the outcome of the kills before it, even when connections or tokens repeat |
| Tracker.KillMapping | src/services/admin/routes/sessions.py:314-318 | a token recorded at the start is still recorded when a later turn looks, or token and record are already gone |
| Lifecycle.HistoryIsMonotone | src/libs/redis_store/active_tracker.py:76-103 | in every interleaving no row returns to active, a killed row's status and reason are final, an end time is never lost |
| Lifecycle.ActiveHasNoEnd | src/libs/redis_store/active_tracker.py:84-126 | in every reachable state an active row has no end time |
| Lifecycle.SettledRow | src/services/rdp_relay/handler.py:107-274 | once the handler returned: end time and reported bytes stored, and killed if and only if a kill's update came first or the handler saw the kill key |
| Lifecycle.EndAlone | src/services/rdp_relay/handler.py:212-232 | the row after the handler chose an end and finished, by killed legs, kill key and duration: each status with its reason; a row that is killed already keeps both |
| Lifecycle.RaiseAlone | src/services/rdp_relay/handler.py:244-270 | the row after a client that disconnects and after any other exception: status, reason and zero counts, and a killed row stays killed |
| Lifecycle.KillAlone | src/services/admin/routes/sessions.py:332-359 | what the commands of one kill do to any connection |
| Lifecycle.RestartAlone | src/libs/redis_store/active_tracker.py:105-145 | what a crash and the start after it do to any connection |
| Lifecycle.PublishFails | src/services/rdp_relay/plugins/connection_quality.py:188-203 | a publisher whose key was deleted since its WATCH writes nothing |
| Lifecycle.EnabledWhen | src/services/rdp_relay/handler.py:107-274 | when each event of the model can happen, if and only if |
| Lifecycle.SystemSteps | src/libs/redis_store/active_tracker.py:39-68 | connections are opened under fresh ids, and a step of one leaves all others alone |
| Lifecycle.SessionAlone | src/services/rdp_relay/handler.py:107-202 | a connection from its insert to the report of the relay |
| Lifecycle.PublishAlone | src/services/rdp_relay/plugins/connection_quality.py:188-203 | an undisturbed publisher writes the active key |
| Lifecycle.BytesAreRelayed | src/services/rdp_relay/handler.py:226-270 | the stored counts are the relayed ones exactly when nothing raised, or nothing was relayed |
| Lifecycle.ActiveKeyLifetime | src/services/rdp_relay/plugins/connection_quality.py:104-203 | the active key is there only between the tracker's start and the end of `finish`, or after a crash in between |
| Lifecycle.ActiveKeyGoneForever | src/services/rdp_relay/handler.py:107-232 | in every reachable state the key is absent at all later moments exactly when it is absent and no writer is left, and once `finish` is through that is so |
| Lifecycle.KeyComesBack | src/services/rdp_relay/handler.py:107-200 | from every state with a writer left some run brings the active key back |
| Lifecycle.RestartSettlesRow | src/libs/redis_store/active_tracker.py:105-126 | a restart leaves no crashed connection active; exactly the killed and unfinished ones keep no end time, for good |
| Lifecycle.LateExceptionLosesBytes | src/services/rdp_relay/handler.py:226-270 | a run in which an exception after `finish` stores zero bytes over the relayed ones |
| Lifecycle.PublisherRevivesKilled | src/services/rdp_relay/plugins/connection_quality.py:188-203 | a run in which the active key is back after a completed kill |
| TokenRevocation.KillRevokesIff | src/services/rdp_relay/handler.py:116-120 | in every interleaving a kill of a recorded, running connection makes `get_session` fail on its token forever, if and only if no token outlives the CONN_TOKEN key and no relay starts beside running connections |
| TokenRevocation.DeadForever | src/libs/redis_store/sessions.py:102-121 | a deleted or expired token stays dead in every continuation; an open WATCH body cannot write it back |
| TokenRevocation.LongTokenSurvives | src/services/rdp_relay/handler.py:116-120 | for every configuration with longer token lifetimes a run in which the killed connection's token still works |
| TokenRevocation.FlushedMappingSurvives | src/libs/redis_store/active_tracker.py:129-141 | wherever a relay may start beside running connections, a run in which its flush takes another relay's CONN_TOKEN key and the killed connection's token still works |
| TokenRevocation.BindAlone | src/libs/redis_store/sessions.py:102-121 | an undisturbed bind writes the fingerprint and keeps the expiry, one whose token is dropped in between writes nothing |
| TokenRevocation.HandlerAlone | src/services/rdp_relay/handler.py:116-237 | from recording the token to the delete of that record; not before the handler is over |
| TokenRevocation.KillAlone | src/services/admin/routes/sessions.py:344-347 | a kill deletes the recorded token and the record |
| TokenRevocation.KillFindsNothing | src/services/admin/routes/sessions.py:344-347 | without a live record it deletes nothing |
| TokenRevocation.TokenAlone | src/libs/redis_store/sessions.py:65-82 | a token is issued once, unbound and with its lifetime, and dropped at any time |
| TokenRevocation.FlushBegins | src/libs/redis_store/active_tracker.py:128-141 | a flush starts from the token keys that are there |
| TokenRevocation.FlushTokens | src/libs/redis_store/active_tracker.py:128-141 | it deletes them one by one and goes on when they are gone |
| TokenRevocation.FlushConnTokens | src/libs/redis_store/active_tracker.py:128-141 | then it deletes CONN_TOKEN keys, of whichever relay |
| FingerprintRaces.OneClientIff | src/services/rdp_relay/handler.py:89-105 | over every interleaving: all clients let in with a token show one fingerprint if and only if one relay serves it |
| FingerprintRaces.OneClientFromHereIff | src/services/rdp_relay/handler.py:89-105 | with several relays, in every reachable state: one client for good if and only if the token is bound or gone and all who are in or about to be agree |
| FingerprintRaces.BothGetIn | src/libs/redis_store/sessions.py:102-121 | from every state in which two claims differ a run lets both clients in |
| FingerprintRaces.ClientAlone | src/services/rdp_relay/handler.py:89-105 | one client at a time: the first fingerprint is bound and let in, later ones exactly if they match, none with a token that is gone |
| Sessions.SessionStore.CreateSession | src/libs/redis_store/sessions.py:65-82 | one fresh key with the lifetime of a token, which stands for the given data with no fingerprint; other tokens stay |
| Sessions.SessionStore.GetSession | src/libs/redis_store/sessions.py:84-100 | a live token gives back every field stored, with the password in plain text; any other none |
| Sessions.SessionStore.SetTokenFingerprint | src/libs/redis_store/sessions.py:102-121 | under any rivals inside the WATCH loop: bound exactly when the token is there and nobody deletes it; then `get_session` gives the digest of this fingerprint, and the expiry never moves |
| Sessions.SessionStore.TokenFingerprintMatches | src/libs/redis_store/sessions.py:123-131 | exactly the fingerprint that `get_session` shows matches; none where none is bound |
| Sessions.SessionStore.DeleteSession | src/libs/redis_store/sessions.py:133-134 | exactly this token goes |
| Sessions.SessionStore.CreateWebSession | src/libs/redis_store/sessions.py:138-154 | one fresh key with the lifetime of a web session |
| Sessions.SessionStore.GetWebSession | src/libs/redis_store/sessions.py:156-193 | let in exactly on fingerprint and idle limit; then only the last access changes, and when turned away exactly this key goes |
| Sessions.SessionStore.DeleteWebSession | src/libs/redis_store/sessions.py:195-196 | exactly this key goes |
| Sessions.ReplayIsHistory | src/libs/redis_store/sessions.py:156-196 | the key after any call history: last access and original expiry if the history is unbroken, gone otherwise |
| Sessions.AccessDecidedByHistory | src/libs/redis_store/sessions.py:138-196 | an access is let in if and only if the session was not deleted, is within its lifetime, all fingerprints matched and no gap exceeded the idle limit |
| Sessions.ExpiryIsFixed | src/libs/redis_store/sessions.py:178-183 | accesses never prolong a session |
| SessionRaces.GoneForGoodIff | src/libs/redis_store/sessions.py:156-268 | in every reachable state without the session: it stays gone in every continuation if and only if no unwatched update is about to write, whatever accesses and logouts race |
| SessionRaces.NeverWrittenBackIff | src/libs/redis_store/sessions.py:156-185 | in particular, under concurrent calls a gone session is never written back if and only if there are no unwatched updates |
| SessionRaces.UnwatchedUpdateRevives | src/libs/redis_store/sessions.py:256-265 | for every session a run in which `update_admin_must_change` writes a deleted session back |
| SessionRaces.AccessAlone | src/libs/redis_store/sessions.py:156-185 | an undisturbed access is the one of sequential calls; one that loses its race to a logout writes nothing |
| SessionRaces.UpdateAlone | src/libs/redis_store/sessions.py:256-265 | an undisturbed update leaves the session and its expiry; one that finds no key any more writes nothing |
| SessionRaces.OthersAlone | src/libs/redis_store/sessions.py:195-196 | a logout deletes the key, and calls that find none do nothing |
| LoginLimiter.LoginLimiter.IsLocked | src/libs/security/login_limiter.py:31-36 | whatever limits were in force: locked if and only if, for the address or the user the name stands for, the lock time of the latest failure that ended a chain of too many is not over; with a constant lock time, if and only if any such failure lies within it |
| LoginLimiter.LoginLimiter.RecordFailure | src/libs/security/login_limiter.py:38-51 | the failure of this address and of the user the name stands for joins the history, and counters and locks keep agreeing with it, for every key; simultaneous calls are in `LimiterRaces` |
| LoginLimiter.LoginLimiter.Clear | src/libs/security/login_limiter.py:53-58 | the counters of this address and of the user the name stands for restart and locks stay, as the history says |
| LoginLimiter.SameUserIff | src/libs/security/login_limiter.py:32-32 | names that are not blank stand for one user if and only if they differ in upper and lower case and outer white space only |
| LoginLimiter.OneUser | src/libs/security/login_limiter.py:32-32 | every name stands for exactly one user: the name stripped and in lower case, "_" for a blank one |
| LoginLimiter.OthersDoNotLock | src/libs/security/login_limiter.py:38-51 | failures of other users from other addresses alone lock nobody out |
| LoginLimiter.LockIsHistory | src/libs/security/login_limiter.py:38-51 | the lock key is up exactly when the history definition says so |
| LoginLimiter.LockIsLatestIff | src/libs/security/login_limiter.py:48-51 | with lock times that change: the lock key is up exactly while the lock time of the latest failure over the limit runs |
| LoginLimiter.NoLongerChain | src/libs/security/login_limiter.py:43-46 | no chain of failures with gaps under 60 seconds is longer than the counter |
| LoginLimiter.ChainAttained | src/libs/security/login_limiter.py:43-46 | a positive counter is the length of such a chain |
| LoginLimiter.TooManyIsCounted | src/libs/security/login_limiter.py:48-51 | the counter exceeds the limit exactly when some chain does |
| LoginLimiter.FailureAgrees | src/libs/security/login_limiter.py:38-51 | the two increments and two lock writes refine the history, for every key |
| LimiterRaces.InterleavedAsOneByOne | src/libs/security/login_limiter.py:43-58 | however the commands of simultaneous failures and clears interleave, counter and lock end as if the calls came one after another in the order of their INCR and DEL |
| LimiterRaces.OneCallIsTheLimiters | src/libs/security/login_limiter.py:43-51 | one call alone is one step of the limiter, on live, expired and missing counters |
| LimiterRaces.CallsAlone | src/libs/security/login_limiter.py:43-58 | one failure counts one more, with 60 seconds to live, and locks when over the limit; one clear deletes the counter |
| Der.Asn1Encode | src/libs/rdp/credssp.py:15-21 | the shortest definite length of section 8.1.3 of ITU-T X.690, written out octet by octet, before the contents; fails exactly when four length octets do not suffice |
| Der.DecodeContents | src/libs/rdp/credssp.py:167-178 | decoding any length form gives the contents and the octets taken, whatever follows |
| Der.DecodeShortForm | src/libs/rdp/credssp.py:174-178 | the same for the short form, contents cut short where the data end |
| Der.DecodeLongForm | src/libs/rdp/credssp.py:167-178 | with any number of length octets, also none: contents cut short where the data end, and the octets the length claims |
| Der.DecodeCutLength | src/libs/rdp/credssp.py:167-178 | length octets that are cut short count as far as they go, without contents |
| CredSsp.GetDataEncodes | src/libs/rdp/credssp.py:113-134 | what is encoded is a SEQUENCE whose contents start with the octets A0 03 02 01 02 for version 2, then the fields in order (section 2.2.1 of MS-CSSP) |
| CredSsp.ParseUndoesEncoding | src/libs/rdp/credssp.py:90-111 | for every subset of the fields, any contents and any nested length forms, decoding gives back exactly the fields |
| CredSsp.RoundTrip | src/libs/rdp/credssp.py:90-134 | decoding what `get_data` returned gives the fields of the request |
| CredSsp.OddElements | src/libs/rdp/credssp.py:95-111 | elements of an unknown tag or without an OCTET STRING are skipped, and one of a field without contents raises |
| CredSsp.PartlyWrapped | src/libs/rdp/credssp.py:181-195 | NegoData in any other wrapping: each expected layer is taken off and the last one that is not empty counts |
| CredSsp.OnlySequences | src/libs/rdp/credssp.py:76-93 | what is no SEQUENCE is refused, and no data are no fields |
| CredSsp.GetDataSucceeds | src/libs/rdp/credssp.py:113-134 | encoding succeeds with at most 80 octets more than the contents |
| CredSsp.TSRequest.FromString | src/libs/rdp/credssp.py:90-111 | the decode loop ends on every input and computes the decoding or its error |
| CredSsp.ExtractRawPubkey | src/libs/rdp/credssp.py:40-68 | for every algorithm body, key and length form exactly the key bytes of the BIT STRING (section 4.1 of RFC 5280); for any other input when it succeeds, with what, and with which error it fails |
| CredSsp.SpkiLayout | src/libs/rdp/credssp.py:44-68 | the offsets the code skips to are those of the encoding |
| Framing.ReadTpkt | src/libs/rdp/tpkt.py:15-23 | reads one frame off the front, also when its header was partly read before |
| Framing.ReadCredsspRecord | src/libs/rdp/credssp.py:217-237 | reads one record off the front, with the code's errors and leftovers |
| Framing.RecordIsConsumed | src/libs/rdp/credssp.py:217-237 | what is returned is exactly what was consumed; a TPKT frame always raises |
| Framing.RecordIs | src/libs/rdp/credssp.py:225-237 | after any whole length octets: refused above 64 KiB, incomplete when short, else the record and what follows |
| Framing.RecordFails | src/libs/rdp/credssp.py:217-231 | which error each other start gives, and what it consumes |
| Framing.TpktFramesReadBack | src/libs/rdp/tpkt.py:11-23 | a concatenation of frames reads back in order with nothing left over (section 6 of RFC 1006) |
| Framing.TpktIs | src/libs/rdp/tpkt.py:15-23 | how every stream reads as a frame, errors and leftovers included |
| Framing.RequestsReadBack | src/libs/rdp/credssp.py:217-237 | a concatenation of TSRequests reads back record by record, nothing left over, and each decodes to its fields |
| Framing.RequestedProtocolsSurvive | src/libs/rdp/x224.py:13-17 | every u32 put into a connection request comes back after framing, reading and searching |
| Framing.CrOctets | src/libs/rdp/x224.py:13-17 | the octets of a connection request |
| Framing.ExtractIs | src/libs/rdp/x224.py:67-72 | the flags of the leftmost negotiation request in any payload, 3 without one or where it is cut short |
| Streams.FramesReadBack | src/libs/rdp/tpkt.py:11-23 | frames that delimit themselves read back from their concatenation |
| ProxyProtocol.ParseV2 | src/libs/proxy_protocol/parser.py:32-62 | reads one version 2 header off the front, with the code's errors and leftovers |
| ProxyProtocol.ParseV1 | src/libs/proxy_protocol/parser.py:65-82 | succeeds if and only if a whole header within 512 octets is there, and has then consumed exactly through the first line end; a stream that ends first is incomplete, anything else a ValueError |
| ProxyProtocol.ReadProxyProtocol | src/libs/proxy_protocol/parser.py:21-29 | which of the two headers, or which error, any stream is read as |
| ProxyProtocol.V1LineIsLong | src/libs/proxy_protocol/parser.py:23-27 | a line that parses is longer than what the first read of 13 octets could have swallowed |
| ProxyProtocol.V2HeaderReadsBack | src/libs/proxy_protocol/parser.py:32-62 | every version 2 header for IPv4 or IPv6 with any trailing TLVs gives its addresses and ports and is consumed exactly |
| ProxyProtocol.V2OtherHeaders | src/libs/proxy_protocol/parser.py:38-62 | the LOCAL command gives an entry without addresses; other versions, families and short blocks raise; the header is consumed all the same |
| ProxyProtocol.V2Truncated | src/libs/proxy_protocol/parser.py:34-37 | a header that is cut short is incomplete |
| ProxyProtocol.V1LineReadsBack | src/libs/proxy_protocol/parser.py:74-82 | in any ASCII line, whatever white space separates the words, the third to sixth are the addresses and ports; fewer words and ports that are no numerals raise |
| ProxyProtocol.SplitUndoesJoin | src/libs/proxy_protocol/parser.py:75-75 | splitting a line gives its words, whatever white space stands around and between them |
| ProxyProtocol.LineEndIs | src/libs/proxy_protocol/parser.py:68-73 | the line ends at the first carriage return with a line feed |
| ProxyProtocol.V1PortsReadBack | src/libs/proxy_protocol/parser.py:79-80 | the decimal text of a port is read as that port |
| Numerals.DecimalReadsBack | src/libs/proxy_protocol/parser.py:79-80 | the decimal text of every number reads as that number |
| Numerals.ParseIntIff | src/libs/proxy_protocol/parser.py:79-80 | which words read as a number, and as which: an optional sign, then digits with single underscores between them, by position |
| Mcs.PatchCsCore | src/libs/rdp/mcs.py:13-32 | the field is reached exactly when the block is long enough and fits; at most that field changes |
| Mcs.PatchMcsClient | src/libs/rdp/mcs.py:35-51 | the leftmost core block of at least 216 octets that fits has its protocol changed from SSL to HYBRID, nothing else changes |
| Mcs.PatchMcsServer | src/libs/rdp/mcs.py:54-72 | the leftmost server core block has the client's request written, or SSL where that is unknown, nothing else changes |
| Mcs.ClientPatchLocal | src/libs/rdp/mcs.py:30-31 | the length stays and at most one octet differs, 1 becoming 2 |
| Mcs.ClientPatchIdempotent | src/libs/rdp/mcs.py:35-51 | patching a patched packet changes nothing |
| Mcs.ServerPatchIdempotent | src/libs/rdp/mcs.py:54-72 | the same for the server direction, and the length stays |
| Mcs.PatchesAreUnique | src/libs/rdp/mcs.py:35-72 | the two specifications leave one result |
| Plugins.PluginRegistry.OnSessionStart | src/services/rdp_relay/plugins/registry.py:27-32 | every plugin's state tracks the shared history of all sessions |
| Plugins.PluginRegistry.OnClientPacket | src/services/rdp_relay/plugins/registry.py:34-40 | a chunk is patched exactly when no client packet came since the latest session start, by any session, and only once however many patchers there are |
| Plugins.PluginRegistry.OnBackendPacket | src/services/rdp_relay/plugins/registry.py:42-48 | the same for the other direction |
| Plugins.TracksOneMore | src/services/rdp_relay/plugins/mcs_patch.py:16-31 | the first-packet flags and clocks are functions of the history |
| Plugins.IsIdle | src/services/rdp_relay/plugins/session_monitor.py:51-52 | idle if and only if no session had a start or packet within the limit |
| Plugins.IsDurationExceeded | src/services/rdp_relay/plugins/session_monitor.py:54-57 | exceeded if and only if every session started so far began longer ago than the limit |
| Plugins.LastStartIsLatest | src/services/rdp_relay/plugins/session_monitor.py:33-36 | the shared start clock is the latest start |
| Plugins.PatchedAtMostStarts | src/services/rdp_relay/plugins/mcs_patch.py:20-31 | over all interleavings no more chunks are patched per direction than sessions were started |
| Plugins.OverlapSkipsAPatch | src/services/rdp_relay/main.py:109-113 | with overlapping sessions a first chunk can pass unpatched |
| Relay.Pipe | src/services/rdp_relay/relay.py:29-69 | which chunks are handed on, what each becomes under the interleaved history, why the leg ends and by which exception, and that the count is the bytes written and the bytes read |
| Relay.LegEnds | src/services/rdp_relay/relay.py:43-69 | why a leg ends and what it has read by then, for any number of chunks before a set kill event, a failing or empty read, or a failing drain |
| Relay.ReasonTexts | src/services/rdp_relay/relay.py:59-68 | the text of each end |
| Relay.LengthsHold | src/services/rdp_relay/relay.py:53-58 | in every interleaving each chunk keeps its length |
| Relay.OnlyTheFirstChunk | src/services/rdp_relay/relay.py:50-58 | without overlap every chunk but the first passes unchanged, in both directions |
| Relay.OneByteAtMost | src/services/rdp_relay/relay.py:43-69 | without overlap and for any chunking the bytes to the backend are those of the client but for at most one, inside the first chunk |
| Relay.KilledIffBackAtHead | src/services/rdp_relay/relay.py:44-47 | a leg ends as killed exactly when it comes back to its loop's head after the event was set, whoever set it |
| Relay.OnlyKilledReadsKilled | src/services/rdp_relay/relay.py:59-68 | no exception's text reads as a kill to the handler |
| Relay.CollectLegs | src/services/rdp_relay/relay.py:138-154 | the totals are those of the last leg per direction, zero without one |
| Relay.TotalsOfTwoLegs | src/services/rdp_relay/relay.py:114-154 | with one leg per direction each total is that leg's count, and zero when it raised |
| RelayEnding.DecideEnding | src/services/rdp_relay/handler.py:212-224 | the loop over the texts of the legs chooses one of four ends, each if and only if its conditions on the legs, the kill key and the duration hold |
| RelayEnding.EndingIff | src/services/rdp_relay/handler.py:212-224 | over the scripts of both legs, when each of the four ends is recorded, status and reason together |
| RelayEnding.OneLegAtMost | src/services/rdp_relay/relay.py:129-138 | when nobody asks for a kill at most one leg reports one, the other having closed or raised before |
| RelayEnding.CloseRecordedAsIdle | src/services/rdp_relay/relay.py:129-138 | a run without any kill in which one leg sees the end of its stream and the connection is stored as an idle timeout |
| Quality.QualityMonitor.Append | src/services/rdp_relay/plugins/connection_quality.py:130-162 | the window is always the last 20 of all samples, or all of them |
| Quality.QualityMonitor.Sample | src/services/rdp_relay/plugins/connection_quality.py:146-186 | one sample more; every published measure from the two sockets, the jitter of the new window, the rating over the retransmissions since the last sample; nothing changes when a socket cannot be read |
| Quality.Jitter | src/services/rdp_relay/plugins/connection_quality.py:163-166 | in exact arithmetic between 0 and half of (max - min), and 0 exactly when all samples are equal |
| Quality.JitterBounds | src/services/rdp_relay/plugins/connection_quality.py:163-166 | the same bounds for the mean absolute deviation of any samples |
| Quality.DeviationIs | src/services/rdp_relay/plugins/connection_quality.py:163-166 | mean and deviation times the number of samples are the sums of the samples and of their distances |
| Quality.FirstCounts | src/services/rdp_relay/plugins/connection_quality.py:165-166 | every sample counts once, with its distance |
| Quality.RatingIsMonotone | src/services/rdp_relay/plugins/connection_quality.py:86-93 | a connection no better in any measure is never rated better |
| Quality.RatingIff | src/services/rdp_relay/plugins/connection_quality.py:86-93 | when each rating is given, if and only if |
| Settings.SettingsManager.Load | src/libs/config/settings_manager.py:49-68 | cache and rows agree from then on; the first load gives every managed row, subkey by subkey, its stored or else its YAML value and takes into the cache exactly what it wrote; later ones change no row and mirror all of them |
| Settings.SettingsManager.SeedFromYaml | src/libs/config/settings_manager.py:271-316 | every managed key's row is its seeded one, every other row stays, and the cache takes exactly the rows that were written |
| Settings.SettingsManager.Get | src/libs/config/settings_manager.py:70-80 | a stale cache is loaded first; a cached section comes out as it is, the LDAP password decrypted, and a missing one with its YAML values |
| Settings.SettingsManager.Save | src/libs/config/settings_manager.py:82-117 | row and cache entry subkey by subkey after the call: the saved values over those before, no legacy port beside a saved public one, the LDAP password only as ciphertext; cache and rows still agree |
| Settings.SyncedViews | src/libs/config/settings_manager.py:134-217 | an agreeing cache answers every modelled accessor as a fresh load of the rows would, legacy port included |
| Settings.StoredOrYaml | src/libs/config/settings_manager.py:154-217 | every modelled accessor, key by key: a stored value overrides the YAML one, but never the encryption key; only numbers count as numbers; one invalid DNS value brings back those of YAML |
| Settings.SavedSecurityIsUsed | src/libs/config/settings_manager.py:82-117 | a saved security setting is the answer from then on |
| Settings.FallbackIsYaml | src/libs/config/settings_manager.py:244-269 | which YAML value stands for which subkey |
| Settings.SaveKeepsSync | src/libs/config/settings_manager.py:90-116 | a save merges row and cache differently yet keeps them in agreement |
| Settings.SavedPortIsUsed | src/libs/config/settings_manager.py:99-115 | a saved public port is the port from then on, and the legacy one is gone |
| Settings.PasswordReadsBack | src/libs/config/settings_manager.py:84-88 | the LDAP password comes back through encryption; an empty one keeps the stored ciphertext |
| Settings.PasswordNeverStored | src/libs/config/settings_manager.py:84-88 | neither a save nor seeding puts the plain password into a row |
| Settings.SaveBeforeLoad | src/libs/config/settings_manager.py:107-116 | before the first load a save keeps agreement exactly when it overwrites the whole row |
| Settings.SeedingOnlyAdds | src/libs/config/settings_manager.py:299-313 | every fallback subkey but the LDAP password is there afterwards, and no stored subkey changes |
| Settings.SeedingIsIdempotent | src/libs/config/settings_manager.py:271-316 | seeding again changes nothing |
| Settings.FirstLoadKeepsViews | src/libs/config/settings_manager.py:164-217 | whatever rows the first load finds, seeding all of them keeps host, security parameters, lifetimes and limits, and keeps the port and the DNS settings exactly but for the rows described above |
| Settings.SeedingKeepsPort | src/libs/config/settings_manager.py:164-172 | the effective port survives seeding if and only if the row does not hold just a legacy port that differs from the YAML port |
| Settings.SeedingKeepsDns | src/libs/config/settings_manager.py:154-162 | the DNS settings survive seeding if and only if the row is not a valid one that lacks a value which YAML and model class give differently |
| Templates.BuildRdpContent | src/libs/rdp/rdp_file.py:69-97 | each of the nine system keys has its value, written out, and every other key its effective one |
| Templates.Preview | src/services/admin/routes/templates.py:201-223 | every key has its effective value: the last applicable template's by priority and row, else the default template's, else the schema's |
| Templates.AppliesIff | src/libs/rdp/rdp_file.py:81-88 | a template applies if and only if it is not the default one and has no groups or one of the caller's, compared stripped and without case |
| Templates.EffectiveWithoutTemplates | src/libs/rdp/rdp_file.py:74-80 | a key that no template defines has the first default template's value, else the schema's, each written out |
| Templates.LastOfSortedWins | src/services/admin/routes/templates.py:216-222 | the last definer in sorted order is the highest priority one, the latest row among equals |
| Templates.SortIsSorted | src/libs/rdp/rdp_file.py:82-82 | the sort gives the same rows in ascending priority |
| Templates.FoldIsEffective | src/libs/rdp/rdp_file.py:74-88 | overriding in sorted order gives every key its effective value |
| Templates.EffectiveIsUnique | src/libs/rdp/rdp_file.py:74-88 | the definition of the effective value leaves one value |
| Templates.ContentIsPreviewPlusSystem | src/libs/rdp/rdp_file.py:89-97 | what the portal builds is what the preview shows, overridden by the system values |
| Templates.OrderDoesNotMatterIff | src/libs/rdp/rdp_file.py:76-88 | every order of the rows gives the same result if and only if, key by key, the highest-priority definers agree |
| Templates.OrderDoesNotMatter | src/libs/rdp/rdp_file.py:76-88 | in particular, with distinct applicable priorities the result is the same in every row order |
| Templates.EqualPrioritiesDependOnOrder | src/libs/rdp/rdp_file.py:82-88 | in the order that ends with a highest-priority definer of a key, its value is the one that counts, so two that differ give two results |
| Templates.TemplateTable.CreateTemplate | src/services/admin/routes/templates.py:104-130 | when it fails and with which error, that nothing changes then, the new row and the demoted others, and still at most one default |
| Templates.TemplateTable.UpdateTemplate | src/services/admin/routes/templates.py:133-177 | the same for an update; only an explicit false takes the default away |
| Templates.TemplateTable.DeleteTemplate | src/services/admin/routes/templates.py:180-198 | any template but the default can go, and the default stays the same |
| Templates.GroupUuids | src/services/admin/routes/templates.py:49-56 | all identifiers in order, or an error when one is not a GUID |

## Left out

- The clock is in whole seconds and keys expire on the second; sub-second rounding of TTL is not modelled.
- Redis keys are constructors, not strings: instance and connection ids with a colon, and a connection id spelled in another form in the path of `kill_session`, are not modelled.
- PostgreSQL and Redis are always there and do not fail in the middle of an operation; a crash of the whole relay is modelled.
- Encryption is opaque (decryption undoes encryption under the same additional data), digests do not collide, and random ids are fresh.
- Columns and payload fields that no transition depends on, and the `connection_events` table.
- Within one WATCH body the clock stands still, so a TTL read and the write that uses it see one time.
- LoginLimiter.LoginLimiter.RecordFailure: it is one step in the history; `LimiterRaces` interleaves the commands of simultaneous failures and clears, for one set of limits and with a clock that stands while they overlap. A lock time of zero or less, which Redis refuses, is excluded.
- FingerprintRaces: the check is taken as switched on; switched off, every client with the token is let in.
- Tracker.ConnectionTracker.FlushPattern: the scan lists a key once; a scan that repeats a key would count it again.
- The handler before the tracker's start (token lookup, TLS, DNS, CredSSP to the target) is a point where it may raise; cookie and hint extraction, SPNEGO and NTLM are not modelled.
- Lifecycle: the reports of the two relay legs reach it as free values, so its theorems hold for all of them; `Relay` and `RelayEnding` say what the legs report. A cancellation, which only the end of the process brings, is a crash: `finish` is not run.
- relay_bidirectional: the two tasks and the kill poller are the scripts of `Relay.Pipe` and the collection of their results; that both tasks end after the abort is asyncio's business.
- Relay.Pipe: what the transport does with the bytes after `write` is not modelled.
- ProxyProtocol: addresses stay in binary for version 2 and as words for version 1; numerals and white space are ASCII, as the line is.
- LoginLimiter and Templates: `strip` and `lower` are those of ASCII text.
- Quality: rounding of the published numbers and of floating point is not modelled; the arithmetic is exact.
- Settings: one manager writes the table; hooks and publishing are not modelled, and a hook cannot change the dictionary it is given. The LDAP accessor and `get_all_for_ui` are functions of cache entries that `Settings.SyncedViews` already covers. How a DNS value is validated is a parameter of which only this is known, that a value of the class's own type passes as it is; infinite and undefined floating-point numbers do not occur.
- Templates: the order of the lines of an .rdp file and their rendering; concurrent transactions on the table, which the code does not guard beyond the unique name.
- Templates.TemplateTable.UpdateTemplate: a group named twice is a conflict, as the primary key of the bindings demands; how the ORM replaces bindings is not modelled.
- The HAProxy socket, the ACME flow, LDAP search, metrics, the connection limit, middleware and user interface: input and output or straight-line code that would only add easy members.
