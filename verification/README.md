# Ciallo, modelled and proved in Dafny

Ciallo is a small proxy in front of Minecraft Java Edition servers.  A client's first
packet, the handshake, names a host; the proxy routes the connection to that host's
backend and then either answers a status request (from a cache, from the backend, or from
a stale copy of an older answer) or forwards a login byte for byte.  Around this sit a
fail2ban-style guard, a pool of pre-dialled status connections and a health checker.

This project models those parts and proves what they promise.  `dafny verify
dfyconfig.toml` checks all of it.

| module | models |
|---|---|
| `Bits`, `Streams`, `Text`, `Wrappers` | 32-bit values, connections and readers, ASCII text, Option and Result |
| `VarInt`, `Packets`, `Utf8`, `Messages` | the wire codec of internal/mcproto |
| `BanAutomaton`, `Guard` | internal/fail2ban: one key's automaton, and the guard over all keys |
| `Cache`, `CacheLocks`, `StatusKey` | internal/cache: run one call at a time, run lock by lock, and its keys |
| `Pool`, `PoolOwnership` | internal/pool, and internal/proxy/dialer.go racing on it |
| `Health`, `HealthTraffic` | internal/health/checker.go: its automaton, and checks and requests interleaving on it |
| `Router` | host normalization, validation of hosts, and routing |
| `Pipe`, `Server` | the copy loop, and the sessions of internal/proxy/server.go |
| `LoginTrace`, `StatusTrace` | what a session does to the guard, the cache and the checker, as a value, and runs of sessions |

Code that updates state in the original is a class or a method here, with the same fields,
loops and branches, and is proved against a function on values (`Step`, `Next`, `After`,
`Decode` and so on).  What the repository promises is then proved about these functions,
over every input, every run and every interleaving.

**The environment.**  A connection is a fixed sequence of bytes to come, with a cursor,
and a sequence of bytes delivered.  A read takes any number of the bytes to come and may
fail at any point; a write delivers any prefix and reports an error if it is a proper one.
One that is marked reliable does not fail, which is how contracts say that an error has a
cause.
A `bytes.Reader` hands over everything there is and reports the end of the data even for a
read into an empty buffer.  The clock never goes back and is always after Go's zero time,
so that zero can mean "never".  Each operation takes the clock readings it makes, or makes
them itself in `Server`.

**Where the code and its documentation differ, the model follows the code.**

* README.md:90 of the repository calls the fail2ban window rolling.  The code's is fixed:
  it restarts with the first failure after it ran out (internal/fail2ban/guard.go:99-102).
  `BanAutomaton.WindowExact` says exactly which failures within one span of that length earn
  a ban, `BanAutomaton.WindowComplete` how many always do, and
  `BanAutomaton.WindowBoundTight` that fewer need not.
* README.md:86 calls `circuit_breaker_ttl` the duration of the status path's circuit
  breaker.  `Health.UnhealthyIsNotHealthy` shows that its end changes nothing: a backend is
  unhealthy exactly until enough good events in a row, whatever the time.

**Properties that do not hold of the code, and when they do.**

* A login name, and any other string that is the last thing in a packet, does not survive
  when it is empty: `Messages.LoginRoundTrip` and `Messages.StatusRoundTrip` are
  equivalences with the exact condition.
* A VarInt that was accepted need not be the encoding of its value:
  that is why packets keep their raw bytes.  `VarInt.CanonicalIffEncoding` says exactly when
  it is; `VarInt.PaddedZeroAccepted` and `VarInt.HighBitsDropped` are the two ways to fail.
* A cache entry can be lost: `CacheLocks.NewerEntryLost` is a run in which a delayed
  eviction deletes a newer entry.  No run ever serves wrong data.  `CacheLocks.SafeIff` says
  exactly when an entry is safe until it is stale or replaced: if it has a description, and
  no call under way has read an older entry of its key, or one without a description, and
  has yet to delete it.
* That the cache deletes can be seen: a fallback deletes an entry that is still fresh but
  has no description (`Cache.OrderMatters`).  `Cache.EvictionUnseenIff` says that it can be
  seen exactly if a fallback of the run finds such an entry, and `Cache.HarmlessIffUnexposed`
  reads that off the operations.  Two status sessions that overlap can do it
  (`StatusTrace.OverlapSeen`): both miss, one stores a response without a description, and
  the other's fallback deletes it.  `StatusTrace.OverlapUnseenIff` says that this is the only
  way, over every interleaving of sessions; sessions one after the other never do it
  (`StatusTrace.SessionsSeeNoEviction`).
* "Only active checks restore an unhealthy backend" does not hold of concurrent requests: a
  request that began while all was well reports whenever it is done, and its success
  restores the backend (`HealthTraffic.LateSuccess`, with the default thresholds).
  `HealthTraffic.LateSuccessIff` says exactly when that can happen: if the calls in flight on
  it, with the successes it ends with, add up to SuccessThreshold.  A request begun while the
  backend is unhealthy never reports (`HealthTraffic.AskedWhileDown`).
* Normalizing a host twice is not always the same as once (`Router.NotIdempotent`): it is
  exactly if the first pass leaves no outer space, port, brackets or trailing dot
  (`Router.TwiceIffBare`), as for every decorated spelling of a DNS name
  (`Router.NormalizedIsFixed`).

## Model

| member | source | states |
|---|---|---|
| VarInt.ReadVarInt | internal/mcproto/varint.go:14-37 | The loop of shifts and ors, over a stream that may break, returns what Decode says of the bytes to come and consumes exactly the raw bytes it reports |
| VarInt.EncodeVarInt | internal/mcproto/varint.go:44-55 | The loop of masks and shifts yields the base-128 digits of the unsigned value, least significant first |
| VarInt.DecodeExact | internal/mcproto/varint.go:14-37 | Decoding succeeds iff one of the first five bytes has a clear top bit, consumes through the first such byte, and yields the groups modulo 2^32 in two's complement |
| VarInt.DecodeEncode | internal/mcproto/varint.go:14-55 | The encoder is a right inverse of the decoder with any bytes following |
| VarInt.EncodePrefixFree | internal/mcproto/varint.go:44-55 | No encoding is a proper prefix of another |
| VarInt.EncodeShortest | internal/mcproto/varint.go:44-59 | No accepted form of a value is shorter than its encoding |
| VarInt.CanonicalIffEncoding | internal/mcproto/varint.go:14-55 | An accepted raw form is the encoding iff it has no padding group and a fifth byte is below 16 |
| VarInt.VarIntSizeBound | internal/mcproto/varint.go:57-59 | An encoding has one to five bytes |
| VarInt.PaddedZeroAccepted | internal/mcproto/varint.go:14-37 | A padded zero decodes although it is not an encoding |
| VarInt.HighBitsDropped | internal/mcproto/varint.go:21-30 | The three top payload bits of a fifth byte vanish: eight forms decode to -1 and only one of them is its encoding |
| Packets.ReadPacket | internal/mcproto/packet.go:16-49 | Over any chunking the packet read is the one the bytes decode to and its raw form is exactly what was consumed; every error is the one the bytes call for, unless the connection broke |
| Packets.WritePacket | internal/mcproto/packet.go:51-65 | Delivers a prefix of the packet's bytes, all of them if there is no error |
| Packets.DecodeNewPacket | internal/mcproto/packet.go:16-76 | A built packet followed by anything reads back as itself iff its payload fits the limit, and is else refused as too large |
| Packets.PacketLayout | internal/mcproto/packet.go:67-76 | A built packet is the length of its payload, its ID and its data, byte for byte |
| Packets.LengthsRefused | internal/mcproto/varint.go:61-69 | A negative length and one over the limit are refused, each with its own error, whatever follows |
| Packets.RawPreserved | internal/mcproto/packet.go:16-49 | For any input the raw form is the consumed prefix, payload and data are its tails, and it reads as the same packet again |
| Packets.StreamRoundTrip | internal/mcproto/packet.go:16-76 | The concatenation of any list of built packets reads back as exactly that list, leaving what follows |
| Packets.WriteForms | internal/mcproto/packet.go:51-76 | Raw, payload, or ID and data: a built packet is written as the same bytes |
| Utf8.Utf16CodeUnits | internal/mcproto/handshake.go:111-121 | The loop counts one unit per rune of the basic plane and two for any other |
| Utf8.ValidEncode | internal/mcproto/handshake.go:63-89 | Encodings of scalar values are valid UTF-8 and decode to those values |
| Utf8.ValidDecode | internal/mcproto/handshake.go:63-89 | Valid UTF-8 is the encoding of its scalar values: nothing else is accepted |
| Utf8.BytesPerUnit | internal/mcproto/handshake.go:63-89 | Valid UTF-8 has at most three bytes per UTF-16 unit |
| Utf8.UnitsAre | internal/mcproto/handshake.go:111-121 | The units of an encoded text are its scalar values, those above 0xFFFF counted twice |
| Messages.ReadString | internal/mcproto/handshake.go:63-89 | Reads exactly the string DecodeString finds, with its error order, and fails on an empty string that ends the data |
| Messages.StringRoundTrip | internal/mcproto/handshake.go:63-95 | A written string reads back iff it is UTF-8, short enough in units, and it or what follows is not empty |
| Messages.ByteCapHarmless | internal/mcproto/handshake.go:71-73 | The byte cap never refuses what the unit cap would accept |
| Messages.ParseHandshake | internal/mcproto/handshake.go:28-61 | The cursor-moving parser computes DecodeHandshake, errors included |
| Messages.HandshakeRoundTrip | internal/mcproto/handshake.go:28-61 | Parsing a built handshake gives it back iff the host is UTF-8 of at most 255 units, for every protocol, port and next state |
| Messages.HandshakeInjective | internal/mcproto/handshake.go:123-132 | Different legal handshakes are built differently |
| Messages.HandshakeSize | internal/config/config.go:13 | A legal handshake payload has at most 780 bytes, below the default limit |
| Messages.HandshakeOnTheWire | internal/mcproto/handshake.go:123-132 | The bytes of a legal handshake, whatever follows, are one packet and parse back to it |
| Messages.StringLayout | internal/mcproto/handshake.go:91-95 | A string on the wire is its length in bytes and then its bytes |
| Messages.HandshakeLayout | internal/mcproto/handshake.go:123-132 | A built handshake is packet 0 with protocol, host, the port high byte first, and next state |
| Messages.HandshakeCut | internal/mcproto/handshake.go:28-61 | Broken off behind its host it is refused for what is missing: the port, or the next state |
| Messages.HandshakeRead | internal/mcproto/handshake.go:28-61 | From those bytes it is read with port 256 * high + low iff the ID is 0 and the host is UTF-8 of at most 255 units |
| Messages.LoginRoundTrip | internal/mcproto/login.go:17-33 | A login name reads back iff it is UTF-8 of at most 16 units and name or trailing bytes are not empty |
| Messages.LoginStartRead | internal/mcproto/login.go:17-33 | A packet whose data begins with a string has that name iff its ID is 0 and the string is UTF-8 of at most 16 units, unless an empty name ends the data |
| Messages.DisconnectLayout | internal/mcproto/login.go:35-37 | The disconnect packet with a short reason, byte for byte |
| Messages.StatusRoundTrip | internal/mcproto/status.go:17-42 | A status response reads back iff it is non-empty UTF-8 of at most 32767 units, and then has at most 98305 bytes |
| Messages.StatusRead | internal/mcproto/status.go:36-42 | A packet with a string as its data has that text iff its ID is 0 and the string is non-empty UTF-8 of at most 32767 units |
| Messages.PacketIds | internal/mcproto/status.go:17-34 | What is built has ID 0, a pong ID 1 and exactly eight bytes; status is asked for with 1 and login with 2 |
| Messages.PongEchoesPing | internal/mcproto/status.go:21-34 | A built pong reads back with exactly the ping's eight bytes |
| BanAutomaton.FailureAnswersLikeAsk | internal/fail2ban/guard.go:90-109 | Recording a failure reports what asking at the same time would |
| BanAutomaton.WindowOrigin | internal/fail2ban/guard.go:98-103 | A stored count is that of all failures since one that opened the window, all within it, nothing cleared since |
| BanAutomaton.BanSound | internal/fail2ban/guard.go:70-109 | Over every run, whoever is banned has MaxFailures failures within one window, the last less than BanDuration ago, and no success or unban since |
| BanAutomaton.BannedIff | internal/fail2ban/guard.go:70-109 | A key is banned at t iff a failure that reached the threshold lies less than BanDuration back and nothing cleared the key since |
| BanAutomaton.BanHolds | internal/fail2ban/guard.go:104-108 | A ban given holds for its whole duration, further failures or not |
| BanAutomaton.WindowExact | internal/fail2ban/guard.go:90-109 | From any state without a ban on record, failures at most Window apart earn a ban iff those the stored window still takes in, with those it has counted, or else those behind it, reach MaxFailures |
| BanAutomaton.WindowComplete | internal/fail2ban/guard.go:90-109 | From any state without a ban on record, max(1, 2*MaxFailures-2) failures at most Window apart always earn a ban |
| BanAutomaton.WindowBoundTight | internal/fail2ban/guard.go:98-104 | With one failure less, 2*MaxFailures-3, there is a run without a ban |
| Guard.Guard.IsBanned | internal/fail2ban/guard.go:70-88 | Answer and new map are those of the keyed specification, the expired ban being deleted |
| Guard.Guard.RecordFailure | internal/fail2ban/guard.go:90-109 | Likewise for a failure; what it adds up to is FailuresEarnBan |
| Guard.Guard.RecordSuccess | internal/fail2ban/guard.go:111-118 | Likewise for a success, which clears the key |
| Guard.Guard.Unban | internal/fail2ban/guard.go:120-130 | Likewise for an unban, also on a disabled guard; reports whether there was an entry |
| Guard.Guard.Snapshot | internal/fail2ban/guard.go:140-161 | Lists exactly the stored keys that are banned now, each once, with its count and deadline |
| Guard.SnapshotIsBanned | internal/fail2ban/guard.go:140-161 | For an enabled guard and stored keys, being listed is what IsBanned would say |
| Guard.StoredKeys | internal/fail2ban/guard.go:163-165 | Only normalized non-empty values are ever stored |
| Guard.Projection | internal/fail2ban/guard.go:70-130 | Every run over many keys, seen from one key, is the single-key run on that key's events alone |
| Guard.AnswersAgree | internal/fail2ban/guard.go:70-109 | So is every answer |
| Guard.GuardSound | internal/fail2ban/guard.go:70-109 | A ban is sound in any run over any keys, spelled in any case or with any spaces around |
| Guard.GuardBannedIff | internal/fail2ban/guard.go:70-109 | In any such run a key is banned iff the guard acts on it and a failure that reached the threshold is in force |
| Guard.GuardComplete | internal/fail2ban/guard.go:90-109 | Enough failures of a key within one span of length Window earn a ban, whatever is done to other keys in between |
| Guard.BanHasCause | internal/fail2ban/guard.go:70-109 | Every ban has its cause among the calls themselves: MaxFailures recorded failures of the key within one window, the last recent enough, nothing clearing it since |
| Guard.FailuresEarnBan | internal/fail2ban/guard.go:90-109 | On an enabled guard, max(1, 2*MaxFailures-2) calls that record a failure of a key without a ban on record, at most Window apart and counted as calls, no success or unban of it between: one of them answers banned, and so does asking right after it |
| Guard.IgnoredIff | internal/fail2ban/guard.go:70-130 | A call does nothing, whatever is stored, iff the guard is disabled and the call no unban, or the value is white space only |
| Guard.CallsForget | internal/fail2ban/guard.go:70-130 | A success and an unban delete just their key, asking deletes it only once its ban is over |
| Guard.NormalizeFolds | internal/fail2ban/guard.go:163-165 | Values that differ in letter case or in white space around them are stored under one value, without capitals |
| Guard.DefaultsAre | internal/fail2ban/guard.go:36-57 | Options that are not positive become 5 failures, one minute, ten minutes and five seconds; the others are kept |
| Cache.StatusCache.GetFresh | internal/cache/status_cache.go:39-54 | Answers and evicts as the specification of one operation says |
| Cache.StatusCache.SetWithFallback | internal/cache/status_cache.go:60-78 | Stores data, description and both deadlines, unless the TTL is not positive; how long that lasts is GetExactly and FallbackExactly |
| Cache.StatusCache.GetFallbackWithOptions | internal/cache/status_cache.go:84-101 | Builds the fallback of a usable entry and deletes an unusable one |
| Cache.EvictionUnobservable | internal/cache/status_cache.go:39-101 | In the handlers' order every answer equals that of a map that never deletes |
| Cache.StaysRelated | internal/cache/status_cache.go:39-101 | What is missing from the cache but not from that map can serve nothing any more, and freshUntil never exceeds staleUntil |
| Cache.OrderMatters | internal/cache/status_cache.go:88-93 | Out of that order a fallback request can delete an entry that is still fresh |
| Cache.EvictionUnseenIff | internal/cache/status_cache.go:39-101 | Over a run in any order, no later question tells the cache from a map that never deletes iff no fallback found an entry fresh and without description |
| Cache.HarmlessIffUnexposed | internal/cache/status_cache.go:60-101 | None did iff at no fallback the response stored last under its key was still fresh and without description |
| Cache.HandlerOrderHarmless | internal/proxy/server.go:319-347 | The order in which a fallback follows a miss, no Set between, is one in which none does |
| Cache.GetEvictsDeadOnly | internal/cache/status_cache.go:43-51 | What a Get evicts is never usable again, neither fresh nor as a fallback |
| Cache.EvictsExactly | internal/cache/status_cache.go:39-101 | A Get evicts iff the entry is not fresh at its first reading of the clock and past its later deadline at its second; a fallback iff it is past its later deadline or without description; nothing else changes |
| Cache.GetExactly | internal/cache/status_cache.go:39-78 | Over every ordered run in the handlers' order, a Get is answered with what was stored last under its key iff less than its TTL ago |
| Cache.FallbackExactly | internal/cache/status_cache.go:60-117 | Likewise a fallback is answered with the framed document built from the description in the response stored last iff there is one and at most TTL plus any positive fallback TTL have passed |
| Cache.NoTextNoFallback | internal/cache/status_cache.go:103-117 | Behind data that is no status response there is none |
| Cache.NothingStored | internal/cache/status_cache.go:39-101 | Nor any answer where nothing was stored, or only with a TTL that is not positive |
| CacheLocks.StoredIsLatest | internal/cache/status_cache.go:39-101 | In every interleaving of the lock-granular steps, what is stored under a key is the latest Set for that key |
| CacheLocks.HitLinearizes | internal/cache/status_cache.go:39-54 | Every hit returns the data of the latest Set for its key at the moment of its read lock, unexpired then |
| CacheLocks.FallbackLinearizes | internal/cache/status_cache.go:84-101 | A fallback is built from the latest Set for its key at its read lock, not stale then |
| CacheLocks.HitProvenance | internal/cache/status_cache.go:39-78 | The bytes of a hit were handed to an earlier Set under the same key, less than one TTL before the read |
| CacheLocks.NewerEntryLost | internal/cache/status_cache.go:43-51 | A delayed eviction can lose a newer, fresh entry |
| CacheLocks.LostIff | internal/cache/status_cache.go:39-101 | Until its key is stored again an entry is gone iff a Get that found what it saw stale, or a fallback, took its deleting step; else it is unchanged |
| CacheLocks.SafeIff | internal/cache/status_cache.go:39-101 | In every state, an entry not yet stale survives every continuation until it is stale or replaced iff it has a description and no call under way threatens it |
| CacheLocks.GetAlone | internal/cache/status_cache.go:39-54 | The steps of a Get run without interruption are the sequential operation |
| CacheLocks.FallbackAlone | internal/cache/status_cache.go:84-101 | Likewise for a fallback |
| CacheLocks.SetAlone | internal/cache/status_cache.go:60-78 | Likewise for a Set |
| StatusKey.KeyInjective | internal/proxy/server.go:314 | The cache key tells apart backends, normalized hosts and protocols, if no address contains a bar |
| StatusKey.HitSameOrigin | internal/proxy/server.go:314-328 | In any interleaving of the handlers' cache calls, a hit serves a response read raw from the same backend for the same normalized host and protocol, stored less than one TTL ago |
| Pool.Pool.Get | internal/pool/pool.go:40-62 | Pops expired connections, closing them, until it finds one |
| Pool.Pool.NeedsConn | internal/pool/pool.go:64-82 | Keeps the unexpired connections, closes the others, and says whether there is room |
| Pool.Pool.Put | internal/pool/pool.go:84-103 | Adds the connection, or closes it if the pool is closed or full |
| Pool.Pool.Close | internal/pool/pool.go:105-118 | Closes every idle connection once and empties the pool for good |
| Pool.FilterInPlace | internal/pool/pool.go:70-80 | The filter that overwrites the array it iterates leaves exactly the kept connections in front |
| Pool.AlwaysSorted | internal/pool/pool.go:40-103 | In every reachable state addedAt does not decrease along an idle list |
| Pool.GetAllOrNothing | internal/pool/pool.go:46-61 | So Get returns the newest connection unexpired, or closes and drops all of them |
| Pool.FilterKeepsSuffix | internal/pool/pool.go:70-80 | So NeedsConn keeps exactly the unexpired suffix and closes each of the others once |
| Pool.NeedsExactly | internal/pool/pool.go:64-82 | A backend needs a connection iff the pool is open and fewer than MaxIdle of its idle connections are at most IdleTimeout old; exactly those are kept |
| Pool.GetExactly | internal/pool/pool.go:40-62 | Get hands out the connection added last if it is at most IdleTimeout old, else it closes all of that backend; on a closed pool it does nothing |
| Pool.PutExactly | internal/pool/pool.go:84-103 | Put makes the connection the newest of its backend iff the pool is open and there is room, else closes it |
| Pool.DefaultsAre | internal/pool/pool.go:27-38 | Options that are not positive become one connection and thirty seconds |
| PoolOwnership.OnePlaceEach | internal/proxy/dialer.go:37-72 | In every interleaving each dialled connection is in flight, idle, handed out once, or closed once |
| PoolOwnership.NeverTooManyIdle | internal/pool/pool.go:94-102 | No backend ever has more than MaxIdlePerBackend idle, however stale a refill's check |
| PoolOwnership.NothingIdleAfterClose | internal/pool/pool.go:105-118 | After Close nothing is idle and nothing becomes idle |
| PoolOwnership.StepPlaces | internal/proxy/dialer.go:37-72 | Each step moves connections between places and adds only what it dials |
| PoolOwnership.GetConserves | internal/pool/pool.go:40-62 | What Get takes from the list it returns or closes |
| PoolOwnership.NeedsConserves | internal/pool/pool.go:64-82 | What the filter drops it closes |
| PoolOwnership.PutConserves | internal/pool/pool.go:84-103 | What is put is idle or closed, not both |
| PoolOwnership.CloseConserves | internal/pool/pool.go:105-118 | What was idle is closed |
| PoolOwnership.RefillAlone | internal/proxy/dialer.go:59-72 | A refill on its own, with the pool open, room for one more and a dial that succeeds, leaves exactly one more connection idle |
| PoolOwnership.RefillWithoutRoom | internal/proxy/dialer.go:59-62 | Without room it dials nothing |
| PoolOwnership.DialStatusTakes | internal/proxy/dialer.go:37-49 | A status dial takes the newest connection if it is young enough and dials only if there is none |
| Health.BackendEntry.Fail | internal/health/checker.go:246-255 | The fields after a failure |
| Health.BackendEntry.Succeed | internal/health/checker.go:269-277 | The fields after a success |
| Health.Checker.RecordFailure | internal/health/checker.go:235-256 | Updates one backend's entry, made on first use, in place and no other |
| Health.Checker.RecordSuccess | internal/health/checker.go:258-278 | Likewise for a success |
| Health.Checker.Unhealthy | internal/health/checker.go:227-233 | Unhealthy iff enabled, known, and not healthy or with an open circuit |
| Health.Checker.CheckOnce | internal/health/checker.go:190-207 | Every backend known at the start of a round gets exactly one event, its own, with clock readings of its own: a failure if its check had an error, else a success |
| Health.CheckCounts | internal/health/checker.go:190-207 | A check with an error is one failure more of its backend, with its text and time, one without is one success more |
| Health.CountersClosedForm | internal/health/checker.go:248-273 | The consecutive counters are the lengths of the run the history ends with, the totals its counts |
| Health.TripsClosedForm | internal/health/checker.go:251-255 | CircuitTrips is the sum over maximal failure runs of max(0, length - FailureThreshold + 1) |
| Health.VerdictClosedForm | internal/health/checker.go:251-277 | Healthy is the verdict of the last run to reach its threshold, initially healthy |
| Health.CircuitIffUnhealthy | internal/health/checker.go:251-277 | Healthy holds iff CircuitOpenUntil is zero |
| Health.DeadlineClosedForm | internal/health/checker.go:251-277 | CircuitOpenUntil is CircuitBreakerTTL after the last failure that reached the threshold, zero if successes have reached theirs since |
| Health.UnhealthyExactly | internal/health/checker.go:227-233 | A backend is reported unhealthy iff the checker is enabled, knows it, and the last run of its events to reach a threshold was one of failures |
| Health.UnhealthyIsNotHealthy | internal/health/checker.go:227-233 | For an enabled checker Unhealthy is exactly not-Healthy; an open circuit implies it |
| Health.RecordProjection | internal/health/checker.go:235-278 | Whatever is recorded about all backends, each one's entry is that of its own history alone, so the closed forms hold of it |
| HealthTraffic.EntryOfHistory | internal/proxy/server.go:332-408 | So it is in every interleaving of requests and checks |
| HealthTraffic.AskedWhileDown | internal/proxy/server.go:332-347 | Over every interleaving, a request begun while its backend is unhealthy never contributes a health event |
| HealthTraffic.ReportsOnce | internal/proxy/server.go:353-399 | No request contributes more than one |
| HealthTraffic.RequestsChangeNothing | internal/proxy/server.go:332-408 | While a backend stays unhealthy its history grows by the checks and the reports of calls that were in flight on it, and nothing else |
| HealthTraffic.RecoveryOnlyByChecks | internal/health/checker.go:190-207 | With no call in flight on it, it recovers exactly with a check that completes SuccessThreshold good events in a row |
| HealthTraffic.LateSuccess | internal/proxy/server.go:394-399 | With the default thresholds one request begun in time restores it without any check |
| HealthTraffic.LateSuccessIff | internal/proxy/server.go:332-408 | It can recover without a further check iff the calls in flight on it and the successes it ends with add up to SuccessThreshold |
| Router.SpellingsNormalize | internal/mcproto/handshake.go:97-109 | Case, outer spaces, one trailing dot, a port and a NUL suffix all normalize away |
| Router.HostCaseFolds | internal/mcproto/handshake.go:97-109 | Hosts that differ only in the case of letters have one normal form, in which there is no capital |
| Router.SpellingBytes | internal/mcproto/handshake.go:97-109 | The normal form of a spelling of a DNS name is that name with 32 added to each byte from 65 to 90, and no other byte changed |
| Router.BracketedHost | internal/mcproto/handshake.go:97-109 | A bracketed address loses its brackets and the port behind them |
| Router.HostPort | internal/mcproto/handshake.go:102-103 | Any other host, the empty one too, loses the port behind it |
| Router.NormalizedIsFixed | internal/proxy/server.go:170-171 | Normalizing such a host again changes nothing |
| Router.NotIdempotent | internal/mcproto/handshake.go:97-109 | For hosts in general it may: of two trailing dots each pass takes one |
| Router.TwiceIffBare | internal/mcproto/handshake.go:97-109 | Normalizing a normalized host changes nothing iff no outer space, port, brackets or trailing dot is left on it |
| Router.ValidateHosts | internal/config/config.go:306-324 | The loop over the seen map accepts iff no normalized host is empty and none occurs twice |
| Router.StaticRouter.constructor | internal/proxy/router.go:10-24 | Fills the map by host, later routes overwriting earlier ones |
| Router.StaticRouter.Resolve | internal/proxy/router.go:26-35 | Looks up the normalized host, else the default |
| Router.RouterIsScan | internal/proxy/router.go:10-35 | For accepted routes the map agrees with a linear scan |
| Router.LaterRouteWins | internal/proxy/router.go:10-24 | One route more takes over all its hosts that are not empty, and no others |
| Router.ConfiguredHostsReachable | internal/proxy/router.go:10-35 | A configured DNS name, in any letter case and any spelling, normalized once or twice, reaches its own backend |
| Router.OrderIrrelevant | internal/proxy/router.go:10-35 | Permuting the routes changes neither their acceptance nor where any host goes |
| Pipe.CopyWithIdle | internal/proxy/pipe.go:38-60 | What was read goes to the other side byte for byte, the count is what was delivered, nothing read is dropped unless a write failed, and over connections that do not fail copying stops only at the end of the input |
| Pipe.ProxyBidirectional | internal/proxy/pipe.go:14-36 | Both directions do, with each count its own |
| Server.Server.RecordLoginFailure | internal/proxy/server.go:461-466 | Exactly one failure for the address and one for the player if known |
| Server.Server.RecordEarlyLoginFailure | internal/proxy/server.go:486-494 | Exactly those, if it is early, and none if it is late or the guard disabled |
| Server.Server.Judge | internal/proxy/server.go:287-296 | A failure iff the guard is enabled, the backend sent nothing and the session ended early; else a success, which clears both keys |
| Server.Server.Forward | internal/proxy/server.go:272-297 | The backend gets a prefix of the client's bytes, the two packets first; the count equals what the pipe delivered; nothing read is missing if reading ended first |
| Server.Server.RefusePlayer | internal/proxy/server.go:257-261 | Only a banned player gets the disconnect packet, or the front of it |
| Server.Server.LoginAs | internal/proxy/server.go:242-298 | The login behind the question about the address: its packet, the name it is judged under, the player's ban, and the guard calls of each way to end, in the order of the clock |
| Server.Server.HandleLogin | internal/proxy/server.go:232-298 | For every client, chunking and error the backend has a prefix of the client's bytes; a banned client reaches no backend; what the guard is asked and told, in the order of the clock, is exactly the session's questions and verdict; every error has its cause; once the login packet is read the name in it is the one judged, and a session that is over within EarlyDisconnect with nothing sent by the backend is a failure |
| Server.Server.NameRead | internal/proxy/server.go:245-253 | A login that got past the address and the read is judged under the name in the client's next packet, if that is packet 0 with UTF-8 of one to sixteen units |
| Server.Server.NoNameRead | internal/proxy/server.go:251-256 | It is judged under no name if the ID is not 0 or the string does not decode |
| Server.Server.BannedNameRefused | internal/proxy/server.go:251-261 | If that name's key is banned from the start of the session to its end, the session ends with the error of a banned player; HandleLogin adds that its backend gets nothing |
| LoginTrace.ReplayExtendsRun | internal/proxy/server.go:445-466 | The guard calls of a session go on the run of all calls before it |
| LoginTrace.RunGrows | internal/proxy/server.go:232-298 | A session done to what a run of sessions left makes a longer run |
| LoginTrace.RunOrdered | internal/proxy/server.go:445-466 | The calls of a run of sessions are in the order of the clock, so the theorems on runs of the guard apply to them |
| LoginTrace.RefusedForCause | internal/proxy/server.go:237-296 | Over every interleaving of the calls of sessions and of unbans, whoever is refused, by address or as a player, has a cause: at least MaxFailures different sessions that ended in failure for that route and address or player, their failures within one window, the last less than BanDuration ago, and no success or unban since |
| LoginTrace.FailuresAreFailedLogins | internal/proxy/server.go:272-296 | Each failure in an interleaving is recorded by a session that ended in failure, for its own route and its own address or player |
| LoginTrace.OneFailureEach | internal/proxy/server.go:461-466 | No session records two failures under one key |
| LoginTrace.VerdictBooked | internal/proxy/server.go:287-296 | A session that reached its backend books exactly one verdict for the address and one for the player if known, all failures or all successes |
| LoginTrace.BannedAddressRefused | internal/proxy/server.go:237-240 | An address banned from the start of a session to its end is refused |
| LoginTrace.BannedPlayerRefused | internal/proxy/server.go:257-261 | So is a player, once the name is known |
| LoginTrace.HappenedInterleaved | internal/proxy/server.go:232-298 | The runs of whole sessions are among these interleavings |
| Server.Server.HandleCachedPing | internal/proxy/server.go:524-541 | A ping is answered with a pong of its own eight bytes, or with an error if it has another length; anything else with nothing |
| Server.Server.ProxyStatusPing | internal/proxy/server.go:543-560 | The client's packet goes raw to the backend and the backend's raw to the client |
| Server.Server.TryBackend | internal/proxy/server.go:371-398 | An attempt succeeds only with a packet of the response ID, and fails with the error the backend's bytes or the connection call for |
| Server.Server.NoteHealth | internal/proxy/server.go:474-484 | One event per attempt, good iff it succeeded, on that backend alone |
| Server.Server.StatusFallback | internal/proxy/server.go:410-415 | The cache is asked for a fallback only if both caches are enabled |
| Server.Server.AnswerMiss | internal/proxy/server.go:332-408 | Behind a miss an unhealthy backend is spared and any other tried once; the client gets the response raw, or the fallback if there is one |
| Server.Server.HandleStatus | internal/proxy/server.go:300-408 | The cache operations, the health event, the bytes for the client and those for the backend of a whole status session; a hit or an unhealthy backend is never a health event, only a raw response is ever stored, and a client that sends a ping gets a pong or an error is reported |
| Server.Server.CachedAsConfigured | internal/proxy/server.go:431-443 | The cache is asked iff it is there, enabled, and not switched off for the backend; stored with the configured TTL and the fallback TTL, zero if fallbacks are off |
| Server.Server.FreshServed | internal/proxy/server.go:319-330 | A response stored last under the session's key whose TTL outlasts the session is what the client gets, and the backend is left alone |
| Server.Server.StaleServed | internal/proxy/server.go:332-393 | If it is over, and the backend is spared, unreachable or silent, the client gets the fallback of that response's description, if it has one and its fallback TTL outlasts the session |
| Server.Server.LiveServed | internal/proxy/server.go:349-408 | A response from the backend is what the client gets raw, and is stored raw where it may be; a failed attempt without fallback leaves the client without an answer and its error reported; only an unreachable or silent backend is replaced by a fallback |
| Server.Server.SparedExactly | internal/proxy/server.go:332-347 | The backend is spared iff that is configured and the last run of its events to reach a threshold was one of failures |
| Server.Server.StatusIsTraffic | internal/proxy/server.go:332-399 | With fallback-when-unhealthy on, a session past the cache is a question and at most one report of the traffic on the checker |
| Server.Server.SetIsResponse | internal/proxy/server.go:394-405 | What a session stores, under its own key and for the configured TTL, is the response it read raw from its own backend |
| Server.Server.HitFromBackend | internal/proxy/server.go:314-328 | Over any run of status sessions, the bytes of a hit are a response an earlier session read raw from the same backend, for the same normalized host and protocol, stored less than one TTL before |
| Server.Server.VisitsGrow | internal/proxy/server.go:300-408 | A session on the cache a run of sessions left makes a longer run |
| Server.Server.VisitsAreSessions | internal/proxy/server.go:319-405 | Such a run is one of those that see no eviction |
| Server.Server.HandleConn | internal/proxy/server.go:141-230 | The first packet alone decides where a connection goes; whatever it is, the backend gets a prefix of the client's bytes; status leaves the bans alone, login the cache and the health records; and it passes on what the session's own contract says of its calls, operations, event, bytes and errors |
| Server.Server.HandshakeDispatches | internal/proxy/server.go:141-230 | The bytes of a legal handshake at the front lead to the backend its host is routed to, with next state 1 to a status session, with 2 to a login, with any other to none |
| StatusTrace.OverlapUnseenIff | internal/proxy/server.go:319-415 | Over every interleaving of the cache operations of sessions, the cache answers every later question like a map that never evicts iff no session's fallback meets a response, still fresh and without description, that another stored after its own miss |
| StatusTrace.OverlapSeen | internal/proxy/server.go:319-415 | Two overlapping sessions can be such a case |
| StatusTrace.SequentialOverlap | internal/proxy/server.go:319-328 | Sessions one after the other are one interleaving, each operation that is not a Get coming right after its own |
| StatusTrace.SessionsKeepOrder | internal/proxy/server.go:319-328 | Run one after the other, status sessions ask for a fallback only after a miss of the same key with no Set between |
| StatusTrace.SessionsSeeNoEviction | internal/proxy/server.go:319-415 | With sessions one after the other, the cache answers every operation and every later question like a map that never evicts |
| StatusTrace.SessionIsTraffic | internal/proxy/server.go:332-399 | A session's question and report are steps of the traffic, and leave the entries the session leaves |
| StatusTrace.AttemptCounts | internal/proxy/server.go:474-484 | An attempt counts one success of its backend if it brought a response, else one failure; no attempt counts nothing, and no other backend is concerned |

## Left out

- JSON: extracting the description of a status document and building a fallback document are two functions handed to the cache, of which nothing is assumed; the second may fail.
- Unicode: lower-casing and trimming (guard values, hosts) act on ASCII; other bytes are left as they are.
- `net.SplitHostPort`: modelled for what can follow from a colon and brackets in a host; the address of the remote end is a parameter.
- Go's slices: stored responses are values, so copying on Get and Set, and with it aliasing of the caller's buffer, is not modelled; the pool's slices do share their arrays.
- Time: instants are unbounded integers, so an overflowing deadline is not modelled.
- Deadlines, contexts, keep-alive, the listener and its shutdown: they appear only as reads, writes and dials that fail.
- Pipe.ProxyBidirectional: its two directions touch disjoint halves of the connections and are run one after the other; that the first to end closes both is a read or write error of the other at any point, so what it promises of two directions that never fail is met by the first only.
- Server.Server.HandleConn: whole sessions, with their bytes, are run one after the other, and so are the runs of `LoginTrace.RunGrows`, `Server.Server.VisitsGrow` and `Server.Server.HitFromBackend`; what overlapping sessions do to the guard, the cache and the checker is covered call by call or step by step by `LoginTrace`, `StatusTrace`, `CacheLocks`, `StatusKey` and `HealthTraffic`.
- Health.Checker.CheckOnce: runs a round without other events in between; in `HealthTraffic` its checks are steps of their own.
- Guard.Guard.RecordFailure: the clock is read and the lock taken in one step; in the code the reading comes first (internal/fail2ban/guard.go:95).
- BanAutomaton.WindowComplete: requires no ban on record at the start, for asking about an expired ban also drops the failures counted while it lingered.
- The label of a login whose replay failed: it says that a failure was recorded whether or not the guard stored one (internal/proxy/server.go:272-283), and so does the model's.
- The dialer without a pool, and Warm: the first only dials, the second is one refill after the other, which the interleavings contain.
- Health targets, probe hosts, the probe itself, Snapshot and metrics: listing and counting of entries; the outcome of a check is a parameter.
- The rest of Validate, defaults, YAML, logging, the management server, and both command line programs: field by field checks and plumbing.
- `nil` receivers: a server without guard, cache or checker has null there; methods on a nil guard are not modelled.
- Map iteration order: Close and Snapshot are proved for every order.
