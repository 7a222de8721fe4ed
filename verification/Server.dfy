/** internal/proxy/server.go: the two kinds of sessions, login and status. */
module Server {
  import opened Wrappers
  import opened Bits
  import opened Streams
  import opened Packets
  import opened Messages
  import opened Pipe
  import B = BanAutomaton
  import G = Guard
  import C = Cache
  import H = Health
  import T = HealthTraffic
  import R = Router
  import K = StatusKey
  import V = VarInt
  import P = Packets
  import U = Utf8
  import opened LoginTrace
  import opened StatusTrace
  import Text

  datatype Options = Options(
    maxHandshakeSize: int,
    maxStatusResponseSize: int,
    statusCacheEnabled: bool,
    statusCacheTTL: int,
    motdCacheEnabled: bool,
    motdFallbackTTL: int,
    fallbackWhenUnhealthy: bool,
    fallback: C.FallbackOptions)

  // The wall clock: never set back, and after Go's zero time.
  class Clock {
    var t: int

    constructor ()
      ensures t > 0
    {
      t := 1;
    }

    method Now() returns (now: int)
      requires t > 0
      modifies this
      ensures now == t >= old(t)
    {
      var d :| d >= 0;
      t := t + d;
      now := t;
    }
  }

  function BannedMessage(): GoString {
    Text.Ascii("{\"text\":\"Temporarily banned by proxy\"}")
  }

  // A status session as a whole: whom it was for, what its backend had to send, and what
  // came of it.
  datatype Request = Request(
    b: R.Backend,
    host: GoString,
    protocol: int32,
    dialOk: bool,
    fromBackend: seq<byte>,
    served: bool,
    res: StatusResult,
    t: Trace,
    since: int,
    until: int)

  function CallerOf(v: Request): K.Caller {
    K.Caller(v.b.addr, v.host, v.protocol, v.fromBackend)
  }

  function KeyOf(v: Request): GoString {
    K.KeyOf(CallerOf(v))
  }

  function OpsOf(vs: seq<Request>): (ss: seq<seq<C.Op>>)
    ensures |ss| == |vs| && forall i :: 0 <= i < |ss| ==> ss[i] == vs[i].t.ops
  {
    seq(|vs|, i requires 0 <= i < |vs| => vs[i].t.ops)
  }

  datatype Outcome =
    | BadHandshake(e: PacketError)
    | NotAHandshake(h: HandshakeError)
    | NoRoute(host: GoString)
    | Unsupported(b: R.Backend, next: int32)
    | StatusDone(b: R.Backend, status: StatusResult)
    | LoginDone(b: R.Backend, login: LoginResult)

  const NO_STATS := PipeStats(0, 0)

  function RouteOf(b: R.Backend, host: GoString): GoString {
    if host != [] then host else if b.name != [] then b.name else b.addr
  }

  // The name under which the login start packet is judged: none if it does not parse.
  function UsernameOf(login: Packet): GoString {
    match ParseLoginStart(login)
    case Some(name) => name
    case None => []
  }

  // What a banned player may be sent: the disconnect packet, or the front of it.
  ghost predicate Told(before: seq<byte>, after: seq<byte>) {
    before <= after <= before + BuildLoginDisconnect(BannedMessage()).raw
  }

  lemma BuiltIsNotEmpty(id: int32, data: seq<byte>)
    ensures NewPacket(id, data).raw != []
  {
    hide V.Encode;
    V.VarIntSizeBound(Truncate32(|V.Encode(id) + data|));
  }

  lemma GotIsNotEmpty(s: seq<byte>, maxLen: int)
    requires DecodePacket(s, maxLen).Got?
    ensures DecodePacket(s, maxLen).p.raw != []
  {
  }

  class Server {
    const options: Options
    const router: R.StaticRouter
    const guard: G.Guard?
    const cache: C.StatusCache?
    const health: H.Checker?
    const clock: Clock
    // The text of a backend error, for the checker's records.
    const describe: BackendError -> GoString

    constructor (options: Options, router: R.StaticRouter, guard: G.Guard?, cache: C.StatusCache?, health: H.Checker?,
                 clock: Clock, describe: BackendError -> GoString)
      ensures this.options == options && this.router == router && this.guard == guard && this.clock == clock
      ensures this.cache == cache && this.health == health && this.describe == describe
    {
      this.options, this.router, this.guard, this.clock := options, router, guard, clock;
      this.cache, this.health, this.describe := cache, health, describe;
    }

    ghost function Bans(): map<G.Key, B.Entry>
      reads guard
    {
      if guard == null then map[] else guard.entries
    }

    ghost function GuardOptions(): B.Options {
      if guard == null then B.Options(false, 1, 1, 1, 1) else guard.options
    }

    // `calls` is what happened to the guard since it was `before`, at time `since`.
    ghost predicate Logged(since: int, before: map<G.Key, B.Entry>, calls: seq<G.Call>)
      reads guard, clock
    {
      && Bans() == Replay(GuardOptions(), before, calls)
      && InTime(calls, since, clock.t)
      && (guard == null ==> calls == [])
    }

    // That only the clock has moved on since.
    lemma StillLogged(since: int, before: map<G.Key, B.Entry>, calls: seq<G.Call>, was: int)
      requires InTime(calls, since, was) && was <= clock.t
      requires Bans() == Replay(GuardOptions(), before, calls) && (guard == null ==> calls == [])
      ensures Logged(since, before, calls)
    {
      InTimeLater(calls, since, was, clock.t);
    }

    method IsBanned(route: GoString, kind: GoString, value: GoString, ghost since: int,
                    ghost before: map<G.Key, B.Entry>, ghost calls0: seq<G.Call>)
      returns (banned: bool, ghost calls: seq<G.Call>)
      requires clock.t > 0 && Logged(since, before, calls0)
      modifies clock, guard
      ensures old(clock.t) <= clock.t && Logged(since, before, calls)
      ensures guard == null ==> !banned && calls == calls0
      ensures guard != null ==> calls == calls0 + [G.IsBanned(G.Key(route, kind, value), clock.t)]
      ensures guard != null ==>
        banned == G.AnswerAll(guard.options, old(guard.entries), G.IsBanned(G.Key(route, kind, value), clock.t))
      ensures guard != null ==> Asked(guard.options, before, calls, |calls0|, G.Key(route, kind, value), banned)
    {
      calls := calls0;
      if guard == null {
        return false, calls;
      }
      ghost var was := clock.t;
      var now := clock.Now();
      ghost var c := G.IsBanned(G.Key(route, kind, value), now);
      ReplayOne(guard.options, before, calls, c);
      InTimeMore(calls, since, was, c);
      banned := guard.IsBanned(route, kind, value, now);
      calls := calls + [c];
      assert calls[..|calls0|] == calls0;
    }

    method RecordFailure(route: GoString, kind: GoString, value: GoString, ghost since: int,
                         ghost before: map<G.Key, B.Entry>, ghost calls0: seq<G.Call>)
      returns (ghost calls: seq<G.Call>)
      requires clock.t > 0 && Logged(since, before, calls0)
      modifies clock, guard
      ensures old(clock.t) <= clock.t && Logged(since, before, calls)
      ensures guard == null ==> calls == calls0
      ensures guard != null ==> calls == calls0 + [G.RecordFailure(G.Key(route, kind, value), clock.t)]
    {
      calls := calls0;
      if guard != null {
        ghost var was := clock.t;
        var now := clock.Now();
        ghost var c := G.RecordFailure(G.Key(route, kind, value), now);
        ReplayOne(guard.options, before, calls, c);
        InTimeMore(calls, since, was, c);
        var banned := guard.RecordFailure(route, kind, value, now);
        calls := calls + [c];
      }
    }

    method RecordSuccess(route: GoString, kind: GoString, value: GoString, ghost since: int,
                         ghost before: map<G.Key, B.Entry>, ghost calls0: seq<G.Call>)
      returns (ghost calls: seq<G.Call>)
      requires clock.t > 0 && Logged(since, before, calls0)
      modifies clock, guard
      ensures old(clock.t) <= clock.t && Logged(since, before, calls)
      ensures guard == null ==> calls == calls0
      ensures guard != null ==> calls == calls0 + [G.RecordSuccess(G.Key(route, kind, value), clock.t)]
    {
      calls := calls0;
      if guard != null {
        ghost var was := clock.t;
        var now := clock.Now();
        ghost var c := G.RecordSuccess(G.Key(route, kind, value), now);
        ReplayOne(guard.options, before, calls, c);
        InTimeMore(calls, since, was, c);
        guard.RecordSuccess(route, kind, value, now);
        calls := calls + [c];
      }
    }

    // Failures are recorded for the address and, if known, the player.
    method RecordLoginFailure(route: GoString, ip: GoString, username: GoString, ghost since: int,
                              ghost before: map<G.Key, B.Entry>, ghost calls0: seq<G.Call>)
      returns (ghost calls: seq<G.Call>)
      requires clock.t > 0 && Logged(since, before, calls0)
      modifies clock, guard
      ensures old(clock.t) <= clock.t && Logged(since, before, calls)
      ensures calls0 <= calls
      ensures if guard == null then calls == calls0 else Followed(calls0, calls, route, ip, username, true)
    {
      calls := RecordFailure(route, IP, ip, since, before, calls0);
      if username != [] {
        calls := RecordFailure(route, PLAYER, username, since, before, calls);
      }
    }

    // A replay that failed counts as an early disconnect only while it is early: not if
    // it was late when asked, surely if it is still early at the end.
    method RecordEarlyLoginFailure(observed: int, route: GoString, ip: GoString, username: GoString, ghost since: int,
                                   ghost before: map<G.Key, B.Entry>, ghost calls0: seq<G.Call>)
      returns (ghost calls: seq<G.Call>)
      requires clock.t > 0 && Logged(since, before, calls0)
      modifies clock, guard
      ensures old(clock.t) <= clock.t && Logged(since, before, calls)
      ensures calls0 <= calls
      ensures calls != calls0 ==>
        Active() && Early(observed, old(clock.t)) && Followed(calls0, calls, route, ip, username, true)
      ensures Active() && Early(observed, clock.t) ==>
        |calls| > |calls0| && Followed(calls0, calls, route, ip, username, true)
    {
      calls := calls0;
      if guard == null || !guard.Enabled() {
        return;
      }
      ghost var was := clock.t;
      var now := clock.Now();
      StillLogged(since, before, calls, was);
      if now - observed > guard.options.earlyDisconnect {
        return;
      }
      calls := RecordLoginFailure(route, ip, username, since, before, calls);
    }

    ghost predicate Active() {
      guard != null && guard.options.enabled
    }

    ghost predicate Early(start: int, now: int) {
      now - start <= GuardOptions().earlyDisconnect
    }

    method ShouldRecordFailure(start: int, stats: PipeStats) returns (yes: bool)
      requires clock.t > 0
      modifies clock
      ensures old(clock.t) <= clock.t
      ensures yes ==> Active() && stats.backendToClient == 0 && Early(start, old(clock.t))
      ensures Active() && stats.backendToClient == 0 && Early(start, clock.t) ==> yes
    {
      if guard == null || !guard.Enabled() {
        return false;
      }
      var now := clock.Now();
      return now - start <= guard.options.earlyDisconnect && stats.backendToClient == 0;
    }

    // No trace of the key is left in the guard, if it has one that acts on the key.
    ghost predicate Cleared(route: GoString, kind: GoString, value: GoString)
      reads guard
    {
      var k := G.Key(route, kind, value);
      Active() && G.Normalize(value) != [] ==> G.Normalized(k) !in guard.entries
    }

    // The verdict on a session that reached the backend: a failure if the backend sent
    // nothing and the session ended early, else a success, which clears both keys.
    method Judge(route: GoString, ip: GoString, username: GoString, start: int, stats: PipeStats, ghost since: int,
                 ghost before: map<G.Key, B.Entry>, ghost calls0: seq<G.Call>)
      returns (action: Fail2BanAction, ghost calls: seq<G.Call>)
      requires clock.t > 0 && Logged(since, before, calls0)
      modifies clock, guard
      ensures old(clock.t) <= clock.t && Logged(since, before, calls)
      ensures action == FailureAction || action == SuccessAction
      ensures action == FailureAction ==> Active() && stats.backendToClient == 0 && Early(start, old(clock.t))
      ensures Active() && stats.backendToClient == 0 && Early(start, clock.t) ==> action == FailureAction
      ensures calls0 <= calls
      ensures if guard == null
        then calls == calls0
        else Followed(calls0, calls, route, ip, username, action == FailureAction)
      ensures action == SuccessAction ==>
        Cleared(route, IP, ip) && (username != [] ==> Cleared(route, PLAYER, username))
    {
      ghost var was := clock.t;
      var failed := ShouldRecordFailure(start, stats);
      StillLogged(since, before, calls0, was);
      if failed {
        calls := RecordLoginFailure(route, ip, username, since, before, calls0);
        return FailureAction, calls;
      }
      calls := RecordSuccess(route, IP, ip, since, before, calls0);
      if username != [] {
        calls := RecordSuccess(route, PLAYER, username, since, before, calls);
      }
      action := SuccessAction;
    }

    // Two buffered packets are written to the backend; a write error ends the attempt.
    method ReplayPackets(out: Writer, first: seq<byte>, second: seq<byte>) returns (ok: bool)
      modifies out`delivered
      requires out.delivered == []
      ensures out.delivered <= first + second
      ensures ok ==> out.delivered == first + second
      ensures out.reliable ==> ok
    {
      var n, err := out.Write(first);
      if err.Some? {
        return false;
      }
      assert first[..n] == first;
      n, err := out.Write(second);
      if err.Some? {
        return false;
      }
      assert second[..n] == second;
      return true;
    }

    // What the pipe leaves behind a replay of `replayed` bytes: exactly the reported count
    // of further bytes was delivered, and if the client stopped first, nothing that was
    // read from it is missing at the backend.
    ghost predicate Piped(client: Conn, backend: Conn, replayed: nat, stats: PipeStats, stop: Stop)
      reads client.input, backend.output
    {
      && client.input.Valid()
      && replayed + stats.clientToBackend <= client.input.pos
      && backend.output.delivered == client.input.data[..replayed + stats.clientToBackend]
      && (stop.ReadEnded? ==> backend.output.delivered == client.input.data[..client.input.pos])
      && (stop == ReadEnded(EOF) ==> backend.output.delivered == client.input.data)
    }

    // The part of handleLogin behind a successful dial: replay, pipe, and the verdict.
    method Forward(client: Conn, backend: Conn, handshake: Packet, login: Packet, route: GoString, ip: GoString,
                   username: GoString, observed: int, ghost since: int, ghost before: map<G.Key, B.Entry>,
                   ghost calls0: seq<G.Call>)
      returns (res: LoginResult, ghost calls: seq<G.Call>, ghost up: Option<Stop>)
      requires clock.t > 0 && client.input.Valid() && backend.input.Valid()
      requires client.input != backend.input && client.output != backend.output
      requires handshake.raw + login.raw == client.input.data[..client.input.pos]
      requires backend.output.delivered == [] && Logged(since, before, calls0) && observed == clock.t
      modifies client.input`pos, backend.input`pos, client.output`delivered, backend.output`delivered, clock, guard
      ensures old(clock.t) <= clock.t && client.input.Valid() && backend.input.Valid() && Logged(since, before, calls)
      ensures backend.output.delivered <= client.input.data[..client.input.pos]
      ensures res.username == username
      ensures if up.Some?
        then res.err == None && Piped(client, backend, old(client.input.pos), res.stats, up.value)
        else res == LoginResult(NO_STATS, username, FailureAction, Some(ReplayFailed))
      ensures calls0 <= calls && (guard != null ==> Booked(|calls0|, calls, route, ip, res))
      ensures if up.Some?
        then Stopped(client.input.reliable, backend.output.reliable, up.value)
        else !backend.output.reliable
      ensures Judged(GuardOptions(), clock.t - old(clock.t), |calls0|, calls, res)
      ensures up.Some? && res.action != FailureAction ==>
        && res.action == SuccessAction && Cleared(route, IP, ip)
        && (username != [] ==> Cleared(route, PLAYER, username))
    {
      hide Replay, Followed;
      up := None;
      ghost var data, here := client.input.data, client.input.pos;
      var ok := ReplayPackets(backend.output, handshake.raw, login.raw);
      if !ok {
        calls := RecordEarlyLoginFailure(observed, route, ip, username, since, before, calls0);
        assert calls[..|calls0|] == calls0;
        return LoginResult(NO_STATS, username, FailureAction, Some(ReplayFailed)), calls, up;
      }
      ghost var was := clock.t;
      var began := clock.Now();
      StillLogged(since, before, calls0, was);
      var stats;
      ghost var stop, down;
      stats, stop, down := ProxyBidirectional(client, backend);
      up := Some(stop);
      assert data[..here] + data[here..here + stats.clientToBackend] == data[..here + stats.clientToBackend];
      var action;
      action, calls := Judge(route, ip, username, began, stats, since, before, calls0);
      assert calls[..|calls0|] == calls0;
      res := LoginResult(stats, username, action, None);
    }

    // A player who is banned is told so and goes no further.
    method RefusePlayer(out: Writer, route: GoString, username: GoString, ghost since: int,
                        ghost before: map<G.Key, B.Entry>, ghost calls0: seq<G.Call>)
      returns (banned: bool, ghost calls: seq<G.Call>)
      requires clock.t > 0 && Logged(since, before, calls0)
      modifies out`delivered, clock, guard
      ensures old(clock.t) <= clock.t && Logged(since, before, calls)
      ensures username == [] || guard == null ==> !banned && calls == calls0
      ensures username != [] && guard != null ==>
        var c := G.IsBanned(G.Key(route, PLAYER, username), clock.t);
        calls == calls0 + [c] && banned == G.AnswerAll(guard.options, old(guard.entries), c)
      ensures username != [] && guard != null ==>
        Asked(guard.options, before, calls, |calls0|, G.Key(route, PLAYER, username), banned)
      ensures !banned ==> out.delivered == old(out.delivered)
      ensures banned ==> Told(old(out.delivered), out.delivered)
    {
      hide Replay, InTime, Asked, Told, G.StepAll, G.AnswerAll;
      banned, calls := false, calls0;
      if username != [] {
        banned, calls := IsBanned(route, PLAYER, username, since, before, calls0);
        if banned {
          Disconnect(out);
        }
      }
    }

    method Disconnect(out: Writer)
      modifies out`delivered
      ensures Told(old(out.delivered), out.delivered)
    {
      hide V.Encode;
      var p := BuildLoginDisconnect(BannedMessage());
      V.VarIntSizeBound(Truncate32(|p.payload|));
      var err := WritePacket(out, p);
    }

    // A login ends with an error only for its reason.
    ghost predicate Excused(err: Option<LoginError>, dialOk: bool, writer: bool, s: seq<byte>) {
      match err
      case Some(ReadLoginStart(e)) =>
        var o := DecodePacket(s, options.maxHandshakeSize);
        Interrupted(e) || (o.Bad? && o.err == e)
      case Some(DialFailed) => !dialOk
      case Some(ReplayFailed) => !writer
      case _ => true
    }

    // The client's next packet, `n` bytes long, is a login start for that name, if it parses.
    ghost predicate LoginRead(s: seq<byte>, n: nat, username: GoString) {
      var o := DecodePacket(s, options.maxHandshakeSize);
      o.Got? && n == |o.p.raw| && username == UsernameOf(o.p)
    }

    method ReadLogin(r: Reader) returns (start: Result<Packet, PacketError>, username: GoString)
      requires r.Valid()
      modifies r`pos
      ensures r.Valid() && old(r.pos) <= r.pos
      ensures start.Ok? ==>
        && LoginRead(old(r.Rest()), r.pos - old(r.pos), username)
        && start.value.raw == r.data[old(r.pos)..r.pos]
      ensures start.Err? ==> Excused(Some(ReadLoginStart(start.error)), true, true, old(r.Rest()))
    {
      hide DecodePacket, UsernameOf;
      username := [];
      start := ReadPacket(r, options.maxHandshakeSize);
      if start.Ok? {
        username := UsernameOf(start.value);
      }
    }

    // The questions are all there is.
    lemma NothingBooked(calls: seq<G.Call>, route: GoString, ip: GoString, res: LoginResult)
      requires res.err.Some? && res.err != Some(ReplayFailed)
      ensures Booked(|calls|, calls, route, ip, res)
    {
    }

    // The part of handleLogin behind the question about the address: the login start packet
    // is read, and parsed as far as it parses, the player is asked about, and the session
    // goes on to the backend.
    method LoginAs(client: Conn, backend: Conn, dialOk: bool, route: GoString, handshake: Packet, ip: GoString,
                   ghost since: int, ghost before: map<G.Key, B.Entry>, ghost calls0: seq<G.Call>)
      returns (res: LoginResult, ghost calls: seq<G.Call>, ghost replayed: nat, ghost up: Option<Stop>)
      requires clock.t > 0 && client.input.Valid() && backend.input.Valid()
      requires client.input != backend.input && client.output != backend.output
      requires handshake.raw == client.input.data[..client.input.pos]
      requires backend.output.delivered == [] && Logged(since, before, calls0)
      modifies client.input`pos, backend.input`pos, client.output`delivered, backend.output`delivered, clock, guard
      ensures old(clock.t) <= clock.t && client.input.Valid() && backend.input.Valid() && Logged(since, before, calls)
      ensures backend.output.delivered <= client.input.data[..client.input.pos]
      ensures res.err == None <==> up.Some?
      ensures up.Some? ==> Piped(client, backend, replayed, res.stats, up.value)
      ensures up.Some? ==> Stopped(client.input.reliable, backend.output.reliable, up.value)
      ensures Excused(res.err, dialOk, backend.output.reliable, old(client.input.Rest()))
      ensures res.err == None || !res.err.value.ReadLoginStart? ==>
        && old(client.input.pos) <= replayed
        && LoginRead(old(client.input.Rest()), replayed - old(client.input.pos), res.username)
      ensures calls0 <= calls
      ensures Judged(GuardOptions(), clock.t - old(clock.t), |calls0| + if res.username == [] then 0 else 1, calls, res)
      ensures guard != null && res.username != [] ==>
        Asked(guard.options, before, calls, |calls0|, G.Key(route, PLAYER, res.username), res.action == PlayerBanned)
      ensures res.action == PlayerBanned ==> guard != null && res.username != []
      ensures guard != null ==> Booked(|calls0| + if res.username == [] then 0 else 1, calls, route, ip, res)
      ensures res.action == SuccessAction ==>
        Cleared(route, IP, ip) && (res.username != [] ==> Cleared(route, PLAYER, res.username))
      ensures res.action == PlayerBanned ==> Told(old(client.output.delivered), client.output.delivered)
      ensures res.action != IpBanned && (res.err == Some(Banned) <==> res.action == PlayerBanned)
      ensures Turned(res.err) ==> backend.output.delivered == []
    {
      hide DecodePacket, LoginRead, Replay, InTime, Booked, Asked, Piped, G.StepAll, G.AnswerAll, Told;
      calls, replayed, up := calls0, 0, None;
      ghost var data, from := client.input.data, client.input.pos;
      var start, username := ReadLogin(client.input);
      if start.Err? {
        res := LoginResult(NO_STATS, [], NoAction, Some(ReadLoginStart(start.error)));
        NothingBooked(calls, route, ip, res);
        return;
      }
      replayed := client.input.pos;
      assert data[..from] + data[from..replayed] == data[..replayed];
      var banned;
      banned, calls := RefusePlayer(client.output, route, username, since, before, calls);
      if banned {
        assert guard != null && username != [];
        res := LoginResult(NO_STATS, username, PlayerBanned, Some(Banned));
        NothingBooked(calls, route, ip, res);
        return;
      }
      ghost var asked, was := calls, clock.t;
      var observed := clock.Now();
      StillLogged(since, before, calls, was);
      if !dialOk {
        res := LoginResult(NO_STATS, username, NoAction, Some(DialFailed));
        NothingBooked(calls, route, ip, res);
        return;
      }
      res, calls, up := Forward(client, backend, handshake, start.value, route, ip, username, observed, since, before,
                                calls);
      if guard != null && username != [] {
        AskedPrefix(guard.options, before, asked, calls, |calls0|, G.Key(route, PLAYER, username), false);
      }
    }

    // A login session.  Whatever the client sends, however reads are chunked and wherever
    // reads and writes fail, the backend is sent a prefix of the client's bytes, first the
    // two packets read and then what the pipe copies; a banned client reaches no backend.
    method HandleLogin(client: Conn, backend: Conn, dialOk: bool, b: R.Backend, host: GoString, handshake: Packet,
                       ip: GoString)
      returns (res: LoginResult, ghost calls: seq<G.Call>, ghost replayed: nat, ghost up: Option<Stop>)
      requires clock.t > 0 && client.input.Valid() && backend.input.Valid()
      requires client.input != backend.input && client.output != backend.output
      requires handshake.raw == client.input.data[..client.input.pos]
      requires backend.output.delivered == []
      modifies client.input`pos, backend.input`pos, client.output`delivered, backend.output`delivered, clock, guard
      ensures old(clock.t) <= clock.t && client.input.Valid() && backend.input.Valid()
      ensures Logged(old(clock.t), old(Bans()), calls)
      ensures backend.output.delivered <= client.input.data[..client.input.pos]
      ensures res.err == None <==> up.Some?
      ensures up.Some? ==> Piped(client, backend, replayed, res.stats, up.value)
      ensures up.Some? ==> Stopped(client.input.reliable, backend.output.reliable, up.value)
      ensures Excused(res.err, dialOk, backend.output.reliable, old(client.input.Rest()))
      ensures res.action != IpBanned && (res.err == None || !res.err.value.ReadLoginStart?) ==>
        && old(client.input.pos) <= replayed
        && LoginRead(old(client.input.Rest()), replayed - old(client.input.pos), res.username)
      ensures guard != null ==>
        LoginTrace.Session(guard.options, old(Bans()), old(clock.t), clock.t, Login(RouteOf(b, host), ip, res, calls))
      ensures guard != null ==>
        Judged(guard.options, clock.t - old(clock.t), if res.username == [] then 1 else 2, calls, res)
      ensures res.action == SuccessAction ==>
        && Cleared(RouteOf(b, host), IP, ip)
        && (res.username != [] ==> Cleared(RouteOf(b, host), PLAYER, res.username))
      ensures res.err == Some(Banned) <==> res.action in {IpBanned, PlayerBanned}
      ensures res.action == PlayerBanned ==> Told(old(client.output.delivered), client.output.delivered)
      ensures Turned(res.err) ==> backend.output.delivered == []
      ensures res.action == IpBanned ==>
        && client.input.pos == old(client.input.pos) && client.output.delivered == old(client.output.delivered)
        && guard != null && |calls| == 1
    {
      hide DecodePacket, LoginRead, Replay, InTime, Followed, Asked, Told, Booked, Piped, G.StepAll, G.AnswerAll;
      ReplayNone(GuardOptions(), Bans());
      NoCallsYet(clock.t);
      calls, replayed, up := [], 0, None;
      var route := RouteOf(b, host);
      ghost var before, since := Bans(), clock.t;
      var banned;
      banned, calls := IsBanned(route, IP, ip, since, before, calls);
      if banned {
        res := LoginResult(NO_STATS, [], IpBanned, Some(Banned));
        NothingBooked(calls, route, ip, res);
        return;
      }
      ghost var asked := calls;
      res, calls, replayed, up := LoginAs(client, backend, dialOk, route, handshake, ip, since, before, calls);
      if guard != null {
        AskedPrefix(guard.options, before, asked, calls, 0, G.Key(route, IP, ip), false);
      }
    }

    // Whose name a login is judged under: the one in the client's next packet, if that is
    // packet 0 with a name of at most 16 UTF-16 units at the front.
    lemma NameRead(s: seq<byte>, n: nat, username: GoString, name: GoString, trailing: seq<byte>)
      requires LoginRead(s, n, username)
      requires name != [] && U.Valid(name) && U.Units(name) <= 16 && |name| + |trailing| + 10 <= 0x7fff_ffff
      requires NewPacket(0, EncodeString(name) + trailing).raw <= s
      ensures username == name && n == |NewPacket(0, EncodeString(name) + trailing).raw|
    {
      hide U.Valid, U.Units, DecodePacket, ParseLoginStart, V.Encode;
      var data := EncodeString(name) + trailing;
      var p := NewPacket(0, data);
      var rest := s[|p.raw|..];
      assert s == p.raw + rest;
      V.VarIntSizeBound(0);
      V.VarIntSizeBound(Truncate32(|name|));
      DecodeNewPacket(0, data, options.maxHandshakeSize, rest);
      LoginStartRead(p, name, trailing);
    }

    // And it is judged under none if that is not packet 0, or has no such name.
    lemma NoNameRead(s: seq<byte>, n: nat, username: GoString)
      requires LoginRead(s, n, username)
      ensures var o := DecodePacket(s, options.maxHandshakeSize);
        o.Got? && (o.p.id != 0 || DecodeString(o.p.data, 16).NoText? ==> username == [])
    {
      hide DecodePacket, DecodeString;
    }

    // So a player whose name is banned when the session begins, until after its end, is
    // refused however the client goes on, unless the session ends before the name is read.
    // What the contract of HandleLogin adds: then nothing is sent to the backend.
    lemma BannedNameRefused(s: seq<byte>, n: nat, name: GoString, trailing: seq<byte>, before: map<G.Key, B.Entry>,
                            since: int, until: int, l: Login)
      requires guard != null && guard.options.enabled
      requires LoginTrace.Session(guard.options, before, since, until, l) && l.res.action != IpBanned
      requires LoginRead(s, n, l.res.username)
      requires U.Valid(name) && U.Units(name) <= 16 && |name| + |trailing| + 10 <= 0x7fff_ffff && !Text.Blank(name)
      requires NewPacket(0, EncodeString(name) + trailing).raw <= s
      requires var k := G.Key(l.route, [112, 108, 97, 121, 101, 114], G.Normalize(name));
        k in before && until < before[k].bannedUntil
      ensures l.res.username == name && l.res.action == PlayerBanned && l.res.err == Some(Banned)
    {
      hide U.Valid, U.Units, LoginRead, LoginTrace.Session, G.Normalize, NewPacket, EncodeString;
      NameRead(s, n, l.res.username, name, trailing);
      BannedPlayerRefused(guard.options, before, since, until, l);
    }

    lemma NoCallsYet(now: int)
      ensures InTime([], now, now)
    {
    }

    // ------------------------------------------------------------- the status session

    function StatusCacheEnabled(b: R.Backend): bool {
      if b.statusCache.Some? then options.statusCacheEnabled && b.statusCache.value else options.statusCacheEnabled
    }

    function MotdFallbackTTL(): int {
      if !options.motdCacheEnabled then 0 else options.motdFallbackTTL
    }

    // The proxy answers a ping itself, with the ping's own eight bytes.
    method HandleCachedPing(client: Conn) returns (handled: bool, err: Option<StatusError>, ghost pong: seq<byte>)
      requires client.input.Valid()
      modifies client.input`pos, client.output`delivered
      ensures client.input.Valid() && old(client.input.pos) <= client.input.pos
      ensures pong != [] ==> CachedPong(old(client.input.Rest()), options.maxHandshakeSize, pong)
      ensures Sent(old(client.output.delivered), client.output.delivered, [], pong, handled, err)
      ensures Silence(false, old(client.input.Rest()), client.input.reliable, handled, err)
      ensures client.output.reliable ==> err != Some(ClientWrite)
    {
      hide DecodePacket, NewPacket;
      pong := [];
      var ping := ReadPacket(client.input, options.maxHandshakeSize);
      if ping.Err? || ping.value.id != STATUS_PING_ID {
        return false, None, pong;
      }
      var p := BuildPong(ping.value.data);
      if p.None? {
        return false, Some(BadPing), pong;
      }
      pong := p.value.raw;
      BuiltIsNotEmpty(STATUS_PONG_ID, ping.value.data);
      var n, e := client.output.Write(p.value.raw);
      assert e == None ==> pong[..n] == pong;
      return e == None, if e == None then None else Some(ClientWrite), pong;
    }

    // If the client is left without a pong and there is no error, it sent nothing to be
    // answered: no packet, or, where the proxy itself would answer, no ping.
    ghost predicate Silence(relayed: bool, s: seq<byte>, reader: bool, handled: bool, err: Option<StatusError>) {
      var o := DecodePacket(s, options.maxHandshakeSize);
      reader && !handled && err == None ==> !o.Got? || (!relayed && o.p.id != STATUS_PING_ID)
    }

    lemma Spoken(relayed: bool, s: seq<byte>, reader: bool, err: Option<StatusError>)
      requires err.Some?
      ensures Silence(relayed, s, reader, false, err)
    {
    }

    // A stored answer goes to the client, and then its ping is answered.
    method Serve(client: Conn, body: seq<byte>) returns (handled: bool, err: Option<StatusError>, ghost pong: seq<byte>)
      requires client.input.Valid()
      modifies client.input`pos, client.output`delivered
      ensures client.input.Valid() && old(client.input.pos) <= client.input.pos
      ensures pong != [] ==> CachedPong(old(client.input.Rest()), options.maxHandshakeSize, pong)
      ensures Sent(old(client.output.delivered), client.output.delivered, body, pong, handled, err)
      ensures Silence(false, old(client.input.Rest()), client.input.reliable, handled, err)
      ensures client.output.reliable ==> err != Some(ClientWrite)
    {
      hide DecodePacket, CachedPong, Silence;
      var n, e := client.output.Write(body);
      if e.Some? {
        Spoken(false, client.input.Rest(), client.input.reliable, Some(ClientWrite));
        return false, Some(ClientWrite), [];
      }
      assert body[..n] == body;
      handled, err, pong := HandleCachedPing(client);
    }

    // The client's next packet goes to the backend and the backend's to the client, raw.
    method ProxyStatusPing(client: Conn, backend: Conn)
      returns (handled: bool, err: Option<StatusError>, ghost pong: seq<byte>)
      requires client.input.Valid() && backend.input.Valid()
      requires client.input != backend.input && client.output != backend.output
      modifies client.input`pos, client.output`delivered, backend.input`pos, backend.output`delivered
      ensures client.input.Valid() && backend.input.Valid()
      ensures old(client.input.pos) <= client.input.pos && old(backend.input.pos) <= backend.input.pos
      ensures old(backend.output.delivered) <= backend.output.delivered
        <= old(backend.output.delivered) + client.input.data[old(client.input.pos)..client.input.pos]
      ensures handled ==>
        backend.output.delivered
          == old(backend.output.delivered) + client.input.data[old(client.input.pos)..client.input.pos]
      ensures pong != [] ==> pong == backend.input.data[old(backend.input.pos)..backend.input.pos]
      ensures Sent(old(client.output.delivered), client.output.delivered, [], pong, handled, err)
      ensures Silence(true, old(client.input.Rest()), client.input.reliable, handled, err)
      ensures client.output.reliable ==> err != Some(ClientWrite)
      ensures err == None && !handled ==>
        backend.input.pos == old(backend.input.pos) && backend.output.delivered == old(backend.output.delivered)
    {
      hide DecodePacket;
      pong := [];
      var ping := ReadPacket(client.input, options.maxHandshakeSize);
      if ping.Err? {
        return false, None, pong;
      }
      ghost var sent, was := ping.value.raw, backend.output.delivered;
      assert sent == client.input.data[old(client.input.pos)..client.input.pos];
      var n, e := backend.output.Write(ping.value.raw);
      if e.Some? {
        assert was + sent[..n] <= was + sent;
        return false, Some(PingRelay), pong;
      }
      assert sent[..n] == sent;
      handled, err, pong := RelayPong(client.output, backend.input);
    }

    method RelayPong(out: Writer, from: Reader) returns (handled: bool, err: Option<StatusError>, ghost pong: seq<byte>)
      requires from.Valid()
      modifies out`delivered, from`pos
      ensures from.Valid() && old(from.pos) <= from.pos
      ensures pong != [] ==> pong == from.data[old(from.pos)..from.pos]
      ensures Sent(old(out.delivered), out.delivered, [], pong, handled, err)
      ensures handled || err.Some?
      ensures out.reliable ==> err != Some(ClientWrite)
    {
      hide DecodePacket;
      pong := [];
      ghost var s := from.Rest();
      var p := ReadPacket(from, options.maxHandshakeSize);
      if p.Err? {
        return false, Some(PingRelay), pong;
      }
      GotIsNotEmpty(s, options.maxHandshakeSize);
      pong := p.value.raw;
      var n, e := out.Write(p.value.raw);
      assert e == None ==> pong[..n] == pong;
      return e == None, if e == None then None else Some(ClientWrite), pong;
    }

    // The two packets of the client are replayed to the backend and its response is read.
    method TryBackend(backend: Conn, dialOk: bool, first: seq<byte>, second: seq<byte>)
      returns (a: Result<Packet, BackendError>)
      requires backend.input.Valid() && backend.output.delivered == []
      modifies backend.input`pos, backend.output`delivered
      ensures backend.input.Valid() && old(backend.input.pos) <= backend.input.pos
      ensures Attempted(a, dialOk, old(backend.input.Rest()), options.maxStatusResponseSize)
      ensures backend.output.delivered <= first + second
      ensures a == Err(Unreachable) ==> backend.output.delivered == []
      ensures backend.output.reliable ==> a != Err(NotReplayed)
      ensures a == Err(Unreachable) || a == Err(NotReplayed) ==> backend.input.pos == old(backend.input.pos)
      ensures a.Ok? ==>
        && backend.output.delivered == first + second
        && a.value.raw == backend.input.data[old(backend.input.pos)..backend.input.pos]
    {
      hide DecodePacket;
      if !dialOk {
        return Err(Unreachable);
      }
      var ok := ReplayPackets(backend.output, first, second);
      if !ok {
        return Err(NotReplayed);
      }
      var response := ReadPacket(backend.input, options.maxStatusResponseSize);
      if response.Err? {
        return Err(NoResponse(response.error));
      }
      if response.value.id != STATUS_RESPONSE_ID {
        return Err(UnexpectedResponse(response.value.id));
      }
      a := Ok(response.value);
    }

    // -------------------------------------------------------------- health and cache

    ghost function HealthRecords(): set<H.BackendEntry>
      reads health
    {
      if health == null then {} else health.Records()
    }

    ghost predicate HealthValid()
      reads health
    {
      health != null ==> health.Valid()
    }

    ghost function HealthMap(): map<H.Addr, H.Entry>
      reads health, HealthRecords()
    {
      if health == null then map[] else health.Abs()
    }

    ghost function HealthOptions(): H.Options {
      if health == null then H.Options(false, 1, 1, 1) else health.options
    }

    // Exactly one event for an attempt, good exactly if it brought a response.
    method NoteHealth(addr: GoString, a: Result<Packet, BackendError>) returns (ghost ev: Option<H.Event>)
      requires clock.t > 0 && HealthValid()
      modifies clock, health, HealthRecords()
      ensures old(clock.t) <= clock.t && HealthValid() && fresh(HealthRecords() - old(HealthRecords()))
      ensures health == null ==> ev == None
      ensures health != null ==> Reported(Some(a), ev)
      ensures ev.Some? ==> T.Timely(old(clock.t), ev.value) && T.EndOf(ev.value) <= clock.t
      ensures HealthMap() == AfterEvent(HealthOptions(), old(HealthMap()), addr, ev)
    {
      ev := None;
      if health != null {
        var at := clock.Now();
        match a {
          case Ok(_) =>
            health.RecordSuccess(addr, at);
            ev := Some(H.Good(at));
          case Err(e) =>
            var pauseAt := clock.Now();
            health.RecordFailure(addr, describe(e), at, pauseAt);
            ev := Some(H.Bad(at, pauseAt, describe(e)));
        }
      }
    }

    ghost function Cached(): C.Table
      reads cache
    {
      if cache == null then map[] else cache.entries
    }

    method Lookup(key: GoString) returns (data: Option<seq<byte>>, ghost op: C.Op)
      requires clock.t > 0 && cache != null
      modifies clock, cache
      ensures op.Get? && op.key == key && old(clock.t) <= op.at <= op.evictAt <= clock.t
      ensures data == C.Answer(cache.json, old(Cached()), op)
      ensures Cached() == C.Step(cache.json, old(Cached()), op)
    {
      hide C.Answer, C.Step;
      var at := clock.Now();
      var evictAt := clock.Now();
      data := cache.GetFresh(key, at, evictAt);
      op := C.Get(key, at, evictAt);
    }

    // The operations on the cache behind a miss: one or none.
    ghost predicate Behind(before: C.Table, key: GoString, from: int, ops: seq<C.Op>)
      reads cache, clock
    {
      if ops == [] then Cached() == before && from <= clock.t
      else
        && cache != null && |ops| == 1 && !ops[0].Get? && ops[0].key == key
        && from <= ops[0].at <= clock.t
        && Cached() == C.Step(cache.json, before, ops[0])
    }

    method StatusFallback(key: GoString, protocol: int32, cacheEnabled: bool)
      returns (data: Option<seq<byte>>, ghost ops: seq<C.Op>)
      requires clock.t > 0
      modifies clock, cache
      ensures Behind(old(Cached()), key, old(clock.t), ops)
      ensures data.Some? ==> ops != []
      ensures ops != [] ==>
        && ops[0] == C.Fallback(key, ops[0].at, protocol, options.fallback)
        && data == C.Answer(cache.json, old(Cached()), ops[0])
      ensures ops != [] <==> cacheEnabled && options.motdCacheEnabled && cache != null
    {
      hide C.Answer, C.Step;
      if !cacheEnabled || !options.motdCacheEnabled || cache == null {
        return None, [];
      }
      var now := clock.Now();
      data := cache.GetFallbackWithOptions(key, protocol, options.fallback, now);
      ops := [C.Fallback(key, now, protocol, options.fallback)];
    }

    method Store(key: GoString, raw: seq<byte>, cacheEnabled: bool) returns (ghost ops: seq<C.Op>)
      requires clock.t > 0
      modifies clock, cache
      ensures Behind(old(Cached()), key, old(clock.t), ops)
      ensures ops != [] <==> cacheEnabled && cache != null
      ensures ops != [] ==> ops[0] == C.Set(key, ops[0].at, raw, options.statusCacheTTL, MotdFallbackTTL())
    {
      hide C.Step;
      ops := [];
      if cacheEnabled && cache != null {
        var now := clock.Now();
        cache.SetWithFallback(key, raw, options.statusCacheTTL, MotdFallbackTTL(), now);
        ops := [C.Set(key, now, raw, options.statusCacheTTL, MotdFallbackTTL())];
      }
    }

    // The fallback the cache may have, or the error.
    method Fallback(client: Conn, key: GoString, protocol: int32, cacheEnabled: bool, was: CacheResult,
                    otherwise: StatusError)
      returns (res: StatusResult, ghost ops: seq<C.Op>, ghost body: seq<byte>, ghost pong: seq<byte>)
      requires client.input.Valid() && clock.t > 0
      modifies client.input`pos, client.output`delivered, clock, cache
      ensures client.input.Valid() && old(client.input.pos) <= client.input.pos
      ensures Behind(old(Cached()), key, old(clock.t), ops)
      ensures FallbackOutcome(res, key, protocol, cacheEnabled, was, otherwise, old(Cached()), ops, body)
      ensures Silence(false, old(client.input.Rest()), client.input.reliable, res.pongHandled, res.err)
      ensures client.output.reliable && otherwise != ClientWrite ==> res.err != Some(ClientWrite)
      ensures pong != [] ==> CachedPong(old(client.input.Rest()), options.maxHandshakeSize, pong)
      ensures Sent(old(client.output.delivered), client.output.delivered, body, pong, res.pongHandled, res.err)
    {
      hide C.Answer, C.Step, CachedPong, Silence;
      body, pong := [], [];
      var data;
      data, ops := StatusFallback(key, protocol, cacheEnabled);
      if data.None? {
        Spoken(false, client.input.Rest(), client.input.reliable, Some(otherwise));
        return StatusResult(was, false, false, Some(otherwise)), ops, body, pong;
      }
      body := data.value;
      var handled, err;
      handled, err, pong := Serve(client, data.value);
      res := StatusResult(FallbackHit, true, handled, err);
    }

    // A fallback is used exactly if the cache, asked where it may be, has one.
    ghost predicate FallbackOutcome(res: StatusResult, key: GoString, protocol: int32, cacheEnabled: bool,
                                    was: CacheResult, otherwise: StatusError, before: C.Table, ops: seq<C.Op>,
                                    body: seq<byte>) {
      && (ops != [] <==> cacheEnabled && options.motdCacheEnabled && cache != null)
      && (ops != [] ==> ops[0] == C.Fallback(key, ops[0].at, protocol, options.fallback))
      && if ops != [] && C.Answer(cache.json, before, ops[0]).Some?
         then res.fallbackUsed && res.cacheResult == FallbackHit && C.Answer(cache.json, before, ops[0]) == Some(body)
         else res == StatusResult(was, false, false, Some(otherwise)) && body == []
    }

    // A good response goes to the client raw, into the cache, and the ping is relayed.
    method Relay(client: Conn, backend: Conn, key: GoString, p: Packet, cacheEnabled: bool)
      returns (handled: bool, err: Option<StatusError>, ghost ops: seq<C.Op>, ghost pong: seq<byte>)
      requires client.input.Valid() && backend.input.Valid() && clock.t > 0
      requires client.input != backend.input && client.output != backend.output
      modifies client.input`pos, client.output`delivered, backend.input`pos, backend.output`delivered, clock, cache
      ensures client.input.Valid() && backend.input.Valid()
      ensures old(client.input.pos) <= client.input.pos && old(backend.input.pos) <= backend.input.pos
      ensures Behind(old(Cached()), key, old(clock.t), ops)
      ensures Stored(key, p.raw, cacheEnabled, err, ops)
      ensures Silence(true, old(client.input.Rest()), client.input.reliable, handled, err)
      ensures client.output.reliable ==> err != Some(ClientWrite)
      ensures pong != [] ==> pong == backend.input.data[old(backend.input.pos)..backend.input.pos]
      ensures Sent(old(client.output.delivered), client.output.delivered, p.raw, pong, handled, err)
      ensures backend.output.delivered
        <= old(backend.output.delivered) + client.input.data[old(client.input.pos)..client.input.pos]
    {
      hide C.Step, Silence;
      ops, pong := [], [];
      ghost var raw := p.raw;
      var n, e := client.output.Write(p.raw);
      if e.Some? {
        Spoken(true, client.input.Rest(), client.input.reliable, Some(ClientWrite));
        return false, Some(ClientWrite), ops, pong;
      }
      assert raw[..n] == raw;
      ops := Store(key, p.raw, cacheEnabled);
      handled, err, pong := ProxyStatusPing(client, backend);
    }

    // The response is stored where it may be, unless the client was gone by then.
    ghost predicate Stored(key: GoString, raw: seq<byte>, cacheEnabled: bool, err: Option<StatusError>,
                           ops: seq<C.Op>) {
      && (ops == [] ==> !cacheEnabled || cache == null || err == Some(ClientWrite))
      && (ops != [] ==>
            && cacheEnabled && cache != null
            && ops[0] == C.Set(key, ops[0].at, raw, options.statusCacheTTL, MotdFallbackTTL()))
    }

    // The answer is the checker's at the time it is asked.
    ghost predicate Spared(before: map<H.Addr, H.Entry>, addr: GoString, at: int) {
      options.fallbackWhenUnhealthy && H.IsUnhealthy(HealthOptions(), before, addr, at)
    }

    method BackendUnhealthy(addr: GoString) returns (yes: bool, ghost at: int)
      requires clock.t > 0 && HealthValid()
      modifies clock
      ensures old(clock.t) <= at <= clock.t
      ensures yes <==> Spared(HealthMap(), addr, at)
    {
      at := clock.t;
      if !options.fallbackWhenUnhealthy || health == null {
        return false, at;
      }
      var now := clock.Now();
      at := now;
      yes := health.Unhealthy(addr, now);
    }

    // What the client is answered if the cache has no fresh response.
    ghost predicate MissOutcome(res: StatusResult, t: Trace, key: GoString, protocol: int32, cacheEnabled: bool,
                                was: CacheResult, before: C.Table) {
      match t.attempt
      case None => FallbackOutcome(res, key, protocol, cacheEnabled, was, Unavailable, before, t.ops, t.body)
      case Some(Ok(p)) =>
        && !res.fallbackUsed && res.cacheResult == was && t.body == p.raw
        && Stored(key, p.raw, cacheEnabled, res.err, t.ops)
      case Some(Err(e)) =>
        if e.Unreachable? || e.NoResponse?
        then FallbackOutcome(res, key, protocol, cacheEnabled, was, BackendFailed(e), before, t.ops, t.body)
        else res == StatusResult(was, false, false, Some(BackendFailed(e))) && t.ops == [] && t.body == []
    }

    // The pong, if there is one: the backend's own, right behind its response, or one made
    // of the client's ping.
    ghost predicate PongOrigin(t: Trace, fromClient: seq<byte>, fromBackend: seq<byte>) {
      if Relayed(t)
      then t.body <= fromBackend && (t.pong != [] ==> t.body + t.pong == fromBackend)
      else t.pong != [] ==> CachedPong(fromClient, options.maxHandshakeSize, t.pong)
    }

    // The client's next packet goes to the backend, not to the proxy.
    predicate Relayed(t: Trace) {
      t.attempt.Some? && t.attempt.value.Ok?
    }

    // The client's answer, once it is known what the attempt on the backend came to.
    method AnswerAttempt(client: Conn, backend: Conn, a: Result<Packet, BackendError>, ghost askedAt: int,
                         ghost ev: Option<H.Event>, key: GoString, protocol: int32, cacheEnabled: bool,
                         was: CacheResult)
      returns (res: StatusResult, ghost t: Trace)
      requires client.input.Valid() && backend.input.Valid() && clock.t > 0
      requires client.input != backend.input && client.output != backend.output
      modifies client.input`pos, client.output`delivered, backend.input`pos, backend.output`delivered, clock, cache
      ensures client.input.Valid() && backend.input.Valid()
      ensures old(client.input.pos) <= client.input.pos && old(backend.input.pos) <= backend.input.pos
      ensures Behind(old(Cached()), key, old(clock.t), t.ops)
      ensures t.attempt == Some(a) && t.event == ev && t.askedAt == askedAt
      ensures Silence(Relayed(t), old(client.input.Rest()), client.input.reliable, res.pongHandled, res.err)
      ensures client.output.reliable ==> res.err != Some(ClientWrite)
      ensures MissOutcome(res, t, key, protocol, cacheEnabled, was, old(Cached()))
      ensures if a.Ok?
        then t.pong != [] ==> t.pong == backend.input.data[old(backend.input.pos)..backend.input.pos]
        else t.pong != [] ==> CachedPong(old(client.input.Rest()), options.maxHandshakeSize, t.pong)
      ensures Sent(old(client.output.delivered), client.output.delivered, t.body, t.pong, res.pongHandled, res.err)
      ensures a.Err? ==> backend.output.delivered == old(backend.output.delivered)
      ensures backend.output.delivered
        <= old(backend.output.delivered) + client.input.data[old(client.input.pos)..client.input.pos]
    {
      hide C.Answer, C.Step, CachedPong, Silence, FallbackOutcome, Stored, Behind, Sent;
      ghost var ops, body, pong := [], [], [];
      match a {
        case Ok(p) =>
          var handled, err;
          handled, err, ops, pong := Relay(client, backend, key, p, cacheEnabled);
          res, body := StatusResult(was, false, handled, err), p.raw;
        case Err(e) =>
          if e.Unreachable? || e.NoResponse? {
            res, ops, body, pong := Fallback(client, key, protocol, cacheEnabled, was, BackendFailed(e));
          } else {
            res := StatusResult(was, false, false, Some(BackendFailed(e)));
            Nothing(key, client.output.delivered, res.err);
            Spoken(false, client.input.Rest(), client.input.reliable, res.err);
          }
      }
      t := Trace(ops, askedAt, Some(a), ev, body, pong);
    }

    // Nothing sent, nothing asked of the cache.
    lemma Nothing(key: GoString, delivered: seq<byte>, err: Option<StatusError>)
      requires err.Some?
      ensures Behind(Cached(), key, clock.t, [])
      ensures Sent(delivered, delivered, [], [], false, err)
    {
    }

    lemma LongerBound(sent: seq<byte>, all: seq<byte>, more: seq<byte>)
      requires sent <= all
      ensures sent <= all + more
    {
    }

    lemma SinceEarlier(before: C.Table, key: GoString, from: int, earlier: int, ops: seq<C.Op>)
      requires Behind(before, key, from, ops) && earlier <= from
      ensures Behind(before, key, earlier, ops) && from <= clock.t
    {
    }

    // The response and the pong behind it are the next bytes of the backend.
    lemma BodyAndPong(res: StatusResult, t: Trace, key: GoString, protocol: int32, cacheEnabled: bool,
                      was: CacheResult, before: C.Table, fromClient: seq<byte>, data: seq<byte>, from: nat, here: nat,
                      to: nat)
      requires from <= here <= to <= |data|
      requires t.attempt.Some? && t.attempt.value.Ok? && t.attempt.value.value.raw == data[from..here]
      requires t.pong != [] ==> t.pong == data[here..to]
      requires MissOutcome(res, t, key, protocol, cacheEnabled, was, before)
      ensures PongOrigin(t, fromClient, data[from..to])
    {
      hide Stored, CachedPong;
      assert data[from..here] + data[here..to] == data[from..to];
    }

    lemma PongOfPing(t: Trace, fromClient: seq<byte>, fromBackend: seq<byte>)
      requires t.attempt.Some? ==> t.attempt.value.Err?
      requires t.pong != [] ==> CachedPong(fromClient, options.maxHandshakeSize, t.pong)
      ensures PongOrigin(t, fromClient, fromBackend)
    {
    }

    // The backend is tried, and its health noted.
    method TryAndNote(backend: Conn, dialOk: bool, addr: GoString, first: seq<byte>, second: seq<byte>)
      returns (a: Result<Packet, BackendError>, ghost ev: Option<H.Event>)
      requires backend.input.Valid() && backend.output.delivered == [] && clock.t > 0 && HealthValid()
      modifies backend.input`pos, backend.output`delivered, clock, health, HealthRecords()
      ensures backend.input.Valid() && old(backend.input.pos) <= backend.input.pos
      ensures old(clock.t) <= clock.t && HealthValid() && fresh(HealthRecords() - old(HealthRecords()))
      ensures HealthMap() == AfterEvent(HealthOptions(), old(HealthMap()), addr, ev)
      ensures if health == null then ev == None else Reported(Some(a), ev)
      ensures ev.Some? ==> T.Timely(old(clock.t), ev.value) && T.EndOf(ev.value) <= clock.t
      ensures Attempted(a, dialOk, old(backend.input.Rest()), options.maxStatusResponseSize)
      ensures backend.output.delivered <= first + second
      ensures backend.output.reliable ==> a != Err(NotReplayed)
      ensures a.Ok? ==>
        && backend.output.delivered == first + second
        && a.value.raw == backend.input.data[old(backend.input.pos)..backend.input.pos]
    {
      hide DecodePacket, Attempted, AfterEvent, Reported, HealthMap, HealthValid;
      a := TryBackend(backend, dialOk, first, second);
      ev := NoteHealth(addr, a);
    }

    // The backend is tried, and its health noted, before the client is answered.
    method AnswerLive(client: Conn, backend: Conn, dialOk: bool, addr: GoString, ghost askedAt: int, first: seq<byte>,
                      second: seq<byte>, key: GoString, protocol: int32, cacheEnabled: bool, was: CacheResult)
      returns (res: StatusResult, ghost t: Trace)
      requires client.input.Valid() && backend.input.Valid() && clock.t > 0 && HealthValid()
      requires client.input != backend.input && client.output != backend.output && backend.output.delivered == []
      modifies client.input`pos, client.output`delivered, backend.input`pos, backend.output`delivered, clock, cache,
        health, HealthRecords()
      ensures client.input.Valid() && backend.input.Valid() && HealthValid()
      ensures fresh(HealthRecords() - old(HealthRecords()))
      ensures old(client.input.pos) <= client.input.pos && old(backend.input.pos) <= backend.input.pos
      ensures Behind(old(Cached()), key, old(clock.t), t.ops)
      ensures HealthMap() == AfterEvent(HealthOptions(), old(HealthMap()), addr, t.event)
      ensures if health == null then t.event == None else Reported(t.attempt, t.event)
      ensures t.askedAt == askedAt
      ensures t.event.Some? ==> T.Timely(old(clock.t), t.event.value) && T.EndOf(t.event.value) <= clock.t
      ensures t.attempt.Some?
      ensures Attempted(t.attempt.value, dialOk, old(backend.input.Rest()), options.maxStatusResponseSize)
      ensures MissOutcome(res, t, key, protocol, cacheEnabled, was, old(Cached()))
      ensures Silence(Relayed(t), old(client.input.Rest()), client.input.reliable, res.pongHandled, res.err)
      ensures client.output.reliable ==> res.err != Some(ClientWrite)
      ensures backend.output.reliable ==> t.attempt != Some(Err(NotReplayed))
      ensures PongOrigin(t, old(client.input.Rest()), backend.input.data[old(backend.input.pos)..backend.input.pos])
      ensures Sent(old(client.output.delivered), client.output.delivered, t.body, t.pong, res.pongHandled, res.err)
      ensures backend.output.delivered <= first + second + client.input.data[old(client.input.pos)..client.input.pos]
    {
      hide C.Answer, C.Step, CachedPong, DecodePacket, Attempted, FallbackOutcome, Stored, MissOutcome, PongOrigin,
        Silence, AfterEvent, Sent, Reported, HealthMap, HealthValid, Behind, Cached;
      ghost var data, from := backend.input.data, backend.input.pos;
      var a;
      ghost var ev;
      a, ev := TryAndNote(backend, dialOk, addr, first, second);
      ghost var here := backend.input.pos;
      ghost var sent, before, noted := backend.output.delivered, Cached(), clock.t;
      res, t := AnswerAttempt(client, backend, a, askedAt, ev, key, protocol, cacheEnabled, was);
      SinceEarlier(before, key, noted, old(clock.t), t.ops);
      if a.Ok? {
        BodyAndPong(res, t, key, protocol, cacheEnabled, was, before, old(client.input.Rest()), data, from, here,
                    backend.input.pos);
      } else {
        PongOfPing(t, old(client.input.Rest()), data[from..backend.input.pos]);
        LongerBound(sent, first + second, client.input.data[old(client.input.pos)..client.input.pos]);
      }
    }

    // What a session that asked the checker does with the backend: it spares it exactly if
    // it was unhealthy then, and else tries it.
    ghost predicate Tried(t: Trace, dialOk: bool, addr: GoString, s: seq<byte>, before: map<H.Addr, H.Entry>) {
      && (t.attempt == None <==> Spared(before, addr, t.askedAt))
      && (t.attempt.Some? ==> Attempted(t.attempt.value, dialOk, s, options.maxStatusResponseSize))
    }

    // It asks first and reports then.
    ghost predicate Punctual(t: Trace, from: int, until: int) {
      && from <= t.askedAt <= until
      && (t.event.Some? ==> T.Timely(t.askedAt, t.event.value) && T.EndOf(t.event.value) <= until)
    }

    // No fresh response is cached: an unhealthy backend is spared, any other is tried.
    method AnswerMiss(client: Conn, backend: Conn, dialOk: bool, addr: GoString, first: seq<byte>, second: seq<byte>,
                      key: GoString, protocol: int32, cacheEnabled: bool, was: CacheResult)
      returns (res: StatusResult, ghost t: Trace)
      requires client.input.Valid() && backend.input.Valid() && clock.t > 0 && HealthValid()
      requires client.input != backend.input && client.output != backend.output && backend.output.delivered == []
      modifies client.input`pos, client.output`delivered, backend.input`pos, backend.output`delivered, clock, cache,
        health, HealthRecords()
      ensures client.input.Valid() && backend.input.Valid() && HealthValid()
      ensures fresh(HealthRecords() - old(HealthRecords()))
      ensures old(client.input.pos) <= client.input.pos && old(backend.input.pos) <= backend.input.pos
      ensures Behind(old(Cached()), key, old(clock.t), t.ops)
      ensures HealthMap() == AfterEvent(HealthOptions(), old(HealthMap()), addr, t.event)
      ensures if health == null then t.event == None else Reported(t.attempt, t.event)
      ensures Tried(t, dialOk, addr, old(backend.input.Rest()), old(HealthMap()))
      ensures Punctual(t, old(clock.t), clock.t)
      ensures t.attempt == None ==> backend.output.delivered == [] && backend.input.pos == old(backend.input.pos)
      ensures MissOutcome(res, t, key, protocol, cacheEnabled, was, old(Cached()))
      ensures Silence(Relayed(t), old(client.input.Rest()), client.input.reliable, res.pongHandled, res.err)
      ensures client.output.reliable ==> res.err != Some(ClientWrite)
      ensures backend.output.reliable ==> t.attempt != Some(Err(NotReplayed))
      ensures PongOrigin(t, old(client.input.Rest()), backend.input.data[old(backend.input.pos)..backend.input.pos])
      ensures Sent(old(client.output.delivered), client.output.delivered, t.body, t.pong, res.pongHandled, res.err)
      ensures backend.output.delivered <= first + second + client.input.data[old(client.input.pos)..client.input.pos]
    {
      hide C.Answer, C.Step, CachedPong, DecodePacket, Attempted, FallbackOutcome, Stored, Sent, Silence, HealthValid,
        HealthMap, Behind, Cached;
      ghost var before, start := Cached(), clock.t;
      var unhealthy;
      ghost var askedAt;
      unhealthy, askedAt := BackendUnhealthy(addr);
      ghost var now := clock.t;
      if unhealthy {
        ghost var ops, body, pong;
        res, ops, body, pong := Fallback(client, key, protocol, cacheEnabled, was, Unavailable);
        t := Trace(ops, askedAt, None, None, body, pong);
      } else {
        res, t := AnswerLive(client, backend, dialOk, addr, askedAt, first, second, key, protocol, cacheEnabled, was);
      }
      SinceEarlier(before, key, now, start, t.ops);
    }

    // The session's operations on the cache, all of them on its one key.
    ghost predicate Used(before: C.Table, key: GoString, from: int, ops: seq<C.Op>)
      reads cache, clock
    {
      && Spaced(ops, from, clock.t)
      && (forall i :: 0 <= i < |ops| ==> ops[i].key == key)
      && if cache == null then ops == []
         else StatusTrace.Session(cache.json, before, ops) && Cached() == Ran(cache.json, before, ops)
    }

    // The answer to a status request: the fresh response the cache has, if it may be
    // asked and has one; else what a miss is answered.
    ghost predicate RequestOutcome(res: StatusResult, t: Trace, key: GoString, protocol: int32, enabled: bool,
                                   before: C.Table) {
      if enabled && cache != null then
        && t.ops != [] && t.ops[0].Get?
        && if C.Answer(cache.json, before, t.ops[0]).Some? then
             && res.cacheResult == Hit && !res.fallbackUsed
             && t == Trace(t.ops[..1], t.askedAt, None, None, C.Answer(cache.json, before, t.ops[0]).value, t.pong)
           else
             MissOutcome(res, t.(ops := t.ops[1..]), key, protocol, enabled, Miss, C.Step(cache.json, before, t.ops[0]))
      else MissOutcome(res, t, key, protocol, enabled, if enabled then Miss else Disabled, before)
    }

    // After a miss there is at most one more operation.
    lemma UsedAfterMiss(before: C.Table, get: C.Op, key: GoString, from: int, ops: seq<C.Op>)
      requires cache != null && get.Get? && get.key == key && from <= get.at <= get.evictAt
      requires C.Answer(cache.json, before, get) == None
      requires Behind(C.Step(cache.json, before, get), key, get.evictAt, ops)
      ensures Used(before, key, from, [get] + ops)
    {
      hide C.Answer, C.Step;
      assert [get][..0] == [];
      assert Ran(cache.json, before, [get]) == C.Step(cache.json, Ran(cache.json, before, []), get);
      if ops == [] {
        assert [get] + ops == [get];
      } else {
        assert ([get] + ops)[..1] == [get];
        assert ([get] + ops)[1] == ops[0];
      }
    }

    lemma UsedTime(before: C.Table, key: GoString, from: int, ops: seq<C.Op>)
      requires Used(before, key, from, ops)
      ensures from <= clock.t
    {
    }

    lemma UsedOnHit(before: C.Table, get: C.Op, key: GoString, from: int)
      requires cache != null && get.Get? && get.key == key && from <= get.at <= get.evictAt <= clock.t
      requires Cached() == C.Step(cache.json, before, get)
      ensures Used(before, key, from, [get])
    {
      hide C.Answer, C.Step;
      assert [get][..0] == [];
      assert Ran(cache.json, before, [get]) == C.Step(cache.json, Ran(cache.json, before, []), get);
    }

    // Without the cache only a miss without operations is left.
    lemma UsedWithout(before: C.Table, key: GoString, from: int, ops: seq<C.Op>)
      requires Behind(before, key, from, ops) && ops == []
      requires cache == null ==> before == map[]
      ensures Used(before, key, from, ops)
    {
    }

    lemma NoneWithout(res: StatusResult, t: Trace, key: GoString, protocol: int32, enabled: bool, was: CacheResult,
                      before: C.Table)
      requires MissOutcome(res, t, key, protocol, enabled, was, before) && (!enabled || cache == null)
      ensures t.ops == []
    {
    }

    lemma SameSession(t: Trace, ops: seq<C.Op>, dialOk: bool, addr: GoString, s: seq<byte>,
                      before: map<H.Addr, H.Entry>, earlier: int, from: int, until: int)
      requires Tried(t, dialOk, addr, s, before) && Punctual(t, from, until) && earlier <= from
      ensures Tried(t.(ops := ops), dialOk, addr, s, before) && Punctual(t.(ops := ops), earlier, until)
    {
      hide Attempted, Spared;
    }

    lemma OutcomeWithout(res: StatusResult, t: Trace, key: GoString, protocol: int32, enabled: bool, before: C.Table)
      requires MissOutcome(res, t, key, protocol, enabled, if enabled then Miss else Disabled, before)
      requires !enabled || cache == null
      ensures RequestOutcome(res, t, key, protocol, enabled, before)
    {
      hide MissOutcome;
    }

    lemma OutcomeHit(handled: bool, err: Option<StatusError>, t: Trace, key: GoString, protocol: int32, before: C.Table)
      requires cache != null && |t.ops| == 1 && t.ops[0].Get? && t.attempt == None && t.event == None
      requires C.Answer(cache.json, before, t.ops[0]) == Some(t.body)
      ensures RequestOutcome(StatusResult(Hit, false, handled, err), t, key, protocol, true, before)
    {
      hide MissOutcome, C.Answer;
    }

    lemma OutcomeMiss(res: StatusResult, t: Trace, get: C.Op, key: GoString, protocol: int32, before: C.Table)
      requires cache != null && get.Get? && C.Answer(cache.json, before, get) == None
      requires MissOutcome(res, t, key, protocol, true, Miss, C.Step(cache.json, before, get))
      ensures RequestOutcome(res, t.(ops := [get] + t.ops), key, protocol, true, before)
    {
      hide MissOutcome, C.Answer, C.Step;
      var all := t.(ops := [get] + t.ops);
      assert all.ops[1..] == t.ops && all.(ops := all.ops[1..]) == t;
    }

    lemma HitOnItsOwn(t: Trace, fromClient: seq<byte>)
      requires t.attempt == None && t.event == None
      requires t.pong != [] ==> CachedPong(fromClient, options.maxHandshakeSize, t.pong)
      ensures forall fromBackend :: PongOrigin(t, fromClient, fromBackend)
      ensures Reported(t.attempt, t.event)
    {
    }

    lemma SamePong(t: Trace, ops: seq<C.Op>, fromClient: seq<byte>, fromBackend: seq<byte>)
      requires PongOrigin(t, fromClient, fromBackend)
      ensures PongOrigin(t.(ops := ops), fromClient, fromBackend)
    {
    }

    // A status request, read and found to be one, is answered.
    method AnswerRequest(client: Conn, backend: Conn, dialOk: bool, b: R.Backend, first: seq<byte>, second: seq<byte>,
                         key: GoString, protocol: int32)
      returns (res: StatusResult, ghost t: Trace)
      requires client.input.Valid() && backend.input.Valid() && clock.t > 0 && HealthValid()
      requires client.input != backend.input && client.output != backend.output && backend.output.delivered == []
      modifies client.input`pos, client.output`delivered, backend.input`pos, backend.output`delivered, clock, cache,
        health, HealthRecords()
      ensures client.input.Valid() && backend.input.Valid() && HealthValid()
      ensures fresh(HealthRecords() - old(HealthRecords()))
      ensures old(client.input.pos) <= client.input.pos && old(backend.input.pos) <= backend.input.pos
      ensures Used(old(Cached()), key, old(clock.t), t.ops)
      ensures RequestOutcome(res, t, key, protocol, StatusCacheEnabled(b), old(Cached()))
      ensures HealthMap() == AfterEvent(HealthOptions(), old(HealthMap()), b.addr, t.event)
      ensures if health == null then t.event == None else Reported(t.attempt, t.event)
      ensures res.cacheResult != Hit ==>
        Tried(t, dialOk, b.addr, old(backend.input.Rest()), old(HealthMap())) && Punctual(t, old(clock.t), clock.t)
      ensures t.attempt == None ==> backend.output.delivered == [] && backend.input.pos == old(backend.input.pos)
      ensures Silence(Relayed(t), old(client.input.Rest()), client.input.reliable, res.pongHandled, res.err)
      ensures client.output.reliable ==> res.err != Some(ClientWrite)
      ensures backend.output.reliable ==> t.attempt != Some(Err(NotReplayed))
      ensures PongOrigin(t, old(client.input.Rest()), backend.input.data[old(backend.input.pos)..backend.input.pos])
      ensures Sent(old(client.output.delivered), client.output.delivered, t.body, t.pong, res.pongHandled, res.err)
      ensures backend.output.delivered <= first + second + client.input.data[old(client.input.pos)..client.input.pos]
    {
      hide C.Answer, C.Step, CachedPong, Silence, DecodePacket, MissOutcome, RequestOutcome, PongOrigin, Sent,
        HealthValid, HealthMap, Behind, Tried, Punctual, Used, Reported;
      ghost var before, start := Cached(), clock.t;
      var enabled := StatusCacheEnabled(b);
      var was := if enabled then Miss else Disabled;
      if !enabled || cache == null {
        res, t := AnswerMiss(client, backend, dialOk, b.addr, first, second, key, protocol, enabled, was);
        OutcomeWithout(res, t, key, protocol, enabled, before);
        NoneWithout(res, t, key, protocol, enabled, was, before);
        UsedWithout(before, key, start, t.ops);
        return;
      }
      var data;
      ghost var get;
      data, get := Lookup(key);
      ghost var now, table := clock.t, Cached();
      if data.Some? {
        UsedOnHit(before, get, key, start);
        var handled, err;
        ghost var pong;
        handled, err, pong := Serve(client, data.value);
        res, t := StatusResult(Hit, false, handled, err), Trace([get], start, None, None, data.value, pong);
        OutcomeHit(handled, err, t, key, protocol, before);
        HitOnItsOwn(t, old(client.input.Rest()));
        return;
      }
      res, t := AnswerMiss(client, backend, dialOk, b.addr, first, second, key, protocol, enabled, was);
      SinceEarlier(table, key, now, get.evictAt, t.ops);
      SameSession(t, [get] + t.ops, dialOk, b.addr, old(backend.input.Rest()), old(HealthMap()), start, now, clock.t);
      UsedAfterMiss(before, get, key, start, t.ops);
      OutcomeMiss(res, t, get, key, protocol, before);
      SamePong(t, [get] + t.ops, old(client.input.Rest()),
               backend.input.data[old(backend.input.pos)..backend.input.pos]);
      t := t.(ops := [get] + t.ops);
    }

    // When the cache is asked at all, and on which terms a response is stored or a fallback
    // asked for: as configured, and for the backend.
    lemma CachedAsConfigured(res: StatusResult, t: Trace, key: GoString, protocol: int32, b: R.Backend,
                             before: C.Table)
      requires RequestOutcome(res, t, key, protocol, StatusCacheEnabled(b), before) && |t.ops| <= 2
      ensures t.ops != [] <==> cache != null && options.statusCacheEnabled && b.statusCache != Some(false)
      ensures forall op <- t.ops :: op.Set? ==>
        && op.ttl == options.statusCacheTTL
        && op.fallbackTTL == if options.motdCacheEnabled then options.motdFallbackTTL else 0
      ensures forall op <- t.ops :: op.Fallback? ==>
        options.motdCacheEnabled && op.protocol == protocol && op.options == options.fallback
    {
      hide C.Answer, C.Step;
      if t.ops != [] {
        assert t.ops[0] in t.ops;
        forall i | 0 <= i < |t.ops| ensures i == 0 || t.ops[1..][i - 1] == t.ops[i] {
        }
      }
    }

    // The client's next packet, `n` bytes long, is a status request.
    ghost predicate Requested(s: seq<byte>, n: nat) {
      var o := DecodePacket(s, options.maxHandshakeSize);
      o.Got? && o.p.id == STATUS_REQUEST_ID && n == |o.p.raw|
    }

    // It is not, or it was not to be read.
    ghost predicate NotRequested(s: seq<byte>, res: StatusResult) {
      var o := DecodePacket(s, options.maxHandshakeSize);
      && res == StatusResult(Disabled, false, false, res.err)
      && match res.err
         case Some(ReadRequest(e)) => Interrupted(e) || (o.Bad? && o.err == e)
         case Some(UnexpectedRequest(id)) => o.Got? && o.p.id == id != STATUS_REQUEST_ID
         case _ => false
    }

    // The session's whole dealing with the cache, which was `before`, and with the backend.
    ghost predicate Visited(v: Request, before: C.Table) {
      && Spaced(v.t.ops, v.since, v.until)
      && (forall i :: 0 <= i < |v.t.ops| ==> v.t.ops[i].key == KeyOf(v))
      && (if cache == null then v.t.ops == [] else StatusTrace.Session(cache.json, before, v.t.ops))
      && if v.served then
           && RequestOutcome(v.res, v.t, KeyOf(v), v.protocol, StatusCacheEnabled(v.b), before)
           && (v.t.attempt.Some? ==>
                 Attempted(v.t.attempt.value, v.dialOk, v.fromBackend, options.maxStatusResponseSize))
         else v.t.ops == [] && v.t.attempt == None && v.res.cacheResult == Disabled
    }

    lemma ServedIsVisit(v: Request, before: C.Table, m: map<H.Addr, H.Entry>)
      requires v.served && Used(before, KeyOf(v), v.since, v.t.ops) && v.until == clock.t
      requires RequestOutcome(v.res, v.t, KeyOf(v), v.protocol, StatusCacheEnabled(v.b), before)
      requires v.res.cacheResult != Hit ==> Tried(v.t, v.dialOk, v.b.addr, v.fromBackend, m)
      ensures Visited(v, before)
    {
      hide Spared, Attempted, MissOutcome, StatusTrace.Session, K.Key, StatusCacheEnabled, C.Answer, C.Step;
      if v.res.cacheResult == Hit {
        HitTriesNothing(v, before);
      }
    }

    lemma UnservedIsVisit(v: Request, before: C.Table)
      requires !v.served && v.t.ops == [] && v.t.attempt == None && v.res.cacheResult == Disabled && v.since <= v.until
      ensures Visited(v, before)
    {
    }

    lemma HitTriesNothing(v: Request, before: C.Table)
      requires v.res.cacheResult == Hit
      requires RequestOutcome(v.res, v.t, KeyOf(v), v.protocol, StatusCacheEnabled(v.b), before)
      ensures v.t.attempt == None && cache != null && |v.t.ops| == 1 && v.t.ops[0].Get?
      ensures C.Answer(cache.json, before, v.t.ops[0]) == Some(v.t.body)
    {
      hide K.Key, StatusCacheEnabled, C.Step;
    }

    lemma DidNothing(res: StatusResult, key: GoString, addr: GoString, delivered: seq<byte>)
      requires res.err.Some? && !res.pongHandled && clock.t > 0
      ensures Used(Cached(), key, clock.t, [])
      ensures HealthMap() == AfterEvent(HealthOptions(), HealthMap(), addr, None)
      ensures Reported(None, None)
      ensures Sent(delivered, delivered, [], [], false, res.err)
    {
    }

    method NextRequest(client: Reader) returns (request: Packet, failed: Option<StatusResult>)
      requires client.Valid()
      modifies client`pos
      ensures client.Valid() && old(client.pos) <= client.pos
      ensures failed.Some? ==>
        && NotRequested(old(client.Rest()), failed.value)
        && failed.value.err.Some? && failed.value.err != Some(ClientWrite)
      ensures failed == None ==>
        && Requested(old(client.Rest()), client.pos - old(client.pos))
        && request.raw == client.data[old(client.pos)..client.pos]
    {
      hide DecodePacket;
      request := Packet(0, [], [], []);
      var next := ReadPacket(client, options.maxHandshakeSize);
      if next.Err? {
        return request, Some(StatusResult(Disabled, false, false, Some(ReadRequest(next.error))));
      }
      if next.value.id != STATUS_REQUEST_ID {
        return request, Some(StatusResult(Disabled, false, false, Some(UnexpectedRequest(next.value.id))));
      }
      return next.value, None;
    }

    lemma RejectedIs(s: seq<byte>, res: StatusResult)
      requires NotRequested(s, res)
      ensures res.cacheResult == Disabled && !res.pongHandled
    {
    }

    // A status session.  It makes the cache operations, and sends the checker the event,
    // its trace says; it answers from the fresh cache, from the backend, or from the stale
    // cache; what the client gets is the trace's bytes, and what the backend gets is a
    // prefix of the client's.
    method HandleStatus(client: Conn, backend: Conn, dialOk: bool, b: R.Backend, handshake: Handshake, packet: Packet)
      returns (res: StatusResult, ghost t: Trace, ghost asked: nat, ghost served: bool)
      requires client.input.Valid() && backend.input.Valid() && clock.t > 0 && HealthValid()
      requires client.input != backend.input && client.output != backend.output && backend.output.delivered == []
      requires packet.raw == client.input.data[..client.input.pos]
      modifies client.input`pos, client.output`delivered, backend.input`pos, backend.output`delivered, clock, cache,
        health, HealthRecords()
      ensures client.input.Valid() && backend.input.Valid() && HealthValid()
      ensures fresh(HealthRecords() - old(HealthRecords()))
      ensures old(clock.t) <= clock.t
      ensures old(client.input.pos) <= asked <= client.input.pos && old(backend.input.pos) <= backend.input.pos
      ensures Used(old(Cached()), K.Key(b.addr, handshake.address, handshake.protocol), old(clock.t), t.ops)
      ensures HealthMap() == AfterEvent(HealthOptions(), old(HealthMap()), b.addr, t.event)
      ensures if health == null then t.event == None else Reported(t.attempt, t.event)
      ensures t.attempt == None ==> backend.output.delivered == [] && backend.input.pos == old(backend.input.pos)
      ensures backend.output.delivered <= client.input.data[..client.input.pos]
      ensures Sent(old(client.output.delivered), client.output.delivered, t.body, t.pong, res.pongHandled, res.err)
      ensures client.output.reliable ==> res.err != Some(ClientWrite)
      ensures backend.output.reliable ==> t.attempt != Some(Err(NotReplayed))
      ensures Visited(Request(b, handshake.address, handshake.protocol, dialOk, old(backend.input.Rest()), served, res,
                              t, old(clock.t), clock.t), old(Cached()))
      ensures !served ==> t == Trace([], t.askedAt, None, None, [], []) && NotRequested(old(client.input.Rest()), res)
      ensures served ==>
        && Requested(old(client.input.Rest()), asked - old(client.input.pos))
        && RequestOutcome(res, t, K.Key(b.addr, handshake.address, handshake.protocol), handshake.protocol,
                          StatusCacheEnabled(b), old(Cached()))
        && (res.cacheResult != Hit ==>
              && Tried(t, dialOk, b.addr, old(backend.input.Rest()), old(HealthMap()))
              && Punctual(t, old(clock.t), clock.t))
        && Silence(Relayed(t), client.input.data[asked..], client.input.reliable, res.pongHandled, res.err)
        && PongOrigin(t, client.input.data[asked..], backend.input.data[old(backend.input.pos)..backend.input.pos])
    {
      hide RequestOutcome, Requested, NotRequested, Sent, HealthValid, HealthMap, Tried, Punctual, Used, PongOrigin,
        Silence, Reported, K.Key, AfterEvent, Visited;
      t, served := Trace([], clock.t, None, None, [], []), false;
      ghost var data, from := client.input.data, client.input.pos;
      var key := K.Key(b.addr, handshake.address, handshake.protocol);
      var request, failed := NextRequest(client.input);
      asked := client.input.pos;
      if failed.Some? {
        res := failed.value;
        RejectedIs(old(client.input.Rest()), res);
        DidNothing(res, key, b.addr, client.output.delivered);
        UnservedIsVisit(Request(b, handshake.address, handshake.protocol, dialOk, old(backend.input.Rest()), served,
                                res, t, old(clock.t), clock.t), old(Cached()));
        return;
      }
      served := true;
      res, t := AnswerRequest(client, backend, dialOk, b, packet.raw, request.raw, key, handshake.protocol);
      UsedTime(old(Cached()), key, old(clock.t), t.ops);
      ServedIsVisit(Request(b, handshake.address, handshake.protocol, dialOk, old(backend.input.Rest()), served, res, t,
                            old(clock.t), clock.t), old(Cached()), old(HealthMap()));
      assert data[..from] + data[from..asked] + data[asked..client.input.pos] == data[..client.input.pos];
    }

    // A run of status sessions, from an empty cache on.
    ghost predicate InTurn(vs: seq<Request>, i: nat)
      requires i < |vs| && cache != null
    {
      && Visited(vs[i], C.Run(cache.json, Flat(OpsOf(vs[..i]))))
      && K.BAR !in vs[i].b.addr
    }

    ghost predicate Visits(vs: seq<Request>)
      requires cache != null
    {
      forall i: nat :: i < |vs| ==> InTurn(vs, i)
    }

    lemma VisitsGrow(vs: seq<Request>, v: Request)
      requires cache != null && Visits(vs) && Visited(v, C.Run(cache.json, Flat(OpsOf(vs)))) && K.BAR !in v.b.addr
      ensures Visits(vs + [v])
      ensures C.Run(cache.json, Flat(OpsOf(vs + [v]))) == Ran(cache.json, C.Run(cache.json, Flat(OpsOf(vs))), v.t.ops)
    {
      hide Visited, C.Run, Ran;
      var all := vs + [v];
      assert all[..|vs|] == vs;
      forall i: nat | i < |all| ensures InTurn(all, i) {
        if i < |vs| {
          assert InTurn(vs, i) && all[..i] == vs[..i] && all[i] == vs[i];
        }
      }
      assert OpsOf(all)[..|vs|] == OpsOf(vs);
      RanIsRun(cache.json, Flat(OpsOf(vs)), v.t.ops);
    }

    // Such a run is one of those that see no eviction.
    lemma VisitsAreSessions(vs: seq<Request>)
      requires cache != null && Visits(vs)
      ensures Sessions(cache.json, OpsOf(vs))
    {
      hide RequestOutcome, StatusTrace.Session, C.Run, Flat;
      forall i: nat | i < |vs|
        ensures StatusTrace.Session(cache.json, C.Run(cache.json, Flat(OpsOf(vs)[..i])), OpsOf(vs)[i])
      {
        assert InTurn(vs, i);
        assert OpsOf(vs)[..i] == OpsOf(vs[..i]);
      }
    }

    // What the client of one session gets, after any operations `h` on the cache.  A
    // response stored last under its key whose TTL lasts longer than the session is served,
    // and the backend left alone.
    lemma FreshServed(v: Request, h: seq<C.Op>, i: nat)
      requires cache != null && v.served && Visited(v, C.Run(cache.json, h))
      requires C.WellBehaved(cache.json, h + v.t.ops)
      requires options.statusCacheEnabled && v.b.statusCache != Some(false)
      requires C.LastSet(h, KeyOf(v), i, |h|) && v.until < h[i].at + h[i].ttl
      ensures v.res.cacheResult == Hit && v.t.body == h[i].data && v.t.attempt == None
    {
      hide C.Run, C.Answer, C.Step, C.WellBehaved, MissOutcome, K.Key;
      var all := h + v.t.ops;
      assert all[..|h|] == h && all[|h|] == v.t.ops[0];
      LaterStill(h, v.t.ops, KeyOf(v), i, |h|);
      C.GetExactly(cache.json, all, i, |h|);
    }

    // If instead it is over when the session begins, and the backend is spared, or cannot be
    // reached, or sends no response, then the client gets the fallback built from that
    // response's description, if it has one and its fallback TTL lasts longer than the
    // session.
    lemma StaleServed(v: Request, h: seq<C.Op>, i: nat, text: GoString)
      requires cache != null && v.served && Visited(v, C.Run(cache.json, h))
      requires C.WellBehaved(cache.json, h + v.t.ops)
      requires options.statusCacheEnabled && v.b.statusCache != Some(false) && options.motdCacheEnabled
      requires C.LastSet(h, KeyOf(v), i, |h|) && h[i].at + h[i].ttl <= v.since
      requires v.until <= h[i].at + h[i].ttl + if h[i].fallbackTTL > 0 then h[i].fallbackTTL else 0
      requires U.Valid(text) && U.Units(text) <= 32767 && text != []
      requires h[i].data == NewPacket(0, EncodeString(text)).raw && cache.json.description(text) != []
      requires v.t.attempt.Some? ==>
        v.t.attempt.value.Err? && (v.t.attempt.value.error.Unreachable? || v.t.attempt.value.error.NoResponse?)
      ensures var built := cache.json.fallback(v.protocol, cache.json.description(text), options.fallback);
        && v.res.fallbackUsed == built.Some?
        && v.t.body == if built.Some? then NewPacket(0, EncodeString(built.value)).raw else []
    {
      hide C.Run, C.Answer, C.Step, C.WellBehaved, K.Key, NewPacket, EncodeString, U.Valid, U.Units, Attempted;
      var all, n, ops := h + v.t.ops, |h|, v.t.ops;
      assert ops != [];
      assert all[..n] == h && all[n] == ops[0];
      LaterStill(h, ops, KeyOf(v), i, n);
      C.GetExactly(cache.json, all, i, n);
      RanOne(h, ops);
      assert ops[1..] != [] && ops[1] == ops[1..][0];
      assert all[n + 1] == ops[1];
      LaterStill(h, ops, KeyOf(v), i, n + 1);
      C.FallbackExactly(cache.json, all, i, n + 1, text);
    }

    lemma RanOne(h: seq<C.Op>, ops: seq<C.Op>)
      requires cache != null && ops != []
      ensures C.Run(cache.json, (h + ops)[..|h| + 1]) == C.Step(cache.json, C.Run(cache.json, h), ops[0])
    {
      hide C.Step;
      var upto := (h + ops)[..|h| + 1];
      assert upto[..|h|] == h && upto[|h|] == ops[0];
    }

    // Gets store nothing.
    lemma LaterStill(h: seq<C.Op>, ops: seq<C.Op>, k: GoString, i: nat, j: nat)
      requires C.LastSet(h, k, i, |h|) && |h| <= j <= |h| + |ops| && j <= |h| + 1
      requires j > |h| ==> ops[0].Get?
      ensures C.LastSet(h + ops, k, i, j) && (h + ops)[i] == h[i]
    {
      assert forall m :: 0 <= m < |h| ==> (h + ops)[m] == h[m];
      assert j > |h| ==> (h + ops)[|h|] == ops[0];
    }

    // A response read from the backend is what the client gets, raw, and where the cache may
    // be used is stored raw, unless the client was gone; any other failed attempt, and
    // without the fallback any at all, leaves the client without an answer.
    lemma LiveServed(v: Request, before: C.Table)
      requires v.served && Visited(v, before) && v.t.attempt.Some?
      ensures v.t.attempt.value.Ok? ==>
        && v.t.body == v.t.attempt.value.value.raw && !v.res.fallbackUsed
        && (v.res.err != Some(ClientWrite) && cache != null
            && options.statusCacheEnabled && v.b.statusCache != Some(false) ==>
              |v.t.ops| == 2 && v.t.ops[1].Set? && v.t.ops[1].data == v.t.attempt.value.value.raw)
      ensures v.t.attempt.value.Err? && !v.res.fallbackUsed ==>
        v.t.body == [] && v.res.err == Some(BackendFailed(v.t.attempt.value.error))
      ensures v.res.fallbackUsed ==>
        && cache != null && options.motdCacheEnabled
        && v.t.attempt.value.Err? && (v.t.attempt.value.error.Unreachable? || v.t.attempt.value.error.NoResponse?)
    {
      hide C.Answer, C.Step, K.Key, Attempted;
    }

    // A backend is spared exactly if that is configured and the checker holds it unhealthy:
    // if the last of its runs of events to reach a threshold was one of failures.
    lemma SparedExactly(t: Trace, dialOk: bool, addr: GoString, s: seq<byte>, before: map<H.Addr, H.Entry>,
                        h: seq<H.Event>)
      requires health != null && H.Sane(health.options) && Tried(t, dialOk, addr, s, before)
      requires forall ev :: ev in h && ev.Bad? ==> ev.pauseAt >= 0
      requires addr in before ==> before[addr] == H.After(health.options, h)
      ensures t.attempt == None <==>
        && options.fallbackWhenUnhealthy && health.options.enabled && addr in before
        && exists i: nat :: H.LastDecisive(health.options, h, i) && h[i].Bad?
    {
      hide Attempted, H.IsUnhealthy, H.After, H.LastDecisive;
      H.UnhealthyExactly(health.options, before, addr, h, t.askedAt);
    }

    // What a session stores is the response it read raw from its own backend.
    ghost predicate Fetched(v: Request, data: seq<byte>) {
      && v.t.attempt.Some? && v.t.attempt.value.Ok? && v.t.attempt.value.value.raw == data
      && K.FromBackend(CallerOf(v), data, options.maxStatusResponseSize)
    }

    lemma SetIsResponse(v: Request, before: C.Table, x: nat)
      requires Visited(v, before) && x < |v.t.ops| && v.t.ops[x].Set?
      ensures v.t.ops[x].key == KeyOf(v) && v.t.ops[x].ttl == options.statusCacheTTL
      ensures Fetched(v, v.t.ops[x].data)
    {
      hide DecodePacket, K.Key, C.Answer, C.Step, StatusCacheEnabled;
    }

    // Over any run of status sessions, the bytes of a hit are a response that an earlier
    // session read raw from that same backend, for the same normalized host and protocol,
    // and stored less than one TTL before the hit was read.
    lemma HitFromBackend(vs: seq<Request>, n: nat) returns (i: nat, x: nat)
      requires cache != null && Visits(vs) && n < |vs| && vs[n].res.cacheResult == Hit
      ensures i < n && Fetched(vs[i], vs[n].t.body)
      ensures vs[i].b.addr == vs[n].b.addr && vs[i].protocol == vs[n].protocol
      ensures R.NormalizeHost(vs[i].host) == R.NormalizeHost(vs[n].host)
      ensures x < |vs[i].t.ops| && vs[i].t.ops[x].Set? && vs[i].t.ops[x].data == vs[n].t.body
      ensures |vs[n].t.ops| == 1 && vs[n].t.ops[0].at < vs[i].t.ops[x].at + options.statusCacheTTL
    {
      hide RequestOutcome, C.Run, K.Key, R.NormalizeHost, Flat, Fetched, C.ExtractMOTD;
      var before := OpsOf(vs[..n]);
      var m := C.Run(cache.json, Flat(before));
      assert InTurn(vs, n);
      HitTriesNothing(vs[n], m);
      var j := C.EntryOrigin(cache.json, Flat(before), KeyOf(vs[n]));
      i, x := Locate(before, j);
      assert InTurn(vs, i);
      SetIsResponse(vs[i], C.Run(cache.json, Flat(OpsOf(vs[..i]))), x);
      K.KeyInjective(vs[i].b.addr, vs[i].host, vs[i].protocol, vs[n].b.addr, vs[n].host, vs[n].protocol);
    }

    // With fallback-when-unhealthy on, a session that got past the cache is a question and
    // at most one report of the traffic on the checker, of which RequestsChangeNothing and
    // RecoveryOnlyByChecks speak.
    lemma StatusIsTraffic(t: Trace, dialOk: bool, addr: GoString, r: seq<byte>, from: int, until: int, s: T.State,
                          c: nat)
      requires health != null && options.fallbackWhenUnhealthy && Reported(t.attempt, t.event)
      requires Tried(t, dialOk, addr, r, s.entries) && Punctual(t, from, until)
      requires c !in s.calls && s.now <= from
      ensures T.From(health.options, s, StepsOf(c, addr, t)).Some?
      ensures T.From(health.options, s, StepsOf(c, addr, t)).value.entries
        == AfterEvent(health.options, s.entries, addr, t.event)
    {
      hide Attempted, AfterEvent, T.From, StepsOf, H.IsUnhealthy;
      SessionIsTraffic(health.options, s, c, addr, t);
    }

    // Where a connection goes is decided by its first packet alone.
    ghost predicate Dispatched(s: seq<byte>, out: Outcome) {
      var o := DecodePacket(s, options.maxHandshakeSize);
      match out
      case BadHandshake(e) => Interrupted(e) || (o.Bad? && o.err == e)
      case NotAHandshake(h) => o.Got? && DecodeHandshake(o.p) == Err(h)
      case NoRoute(host) => Routed(o, None) && host == R.NormalizeHost(DecodeHandshake(o.p).value.address)
      case Unsupported(b, next) =>
        Routed(o, Some(b)) && next == DecodeHandshake(o.p).value.next && next !in {NEXT_STATUS, NEXT_LOGIN}
      case StatusDone(b, _) => Routed(o, Some(b)) && DecodeHandshake(o.p).value.next == NEXT_STATUS
      case LoginDone(b, _) => Routed(o, Some(b)) && DecodeHandshake(o.p).value.next == NEXT_LOGIN
    }

    ghost predicate Routed(o: P.Outcome, b: Option<R.Backend>) {
      && o.Got? && DecodeHandshake(o.p).Ok?
      && R.Resolution(router.routes, router.def, R.NormalizeHost(DecodeHandshake(o.p).value.address)) == b
    }

    // The handshake, its packet, and the backend its host leads to.
    method ReadHandshake(client: Reader)
      returns (packet: Packet, handshake: Handshake, b: R.Backend, failed: Option<Outcome>)
      requires client.Valid() && client.pos == 0
      modifies client`pos
      ensures client.Valid()
      ensures failed.Some? ==>
        Dispatched(client.data, failed.value) && !failed.value.StatusDone? && !failed.value.LoginDone?
      ensures failed == None ==>
        && DecodePacket(client.data, options.maxHandshakeSize) == Got(packet)
        && DecodeHandshake(packet) == Ok(handshake)
        && Routed(Got(packet), Some(b))
        && packet.raw == client.data[..client.pos]
    {
      hide DecodePacket, DecodeHandshake, R.NormalizeHost, R.Resolution;
      handshake, b := Handshake(0, [], 0, 0), R.Backend([], [], None);
      packet := Packet(0, [], [], []);
      var first := ReadPacket(client, options.maxHandshakeSize);
      assert client.data[0..] == client.data;
      if first.Err? {
        return packet, handshake, b, Some(BadHandshake(first.error));
      }
      packet := first.value;
      var parsed := ParseHandshake(packet);
      if parsed.Err? {
        return packet, handshake, b, Some(NotAHandshake(parsed.error));
      }
      handshake := parsed.value;
      var host := R.NormalizeHost(handshake.address);
      var found := router.Resolve(host);
      if found.None? {
        return packet, handshake, b, Some(NoRoute(host));
      }
      return packet, handshake, found.value, None;
    }

    // The host the connection asked for, normalized.
    ghost function HostOf(s: seq<byte>): GoString {
      var o := DecodePacket(s, options.maxHandshakeSize);
      if o.Got? && DecodeHandshake(o.p).Ok? then R.NormalizeHost(DecodeHandshake(o.p).value.address) else []
    }

    // What a client sends behind its handshake.
    ghost function AfterFirst(s: seq<byte>): seq<byte> {
      var o := DecodePacket(s, options.maxHandshakeSize);
      if o.Got? then s[|o.p.raw|..] else []
    }

    // In bytes: a legal handshake at the front, on a connection that does not break, leads
    // to the backend its host is routed to, with 1 to a status session and 2 to a login.
    lemma HandshakeDispatches(s: seq<byte>, h: Handshake, out: Outcome)
      requires Dispatched(s, out) && !out.BadHandshake? && options.maxHandshakeSize >= 780
      requires U.Valid(h.address) && U.Units(h.address) <= 255
      requires BuildHandshake(h).raw <= s
      ensures BuildHandshake(h) == NewPacket(0,
        V.Encode(h.protocol) + EncodeString(h.address) + [h.port / 256, h.port % 256] + V.Encode(h.next))
      ensures var b := R.Resolution(router.routes, router.def, R.NormalizeHost(h.address));
        if b == None then out == NoRoute(R.NormalizeHost(h.address))
        else if h.next == 1 then out.StatusDone? && out.b == b.value
        else if h.next == 2 then out.LoginDone? && out.b == b.value
        else out == Unsupported(b.value, h.next)
      ensures HostOf(s) == R.NormalizeHost(h.address) && AfterFirst(s) == s[|BuildHandshake(h).raw|..]
    {
      hide DecodePacket, DecodeHandshake, U.Valid, U.Units, R.NormalizeHost, R.Resolution, NewPacket, V.Encode,
        BuildHandshake;
      U.BytesPerUnit(h.address);
      HandshakeLayout(h);
      StringLayout(h.address);
      assert V.Encode(h.protocol) + EncodeString(h.address) == V.Encode(h.protocol) + V.Encode(|h.address|) + h.address;
      var raw := BuildHandshake(h).raw;
      assert s == raw + s[|raw|..];
      HandshakeOnTheWire(h, options.maxHandshakeSize, s[|raw|..]);
    }

    // A connection from its first byte on.  Whichever session it turns out to be, the
    // backend is never sent anything but a prefix of what the client sent; a status session
    // leaves the bans alone, a login the cache and the health records; and the session
    // itself, `login` or `visit`, comes with what the theorems on runs ask of it.
    method HandleConn(client: Conn, backend: Conn, dialOk: bool, ip: GoString)
      returns (out: Outcome, ghost login: Option<Login>, ghost visit: Option<Request>, ghost replayed: nat,
               ghost up: Option<Stop>)
      requires client.input.Valid() && backend.input.Valid() && clock.t > 0 && HealthValid()
      requires client.input != backend.input && client.output != backend.output && backend.output.delivered == []
      requires client.input.pos == 0
      modifies client.input`pos, client.output`delivered, backend.input`pos, backend.output`delivered, clock, cache,
        guard, health, HealthRecords()
      ensures client.input.Valid() && backend.input.Valid() && old(clock.t) <= clock.t && HealthValid()
      ensures Dispatched(client.input.data, out)
      ensures backend.output.delivered <= client.input.data[..client.input.pos]
      ensures !out.StatusDone? && !out.LoginDone? ==>
        backend.output.delivered == [] && client.output.delivered == old(client.output.delivered)
      ensures !out.LoginDone? ==> login == None && Bans() == old(Bans())
      ensures out.LoginDone? ==>
        && login.Some? && login.value.res == out.login && login.value.ip == ip
        && (HostOf(client.input.data) != [] ==> login.value.route == HostOf(client.input.data))
        && (HostOf(client.input.data) == [] && out.b.name != [] ==> login.value.route == out.b.name)
        && (HostOf(client.input.data) == [] && out.b.name == [] ==> login.value.route == out.b.addr)
        && (out.login.err == Some(Banned) || (out.login.err.Some? && out.login.err.value.ReadLoginStart?) ==>
              backend.output.delivered == [])
        && (out.login.action != IpBanned && (out.login.err == None || !out.login.err.value.ReadLoginStart?) ==>
              var first := |client.input.data| - |AfterFirst(client.input.data)|;
              first <= replayed && LoginRead(AfterFirst(client.input.data), replayed - first, out.login.username))
        && (guard != null ==>
              Judged(guard.options, clock.t - old(clock.t), if out.login.username == [] then 1 else 2,
                     login.value.calls, out.login))
        && Logged(old(clock.t), old(Bans()), login.value.calls)
        && (guard != null ==> LoginTrace.Session(guard.options, old(Bans()), old(clock.t), clock.t, login.value))
        && (out.login.err == None <==> up.Some?)
        && (up.Some? ==> Piped(client, backend, replayed, out.login.stats, up.value))
        && (up.Some? ==> Stopped(client.input.reliable, backend.output.reliable, up.value))
        && Excused(out.login.err, dialOk, backend.output.reliable, AfterFirst(client.input.data))
      ensures !out.StatusDone? ==> visit == None && Cached() == old(Cached()) && HealthMap() == old(HealthMap())
      ensures out.StatusDone? ==>
        && visit.Some? && visit.value.b == out.b && visit.value.res == out.status
        && visit.value.since == old(clock.t) && visit.value.until == clock.t
        && R.NormalizeHost(visit.value.host) == HostOf(client.input.data)
        && Visited(visit.value, old(Cached()))
        && Used(old(Cached()), KeyOf(visit.value), old(clock.t), visit.value.t.ops)
        && HealthMap() == AfterEvent(HealthOptions(), old(HealthMap()), out.b.addr, visit.value.t.event)
        && visit.value.dialOk == dialOk && visit.value.fromBackend == old(backend.input.Rest())
        && (if health == null then visit.value.t.event == None
            else Reported(visit.value.t.attempt, visit.value.t.event))
        && (visit.value.served && out.status.cacheResult != Hit ==>
              && Tried(visit.value.t, dialOk, out.b.addr, visit.value.fromBackend, old(HealthMap()))
              && Punctual(visit.value.t, old(clock.t), clock.t))
        && Sent(old(client.output.delivered), client.output.delivered, visit.value.t.body, visit.value.t.pong,
                out.status.pongHandled, out.status.err)
    {
      hide DecodePacket, DecodeHandshake, R.NormalizeHost, R.Resolution, HealthValid, HealthMap, RequestOutcome, Sent,
        Tried, Punctual, Used, Visited, PongOrigin, Silence, Excused, Reported, Replay, InTime, AfterEvent, Routed,
        Requested, NotRequested, Told, UsernameOf, LoginTrace.Session, K.Key, Piped, LoginRead, Judged;
      login, visit, replayed, up := None, None, 0, None;
      var packet, handshake, b, failed := ReadHandshake(client.input);
      if failed.Some? {
        out := failed.value;
        return;
      }
      assert HostOf(client.input.data) == R.NormalizeHost(handshake.address);
      if handshake.next == NEXT_STATUS {
        ghost var s := backend.input.Rest();
        var res;
        ghost var t, asked, served;
        res, t, asked, served := HandleStatus(client, backend, dialOk, b, handshake, packet);
        visit := Some(Request(b, handshake.address, handshake.protocol, dialOk, s, served, res, t, old(clock.t),
                              clock.t));
        out := StatusDone(b, res);
        return;
      } else if handshake.next == NEXT_LOGIN {
        var host := R.NormalizeHost(handshake.address);
        var res;
        ghost var calls;
        res, calls, replayed, up := HandleLogin(client, backend, dialOk, b, host, packet, ip);
        login := Some(Login(RouteOf(b, host), ip, res, calls));
        out := LoginDone(b, res);
        return;
      }
      out := Unsupported(b, handshake.next);
    }
  }
}
