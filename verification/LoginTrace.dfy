/** What a login session asks of and tells the guard, as a value, and what follows for any
    number of sessions, interleaved call by call: whoever is refused has earned it. */
module LoginTrace {
  import opened Wrappers
  import opened Bits
  import opened Messages
  import opened Packets
  import opened Pipe
  import B = BanAutomaton
  import G = Guard
  import Text

  // "ip" and "player".
  const IP: GoString := [105, 112]
  const PLAYER: GoString := [112, 108, 97, 121, 101, 114]

  datatype Fail2BanAction = NoAction | IpBanned | PlayerBanned | FailureAction | SuccessAction

  datatype LoginError = Banned | ReadLoginStart(e: PacketError) | DialFailed | ReplayFailed

  datatype LoginResult = LoginResult(stats: PipeStats, username: GoString, action: Fail2BanAction,
                                     err: Option<LoginError>)

  // The guard after a list of calls on it.
  function Replay(o: B.Options, m: map<G.Key, B.Entry>, calls: seq<G.Call>): map<G.Key, B.Entry> {
    if calls == [] then m else G.StepAll(o, Replay(o, m, calls[..|calls| - 1]), calls[|calls| - 1])
  }

  lemma ReplayOne(o: B.Options, m: map<G.Key, B.Entry>, calls: seq<G.Call>, c: G.Call)
    ensures Replay(o, m, calls + [c]) == G.StepAll(o, Replay(o, m, calls), c)
  {
    assert (calls + [c])[..|calls|] == calls;
  }

  lemma ReplayNone(o: B.Options, m: map<G.Key, B.Entry>)
    ensures Replay(o, m, []) == m
  {
  }

  // A session's calls go on the run of all calls before it.
  lemma {:induction false} ReplayExtendsRun(o: B.Options, h: seq<G.Call>, calls: seq<G.Call>)
    ensures Replay(o, G.RunAll(o, h), calls) == G.RunAll(o, h + calls)
  {
    hide G.StepAll;
    if calls == [] {
      assert h + calls == h;
    } else {
      var n := |calls| - 1;
      ReplayExtendsRun(o, h, calls[..n]);
      assert (h + calls)[..|h| + n] == h + calls[..n];
    }
  }

  // -------------------------------------------------------------- the times of calls

  // The calls read the clock one after the other, between `from` and `to`.
  ghost predicate InTime(calls: seq<G.Call>, from: int, to: int) {
    if calls == [] then from <= to
    else InTime(calls[..|calls| - 1], from, calls[|calls| - 1].now) && calls[|calls| - 1].now <= to
  }

  lemma InTimeLater(calls: seq<G.Call>, from: int, to: int, later: int)
    requires InTime(calls, from, to) && to <= later
    ensures InTime(calls, from, later)
  {
  }

  lemma InTimeMore(calls: seq<G.Call>, from: int, to: int, c: G.Call)
    requires InTime(calls, from, to) && to <= c.now
    ensures InTime(calls + [c], from, c.now)
  {
    assert (calls + [c])[..|calls|] == calls;
    InTimeLater(calls, from, to, c.now);
  }

  lemma {:induction false} InTimeOrder(calls: seq<G.Call>, from: int, to: int)
    requires InTime(calls, from, to)
    ensures from <= to && forall i :: 0 <= i < |calls| ==> from <= calls[i].now <= to
    ensures forall i, j :: 0 <= i < j < |calls| ==> calls[i].now <= calls[j].now
  {
    if calls != [] {
      InTimeOrder(calls[..|calls| - 1], from, calls[|calls| - 1].now);
    }
  }

  // ---------------------------------------------------------------- one login session

  // Ended before the backend was dialled.
  predicate Turned(err: Option<LoginError>) {
    err.Some? && (err.value == Banned || err.value.ReadLoginStart?)
  }

  // Call `k` asked about the key, and this was the answer.
  ghost predicate Asked(o: B.Options, before: map<G.Key, B.Entry>, calls: seq<G.Call>, k: nat, key: G.Key,
                        banned: bool) {
    && k < |calls| && calls[k].IsBanned? && calls[k].key == key
    && G.AnswerAll(o, Replay(o, before, calls[..k]), calls[k]) == banned
  }

  lemma AskedPrefix(o: B.Options, before: map<G.Key, B.Entry>, xs: seq<G.Call>, ys: seq<G.Call>, k: nat, key: G.Key,
                    banned: bool)
    requires Asked(o, before, xs, k, key, banned) && xs <= ys
    ensures Asked(o, before, ys, k, key, banned)
  {
    assert ys[..k] == xs[..k];
  }

  // Exactly these calls followed `from`: for the address and, if known, the player.
  ghost predicate Followed(from: seq<G.Call>, to: seq<G.Call>, route: GoString, ip: GoString, username: GoString,
                           failures: bool) {
    && from <= to && |to| == |from| + (if username == [] then 1 else 2)
    && (forall i :: |from| <= i < |to| ==> if failures then to[i].RecordFailure? else to[i].RecordSuccess?)
    && to[|from|].key == G.Key(route, IP, ip)
    && (username != [] ==> to[|from| + 1].key == G.Key(route, PLAYER, username))
  }

  // After the first `n` calls, the questions, only the verdict's calls follow: none if
  // the session never got to the backend.
  ghost predicate Booked(n: nat, calls: seq<G.Call>, route: GoString, ip: GoString, res: LoginResult) {
    && n <= |calls|
    && match res.err
       case None =>
         && Followed(calls[..n], calls, route, ip, res.username, res.action == FailureAction)
         && (res.action == FailureAction ==> res.stats.backendToClient == 0)
       case Some(ReplayFailed) =>
         && res.action == FailureAction
         && (|calls| == n || Followed(calls[..n], calls, route, ip, res.username, true))
       case Some(_) => |calls| == n
  }

  // When a session counts as a failure, if it took `span` in all and the first `n` calls
  // are its questions.  Behind the pipe: only on an enabled guard and if the backend sent
  // nothing, and then surely if it was all over within EarlyDisconnect.  With the replay
  // broken off, failures are recorded only on an enabled guard, and then surely within
  // EarlyDisconnect.
  ghost predicate Judged(o: B.Options, span: int, n: nat, calls: seq<G.Call>, res: LoginResult) {
    && (res.err == None ==>
          && (res.action == FailureAction ==> o.enabled && res.stats.backendToClient == 0)
          && (o.enabled && res.stats.backendToClient == 0 && span <= o.earlyDisconnect ==> res.action == FailureAction))
    && (res.err == Some(ReplayFailed) ==>
          && (|calls| > n ==> o.enabled)
          && (o.enabled && span <= o.earlyDisconnect ==> |calls| > n))
  }

  datatype Login = Login(route: GoString, ip: GoString, res: LoginResult, calls: seq<G.Call>)

  function Questions(l: Login): nat {
    if l.res.username == [] then 1 else 2
  }

  // All there is to a session on the guard: it asks about the address, then about the
  // player once known, is refused exactly on the answer, and else books its verdict; in
  // the order of the clock.
  ghost predicate Session(o: B.Options, before: map<G.Key, B.Entry>, since: int, until: int, l: Login) {
    && InTime(l.calls, since, until)
    && Asked(o, before, l.calls, 0, G.Key(l.route, IP, l.ip), l.res.action == IpBanned)
    && (l.res.username != [] ==>
          Asked(o, before, l.calls, 1, G.Key(l.route, PLAYER, l.res.username), l.res.action == PlayerBanned))
    && (l.res.action == IpBanned ==> l.res.username == [])
    && (l.res.action == PlayerBanned ==> l.res.username != [])
    && (l.res.err == Some(Banned) <==> l.res.action in {IpBanned, PlayerBanned})
    && Booked(Questions(l), l.calls, l.route, l.ip, l.res)
  }

  // What a session that reached its backend books, call by call behind its questions: for
  // the address and, if there is a name, for the player, failures if it counts as one and
  // else successes; and nothing more.
  lemma VerdictBooked(o: B.Options, before: map<G.Key, B.Entry>, since: int, until: int, l: Login)
    requires Session(o, before, since, until, l) && l.res.err == None
    ensures |l.calls| == if l.res.username == [] then 2 else 4
    ensures var q := |l.calls| / 2;
      && l.calls[q].key == G.Key(l.route, [105, 112], l.ip)
      && (q == 2 ==> l.calls[3].key == G.Key(l.route, [112, 108, 97, 121, 101, 114], l.res.username))
      && (forall i :: q <= i < |l.calls| ==>
            if l.res.action == FailureAction then l.calls[i].RecordFailure? else l.calls[i].RecordSuccess?)
  {
    hide Asked, InTime;
  }

  // A key of the session that is banned when the session begins, until after its end, is
  // found banned: the address at once, the player as soon as the name is known.
  lemma BannedAddressRefused(o: B.Options, before: map<G.Key, B.Entry>, since: int, until: int, l: Login)
    requires Session(o, before, since, until, l) && o.enabled && !Text.Blank(l.ip)
    requires var k := G.Key(l.route, [105, 112], G.Normalize(l.ip)); k in before && until < before[k].bannedUntil
    ensures l.res.action == IpBanned && l.res.err == Some(Banned)
  {
    hide G.Normalize, Booked;
    G.BlankIff(l.ip);
    InTimeOrder(l.calls, since, until);
    ReplayNone(o, before);
    assert l.calls[..0] == [];
    BannedAnswer(o, before, l.calls[0]);
  }

  lemma BannedPlayerRefused(o: B.Options, before: map<G.Key, B.Entry>, since: int, until: int, l: Login)
    requires Session(o, before, since, until, l) && o.enabled && l.res.action != IpBanned
    requires !Text.Blank(l.res.username)
    requires var k := G.Key(l.route, [112, 108, 97, 121, 101, 114], G.Normalize(l.res.username));
      k in before && until < before[k].bannedUntil
    ensures l.res.action == PlayerBanned && l.res.err == Some(Banned)
  {
    hide G.Normalize, Booked, G.StepAll, G.AnswerAll;
    G.BlankIff(l.res.username);
    InTimeOrder(l.calls, since, until);
    ReplayNone(o, before);
    ReplayOne(o, before, [], l.calls[0]);
    assert l.calls[..1] == [] + [l.calls[0]];
    OtherKeyKept(o, before, l.calls[0], G.Normalized(l.calls[1].key));
    BannedAnswer(o, Replay(o, before, l.calls[..1]), l.calls[1]);
  }

  lemma BannedAnswer(o: B.Options, m: map<G.Key, B.Entry>, c: G.Call)
    requires c.IsBanned? && o.enabled && G.Normalize(c.key.value) != []
    requires G.Normalized(c.key) in m && c.now < m[G.Normalized(c.key)].bannedUntil
    ensures G.AnswerAll(o, m, c)
  {
    hide G.Normalize;
  }

  lemma OtherKeyKept(o: B.Options, m: map<G.Key, B.Entry>, c: G.Call, k: G.Key)
    requires k in m && G.Normalized(c.key) != k
    ensures k in G.StepAll(o, m, c) && G.StepAll(o, m, c)[k] == m[k]
  {
    hide G.Normalize;
  }

  // ------------------------------------------------------------------ runs of sessions

  // What happens to a guard: login sessions, and keys unbanned by hand.
  datatype Deed =
    | Visit(since: int, until: int, login: Login)
    | Lift(since: int, until: int, call: G.Call)

  function CallsOf(d: Deed): seq<G.Call> {
    match d
    case Visit(_, _, l) => l.calls
    case Lift(_, _, c) => [c]
  }

  function AllCalls(ds: seq<Deed>): seq<G.Call> {
    if ds == [] then [] else AllCalls(ds[..|ds| - 1]) + CallsOf(ds[|ds| - 1])
  }

  ghost predicate Done(o: B.Options, before: map<G.Key, B.Entry>, d: Deed) {
    match d
    case Visit(since, until, l) => Session(o, before, since, until, l)
    case Lift(since, until, c) => c.Unban? && InTime([c], since, until)
  }

  // Deed `i` is done to what the ones before it left, and after them.
  ghost predicate InTurn(o: B.Options, ds: seq<Deed>, i: nat)
    requires i < |ds|
  {
    && Done(o, G.RunAll(o, AllCalls(ds[..i])), ds[i])
    && (if i == 0 then 0 < ds[0].since else ds[i - 1].until <= ds[i].since)
  }

  // One after the other, from a new guard on.
  ghost predicate Happened(o: B.Options, ds: seq<Deed>) {
    forall i: nat :: i < |ds| ==> InTurn(o, ds, i)
  }

  lemma InTurnPrefix(o: B.Options, ds: seq<Deed>, n: nat, i: nat)
    requires i < n <= |ds| && InTurn(o, ds, i)
    ensures InTurn(o, ds[..n], i)
  {
    hide Done, G.RunAll, AllCalls;
    assert ds[..n][..i] == ds[..i];
  }

  lemma HappenedPrefix(o: B.Options, ds: seq<Deed>, n: nat)
    requires n <= |ds| && Happened(o, ds)
    ensures Happened(o, ds[..n])
  {
    hide InTurn;
    forall i: nat | i < n ensures InTurn(o, ds[..n], i) {
      InTurnPrefix(o, ds, n, i);
    }
  }

  // A deed done to what a run left, and after it, makes a longer run; what it leaves is
  // what its calls make of that.
  lemma RunGrows(o: B.Options, ds: seq<Deed>, d: Deed)
    requires Happened(o, ds) && Done(o, G.RunAll(o, AllCalls(ds)), d)
    requires if ds == [] then 0 < d.since else ds[|ds| - 1].until <= d.since
    ensures Happened(o, ds + [d])
    ensures G.RunAll(o, AllCalls(ds + [d])) == Replay(o, G.RunAll(o, AllCalls(ds)), CallsOf(d))
  {
    hide Done, G.RunAll, Replay;
    var all := ds + [d];
    assert all[..|ds|] == ds;
    forall i: nat | i < |all| ensures InTurn(o, all, i) {
      if i < |ds| {
        assert InTurn(o, ds, i) && all[..i] == ds[..i] && all[i] == ds[i];
        assert i > 0 ==> all[i - 1] == ds[i - 1];
      }
    }
    ReplayExtendsRun(o, AllCalls(ds), CallsOf(d));
  }

  lemma DoneInTime(o: B.Options, before: map<G.Key, B.Entry>, d: Deed)
    requires Done(o, before, d)
    ensures InTime(CallsOf(d), d.since, d.until)
  {
  }

  ghost predicate UpTo(calls: seq<G.Call>, t: int) {
    G.OrderedCalls(calls) && forall i :: 0 <= i < |calls| ==> calls[i].now <= t
  }

  lemma UpToMore(a: seq<G.Call>, b: seq<G.Call>, t: int, from: int, to: int)
    requires UpTo(a, t) && 0 < from && t <= from && InTime(b, from, to)
    ensures UpTo(a + b, to)
  {
    hide InTime;
    InTimeOrder(b, from, to);
  }

  // The calls of a run are in the order of the clock, as the theorems on runs require.
  lemma {:induction false} RunOrdered(o: B.Options, ds: seq<Deed>)
    requires Happened(o, ds)
    ensures UpTo(AllCalls(ds), if ds == [] then 0 else ds[|ds| - 1].until)
    ensures ds != [] ==> 0 < ds[|ds| - 1].until
  {
    hide Done, InTime, UpTo;
    if ds == [] {
      NothingUpTo();
    } else {
      var n := |ds| - 1;
      HappenedPrefix(o, ds, n);
      assert InTurn(o, ds, n);
      RunOrdered(o, ds[..n]);
      DoneInTime(o, G.RunAll(o, AllCalls(ds[..n])), ds[n]);
      InTimeOrder(CallsOf(ds[n]), ds[n].since, ds[n].until);
      assert n > 0 ==> ds[..n][n - 1] == ds[n - 1];
      UpToMore(AllCalls(ds[..n]), CallsOf(ds[n]), if n == 0 then 0 else ds[n - 1].until, ds[n].since, ds[n].until);
    }
  }

  lemma NothingUpTo()
    ensures UpTo([], 0)
  {
  }

  // -------------------------------------------------- sessions on many connections

  // What a session on its own does, whatever happens in between: its questions, then the
  // calls of its verdict.
  ghost predicate Shape(l: Login) {
    && |l.calls| >= Questions(l)
    && l.calls[0].IsBanned? && l.calls[0].key == G.Key(l.route, IP, l.ip)
    && (l.res.username != [] ==> l.calls[1].IsBanned? && l.calls[1].key == G.Key(l.route, PLAYER, l.res.username))
    && Booked(Questions(l), l.calls, l.route, l.ip, l.res)
  }

  // The answer its outcome says it had to its question `x`.
  predicate Refused(l: Login, x: nat) {
    if x == 0 then l.res.action == IpBanned else l.res.action == PlayerBanned
  }

  // How many of the first `n` calls are those of session `s`.
  function Earlier(who: seq<nat>, s: nat, n: nat): nat
    requires n <= |who|
  {
    if n == 0 then 0 else Earlier(who, s, n - 1) + if who[n - 1] == s then 1 else 0
  }

  // Call `n` is the next one of its session, and a question is answered as the guard
  // answers after all the calls before it; any other call unbans a key by hand.
  ghost predicate Made(o: B.Options, calls: seq<G.Call>, who: seq<nat>, logins: map<nat, Login>, n: nat)
    requires n < |calls| == |who|
  {
    if who[n] in logins then
      var l, x := logins[who[n]], Earlier(who, who[n], n);
      && x < |l.calls| && calls[n] == l.calls[x]
      && (calls[n].IsBanned? ==> G.AnswerAll(o, G.RunAll(o, calls[..n]), calls[n]) == Refused(l, x))
    else calls[n].Unban?
  }

  // The calls of any number of sessions, interleaved; some may still be under way.
  ghost predicate Interleaved(o: B.Options, calls: seq<G.Call>, who: seq<nat>, logins: map<nat, Login>) {
    && |who| == |calls| && G.OrderedCalls(calls)
    && (forall s :: s in logins ==> Shape(logins[s]))
    && (forall n: nat :: n < |calls| ==> Made(o, calls, who, logins, n))
  }

  // The session ended in failure, under the key's route and for its address or player.
  ghost predicate FailedFor(l: Login, k: G.Key) {
    && l.res.action == FailureAction
    && (G.Normalized(G.Key(l.route, IP, l.ip)) == k
        || (l.res.username != [] && G.Normalized(G.Key(l.route, PLAYER, l.res.username)) == k))
  }

  lemma FailureOfSession(l: Login, x: nat)
    requires Shape(l) && x < |l.calls| && l.calls[x].RecordFailure?
    ensures Questions(l) <= x <= Questions(l) + 1 && FailedFor(l, G.Normalized(l.calls[x].key))
    ensures x == Questions(l) ==> l.calls[x].key.kind == IP
    ensures x == Questions(l) + 1 ==> l.calls[x].key.kind == PLAYER
  {
    hide G.Normalize;
  }

  lemma KindsDiffer()
    ensures IP != PLAYER
  {
    assert IP[0] != PLAYER[0];
  }

  // Every failure in the run is recorded by a session that ended in failure for the key.
  lemma FailuresAreFailedLogins(o: B.Options, calls: seq<G.Call>, who: seq<nat>, logins: map<nat, Login>, m: nat)
    requires Interleaved(o, calls, who, logins) && m < |calls| && calls[m].RecordFailure?
    ensures m < |who|
    ensures who[m] in logins && FailedFor(logins[who[m]], G.Normalized(calls[m].key))
  {
    hide G.AnswerAll, G.RunAll, Shape, FailedFor, G.Normalize, G.OrderedCalls;
    assert Made(o, calls, who, logins, m);
    FailureOfSession(logins[who[m]], Earlier(who, who[m], m));
  }

  lemma {:induction false} EarlierGrows(who: seq<nat>, s: nat, m: nat, n: nat)
    requires m < n <= |who| && who[m] == s
    ensures Earlier(who, s, m) < Earlier(who, s, n)
  {
    if m < n - 1 {
      EarlierGrows(who, s, m, n - 1);
    }
  }

  // No session records two failures under one key.
  lemma OneFailureEach(o: B.Options, calls: seq<G.Call>, who: seq<nat>, logins: map<nat, Login>, m: nat, n: nat)
    requires Interleaved(o, calls, who, logins) && m < n < |calls| && |who| == |calls| && who[m] == who[n]
    requires calls[m].RecordFailure? && calls[n].RecordFailure?
    ensures G.Normalized(calls[m].key) != G.Normalized(calls[n].key)
  {
    hide G.AnswerAll, G.RunAll, Shape, FailedFor, G.Normalize, G.OrderedCalls, Earlier;
    assert Made(o, calls, who, logins, m) && Made(o, calls, who, logins, n);
    var l := logins[who[m]];
    EarlierGrows(who, who[m], m, n);
    FailureOfSession(l, Earlier(who, who[m], m));
    FailureOfSession(l, Earlier(who, who[n], n));
    KindsDiffer();
  }

  // The failures of a key among calls `p` to `q`.
  function Failures(o: B.Options, calls: seq<G.Call>, k: G.Key, p: nat, q: nat): set<nat>
    requires p <= q <= |calls|
  {
    set m: nat | p <= m < q && FailsOn(o, calls[m], k)
  }

  predicate FailsOn(o: B.Options, c: G.Call, k: G.Key) {
    c.RecordFailure? && G.OnKey(o, c, k)
  }

  lemma FailuresMore(o: B.Options, calls: seq<G.Call>, k: G.Key, p: nat, q: nat)
    requires p < q <= |calls|
    ensures |Failures(o, calls, k, p, q)|
      == |Failures(o, calls, k, p, q - 1)| + if FailsOn(o, calls[q - 1], k) then 1 else 0
  {
    hide G.OnKey;
    var before := Failures(o, calls, k, p, q - 1);
    assert Failures(o, calls, k, p, q) == if FailsOn(o, calls[q - 1], k) then before + {q - 1} else before;
  }

  lemma CountMore(o: B.Options, calls: seq<G.Call>, c: G.Call, k: G.Key)
    ensures B.CountFails(G.Project(o, calls + [c], k))
      == B.CountFails(G.Project(o, calls, k)) + if FailsOn(o, c, k) then 1 else 0
  {
    hide G.Acts, G.Normalized;
    var all, evs := calls + [c], G.Project(o, calls, k);
    assert all[..|calls|] == calls;
    if G.OnKey(o, c, k) {
      assert (evs + [G.EventOf(c)])[..|evs|] == evs;
    } else {
      assert evs + [] == evs;
    }
  }

  lemma NoFailures(o: B.Options, calls: seq<G.Call>, k: G.Key, p: nat)
    requires p <= |calls|
    ensures |Failures(o, calls, k, p, p)| == 0 == B.CountFails(G.Project(o, [], k))
  {
    assert Failures(o, calls, k, p, p) == {};
  }

  lemma {:induction false} FailuresCounted(o: B.Options, calls: seq<G.Call>, k: G.Key, p: nat, q: nat)
    requires p <= q <= |calls|
    ensures |Failures(o, calls, k, p, q)| == B.CountFails(G.Project(o, calls[p..q], k))
  {
    hide Failures, FailsOn, G.Project, B.CountFails;
    if p == q {
      NoFailures(o, calls, k, p);
      assert calls[p..q] == [];
    } else {
      FailuresCounted(o, calls, k, p, q - 1);
      FailuresMore(o, calls, k, p, q);
      CountMore(o, calls[p..q - 1], calls[q - 1], k);
      assert calls[p..q] == calls[p..q - 1] + [calls[q - 1]];
    }
  }

  lemma {:induction false} ImageSize(ms: set<nat>, who: seq<nat>) returns (image: set<nat>)
    requires forall m :: m in ms ==> m < |who|
    requires forall m, n :: m in ms && n in ms && m < n ==> who[m] != who[n]
    ensures |image| == |ms|
    ensures forall s :: s in image <==> exists m :: m in ms && who[m] == s
    decreases |ms|
  {
    image := {};
    if ms != {} {
      var m :| m in ms;
      var rest := ImageSize(ms - {m}, who);
      image := rest + {who[m]};
    }
  }

  // The sessions behind the failures of a key: as many as there are failures.
  lemma FailingSessions(o: B.Options, calls: seq<G.Call>, who: seq<nat>, logins: map<nat, Login>, k: G.Key, p: nat,
                        q: nat)
    returns (failed: set<nat>)
    requires Interleaved(o, calls, who, logins) && p <= q <= |calls|
    ensures |failed| == |Failures(o, calls, k, p, q)|
    ensures forall s :: s in failed ==> s in logins && FailedFor(logins[s], k)
    ensures |who| == |calls|
    ensures forall s :: s in failed ==> exists m :: m in Failures(o, calls, k, p, q) && who[m] == s
  {
    hide G.OnKey, G.Normalized, FailedFor, Interleaved;
    var ms := Failures(o, calls, k, p, q);
    assert |who| == |calls| by { SameLength(o, calls, who, logins); }
    forall i, j | i in ms && j in ms && i < j ensures who[i] != who[j] {
      if who[i] == who[j] {
        SameKey(o, calls[i], calls[j], k);
        OneFailureEach(o, calls, who, logins, i, j);
      }
    }
    failed := ImageSize(ms, who);
    forall s | s in failed ensures s in logins && FailedFor(logins[s], k) {
      var m :| m in ms && who[m] == s;
      SameKey(o, calls[m], calls[m], k);
      FailuresAreFailedLogins(o, calls, who, logins, m);
    }
  }

  lemma SameLength(o: B.Options, calls: seq<G.Call>, who: seq<nat>, logins: map<nat, Login>)
    requires Interleaved(o, calls, who, logins)
    ensures |who| == |calls|
  {
  }

  // Over every interleaving of sessions, whoever is refused, by address or as a player, has
  // earned it: there is a cause in the calls before, and at least MaxFailures different
  // sessions ended in failure for that route and that address or player, each with its
  // failure recorded in the cause.
  lemma RefusedForCause(o: B.Options, calls: seq<G.Call>, who: seq<nat>, logins: map<nat, Login>, n: nat)
    returns (p: nat, q: nat, failed: set<nat>)
    requires B.Sane(o) && Interleaved(o, calls, who, logins)
    requires n < |calls| && who[n] in logins && calls[n].IsBanned?
    requires Refused(logins[who[n]], Earlier(who, who[n], n))
    ensures G.Cause(o, calls[..n], G.Normalized(calls[n].key), calls[n].now, p, q)
    ensures |failed| >= o.maxFailures
    ensures forall s :: s in failed ==> s in logins && FailedFor(logins[s], G.Normalized(calls[n].key))
    ensures forall s :: s in failed ==>
      exists m :: m in Failures(o, calls, G.Normalized(calls[n].key), p, q + 1) && who[m] == s
  {
    hide G.RunAll, G.AnswerAll, G.OrderedCalls, G.OnKey, G.Normalized, FailedFor, Failures;
    var k := G.Normalized(calls[n].key);
    assert Made(o, calls, who, logins, n);
    OrderedUpto(calls, n + 1);
    assert calls[..n + 1] == calls[..n] + [calls[n]];
    p, q := G.BanHasCause(o, calls[..n], calls[n].key, calls[n].now);
    assert calls[..n][p..q + 1] == calls[p..q + 1];
    FailuresCounted(o, calls, k, p, q + 1);
    failed := FailingSessions(o, calls, who, logins, k, p, q + 1);
  }

  lemma SameKey(o: B.Options, c: G.Call, d: G.Call, k: G.Key)
    requires G.OnKey(o, c, k) && G.OnKey(o, d, k)
    ensures G.Normalized(c.key) == k == G.Normalized(d.key)
  {
  }

  lemma OrderedUpto(calls: seq<G.Call>, n: nat)
    requires n <= |calls| && G.OrderedCalls(calls)
    ensures G.OrderedCalls(calls[..n])
  {
  }

  // ------------------------------------------------------ one after the other is one way

  function Owners(ds: seq<Deed>): (who: seq<nat>)
    ensures |who| == |AllCalls(ds)|
  {
    if ds == [] then [] else Owners(ds[..|ds| - 1]) + seq(|CallsOf(ds[|ds| - 1])|, _ => |ds| - 1)
  }

  function LoginsOf(ds: seq<Deed>): map<nat, Login> {
    map s: nat | s < |ds| && ds[s].Visit? :: ds[s].login
  }

  lemma {:induction false} OwnersKnown(ds: seq<Deed>)
    ensures forall s :: s in Owners(ds) ==> s < |ds|
  {
    if ds != [] {
      OwnersKnown(ds[..|ds| - 1]);
    }
  }

  lemma {:induction false} EarlierNone(who: seq<nat>, s: nat, n: nat)
    requires n <= |who| && s !in who[..n]
    ensures Earlier(who, s, n) == 0
  {
    if n > 0 {
      assert who[..n][n - 1] == who[n - 1] && who[..n - 1] == who[..n][..n - 1];
      EarlierNone(who, s, n - 1);
    }
  }

  lemma {:induction false} EarlierLocal(who: seq<nat>, more: seq<nat>, s: nat, n: nat)
    requires n <= |who|
    ensures Earlier(who + more, s, n) == Earlier(who, s, n)
  {
    if n > 0 {
      EarlierLocal(who, more, s, n - 1);
    }
  }

  lemma {:induction false} EarlierInBlock(front: seq<nat>, s: nat, size: nat, x: nat)
    requires s !in front && x <= size
    ensures Earlier(front + seq(size, _ => s), s, |front| + x) == x
  {
    var who := front + seq(size, _ => s);
    if x == 0 {
      assert who[..|front|] == front;
      EarlierNone(who, s, |front|);
    } else {
      EarlierInBlock(front, s, size, x - 1);
      assert who[|front| + x - 1] == s;
    }
  }

  lemma SessionShape(o: B.Options, before: map<G.Key, B.Entry>, since: int, until: int, l: Login)
    requires Session(o, before, since, until, l)
    ensures Shape(l)
    ensures G.AnswerAll(o, Replay(o, before, l.calls[..0]), l.calls[0]) == Refused(l, 0)
    ensures l.res.username != [] ==> G.AnswerAll(o, Replay(o, before, l.calls[..1]), l.calls[1]) == Refused(l, 1)
    ensures forall x :: Questions(l) <= x < |l.calls| ==> !l.calls[x].IsBanned?
  {
    hide G.AnswerAll, Replay, InTime;
  }

  // The calls of the last deed of a run are made as those of a session are.
  lemma MadeLast(o: B.Options, ds: seq<Deed>, x: nat)
    requires ds != [] && Happened(o, ds) && x < |CallsOf(ds[|ds| - 1])|
    ensures |AllCalls(ds)| == |Owners(ds)| == |AllCalls(ds[..|ds| - 1])| + |CallsOf(ds[|ds| - 1])|
    ensures Made(o, AllCalls(ds), Owners(ds), LoginsOf(ds), |AllCalls(ds[..|ds| - 1])| + x)
  {
    hide G.AnswerAll, Session, Replay, G.RunAll, Earlier, Refused;
    var last := |ds| - 1;
    var before, d := AllCalls(ds[..last]), ds[last];
    assert InTurn(o, ds, last);
    OwnersKnown(ds[..last]);
    EarlierInBlock(Owners(ds[..last]), last, |CallsOf(d)|, x);
    assert AllCalls(ds)[..|before| + x] == before + CallsOf(d)[..x];
    if d.Visit? && d.login.calls[x].IsBanned? {
      AnswerOf(o, before, d, x);
    }
  }

  lemma AnswerOf(o: B.Options, before: seq<G.Call>, d: Deed, x: nat)
    requires d.Visit? && Done(o, G.RunAll(o, before), d)
    requires x < |d.login.calls| && d.login.calls[x].IsBanned?
    ensures G.AnswerAll(o, G.RunAll(o, before + d.login.calls[..x]), d.login.calls[x]) == Refused(d.login, x)
  {
    hide G.AnswerAll, Session, Replay, G.RunAll, Refused, Shape;
    SessionShape(o, G.RunAll(o, before), d.since, d.until, d.login);
    ReplayExtendsRun(o, before, d.login.calls[..x]);
  }

  lemma MadeBefore(o: B.Options, ds: seq<Deed>, n: nat)
    requires ds != [] && n < |AllCalls(ds[..|ds| - 1])|
    requires Made(o, AllCalls(ds[..|ds| - 1]), Owners(ds[..|ds| - 1]), LoginsOf(ds[..|ds| - 1]), n)
    ensures Made(o, AllCalls(ds), Owners(ds), LoginsOf(ds), n)
  {
    hide G.AnswerAll, G.RunAll, Earlier, Refused;
    var last := |ds| - 1;
    var who := Owners(ds[..last]);
    OwnersKnown(ds[..last]);
    assert who[n] in who;
    EarlierLocal(who, seq(|CallsOf(ds[last])|, _ => last), who[n], n);
    assert AllCalls(ds)[..n] == AllCalls(ds[..last])[..n];
  }

  // Sessions one after the other are interleaved, trivially, so the theorems above are
  // about the runs HandleLogin makes.
  lemma {:induction false} HappenedInterleaved(o: B.Options, ds: seq<Deed>)
    requires Happened(o, ds)
    ensures Interleaved(o, AllCalls(ds), Owners(ds), LoginsOf(ds))
  {
    hide Made, Shape, InTurn, G.OrderedCalls;
    RunOrdered(o, ds);
    ShapesOf(o, ds);
    if ds != [] {
      var last := |ds| - 1;
      HappenedPrefix(o, ds, last);
      HappenedInterleaved(o, ds[..last]);
      forall n: nat | n < |AllCalls(ds)| ensures Made(o, AllCalls(ds), Owners(ds), LoginsOf(ds), n) {
        if n < |AllCalls(ds[..last])| {
          MadeBefore(o, ds, n);
        } else {
          MadeLast(o, ds, n - |AllCalls(ds[..last])|);
        }
      }
    }
  }

  lemma ShapesOf(o: B.Options, ds: seq<Deed>)
    requires Happened(o, ds)
    ensures forall s :: s in LoginsOf(ds) ==> Shape(LoginsOf(ds)[s])
  {
    hide Shape, Session, G.RunAll, AllCalls;
    forall s | s in LoginsOf(ds) ensures Shape(LoginsOf(ds)[s]) {
      assert InTurn(o, ds, s);
      SessionShape(o, G.RunAll(o, AllCalls(ds[..s])), ds[s].since, ds[s].until, ds[s].login);
    }
  }
}
