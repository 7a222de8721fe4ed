/** What a status session does, as a value: the cache operations it makes, the attempt on
    the backend, and the bytes it means the client to have.  Of sessions that overlap it
    says exactly when the cache betrays that it evicts; sessions one after the other never
    make it.  A session keeps the health checker to one event per attempt. */
module StatusTrace {
  import opened Wrappers
  import opened Bits
  import opened Packets
  import opened Messages
  import C = Cache
  import H = Health
  import T = HealthTraffic

  datatype CacheResult = Disabled | Miss | Hit | FallbackHit

  datatype BackendError =
    | Unreachable
    | NotReplayed
    | NoResponse(e: PacketError)
    | UnexpectedResponse(id: int32)

  datatype StatusError =
    | ReadRequest(e: PacketError)
    | UnexpectedRequest(id: int32)
    | ClientWrite
    | BadPing
    | PingRelay
    | Unavailable
    | BackendFailed(b: BackendError)

  datatype StatusResult = StatusResult(cacheResult: CacheResult, fallbackUsed: bool, pongHandled: bool,
                                       err: Option<StatusError>)

  type Attempt = Option<Result<Packet, BackendError>>

  // `askedAt` is when the checker was asked about the backend, if it was.
  datatype Trace = Trace(ops: seq<C.Op>, askedAt: int, attempt: Attempt, event: Option<H.Event>, body: seq<byte>,
                         pong: seq<byte>)

  // What an attempt on a backend that will send `s` can come to.
  ghost predicate Attempted(a: Result<Packet, BackendError>, dialOk: bool, s: seq<byte>, maxLen: int) {
    var o := DecodePacket(s, maxLen);
    match a
    case Err(Unreachable) => !dialOk
    case Err(NotReplayed) => dialOk
    case Err(NoResponse(e)) => dialOk && (Interrupted(e) || (o.Bad? && o.err == e))
    case Err(UnexpectedResponse(id)) => dialOk && o.Got? && o.p.id == id != STATUS_RESPONSE_ID
    case Ok(p) => dialOk && o == Got(p) && p.id == STATUS_RESPONSE_ID
  }

  // The pong the proxy itself makes of a client that goes on with `s`.
  ghost predicate CachedPong(s: seq<byte>, maxLen: int, pong: seq<byte>) {
    var o := DecodePacket(s, maxLen);
    o.Got? && o.p.id == STATUS_PING_ID && |o.p.data| == 8 && pong == NewPacket(STATUS_PONG_ID, o.p.data).raw
  }

  // The client has the front of `body` and then `pong`; all of it, unless there was an error.
  ghost predicate Sent(before: seq<byte>, after: seq<byte>, body: seq<byte>, pong: seq<byte>, handled: bool,
                       err: Option<StatusError>) {
    && before <= after <= before + body + pong
    && (err == None ==> after == before + body + if handled then pong else [])
    && (handled ==> err == None && pong != [])
  }

  // ------------------------------------------------------------------- the cache's side

  function Ran(json: C.Json, m: C.Table, ops: seq<C.Op>): C.Table {
    if ops == [] then m else C.Step(json, Ran(json, m, ops[..|ops| - 1]), ops[|ops| - 1])
  }

  // A session asks the cache first; only if that missed it asks for a fallback or stores
  // a response, and never both.
  ghost predicate Session(json: C.Json, m: C.Table, ops: seq<C.Op>) {
    && |ops| <= 2
    && (|ops| >= 1 ==> ops[0].Get?)
    && (|ops| == 2 ==> !ops[1].Get? && ops[1].key == ops[0].key && C.Answer(json, m, ops[0]) == None)
  }

  // The operations come one after the other, between `from` and `to`.
  ghost predicate Spaced(ops: seq<C.Op>, from: int, to: int) {
    && from <= to
    && (|ops| >= 1 ==> from <= ops[0].at <= C.End(ops[0]) <= to)
    && (|ops| >= 2 ==> C.End(ops[0]) <= ops[1].at <= C.End(ops[1]) <= to)
  }

  function Flat(sessions: seq<seq<C.Op>>): seq<C.Op> {
    if sessions == [] then [] else Flat(sessions[..|sessions| - 1]) + sessions[|sessions| - 1]
  }

  // The session an operation of a run belongs to.
  lemma {:induction false} Locate(sessions: seq<seq<C.Op>>, j: nat) returns (i: nat, x: nat)
    requires j < |Flat(sessions)|
    ensures i < |sessions| && x < |sessions[i]| && sessions[i][x] == Flat(sessions)[j]
  {
    var n := |sessions| - 1;
    var before := Flat(sessions[..n]);
    if j < |before| {
      i, x := Locate(sessions[..n], j);
    } else {
      i, x := n, j - |before|;
    }
  }

  // A run of sessions, each against the table the ones before it left.
  ghost predicate Sessions(json: C.Json, sessions: seq<seq<C.Op>>) {
    forall i :: 0 <= i < |sessions| ==> Session(json, C.Run(json, Flat(sessions[..i])), sessions[i])
  }

  lemma {:induction false} RanIsRun(json: C.Json, h: seq<C.Op>, ops: seq<C.Op>)
    ensures Ran(json, C.Run(json, h), ops) == C.Run(json, h + ops)
  {
    hide C.Step;
    if ops == [] {
      assert h + ops == h;
    } else {
      var n := |ops| - 1;
      RanIsRun(json, h, ops[..n]);
      assert (h + ops)[..|h| + n] == h + ops[..n];
    }
  }

  lemma OrderedSoFar(json: C.Json, h: seq<C.Op>, op: C.Op)
    requires C.HandlerOrder(json, h)
    requires op.Fallback? ==> op.key in C.Missed(json, h)
    ensures C.HandlerOrder(json, h + [op])
  {
    forall i | 0 <= i < |h + [op]| && (h + [op])[i].Fallback?
      ensures (h + [op])[i].key in C.Missed(json, (h + [op])[..i])
    {
      assert (h + [op])[..i] == h[..i];
      if i == |h| {
        assert h[..i] == h;
      }
    }
  }

  lemma SessionKeepsOrder(json: C.Json, h: seq<C.Op>, ops: seq<C.Op>)
    requires C.HandlerOrder(json, h) && Session(json, C.Run(json, h), ops)
    ensures C.HandlerOrder(json, h + ops)
  {
    hide C.HandlerOrder;
    if |ops| == 0 {
      assert h + ops == h;
    } else {
      var g := h + [ops[0]];
      OrderedSoFar(json, h, ops[0]);
      if |ops| == 1 {
        assert h + ops == g;
      } else {
        assert g[..|g| - 1] == h;
        assert C.Missed(json, g) == C.MissedAfter(json, C.Run(json, h), C.Missed(json, h), ops[0]);
        OrderedSoFar(json, g, ops[1]);
        assert h + ops == g + [ops[1]];
      }
    }
  }

  lemma {:induction false} SessionsKeepOrder(json: C.Json, sessions: seq<seq<C.Op>>)
    requires Sessions(json, sessions)
    ensures C.HandlerOrder(json, Flat(sessions))
  {
    hide C.HandlerOrder, Session;
    if sessions == [] {
      NothingInOrder(json);
    } else {
      var n := |sessions| - 1;
      forall i | 0 <= i < n ensures Session(json, C.Run(json, Flat(sessions[..n][..i])), sessions[..n][i]) {
        assert sessions[..n][..i] == sessions[..i];
      }
      SessionsKeepOrder(json, sessions[..n]);
      SessionKeepsOrder(json, Flat(sessions[..n]), sessions[n]);
    }
  }

  lemma NothingInOrder(json: C.Json)
    ensures C.HandlerOrder(json, [])
  {
  }

  // ------------------------------------------------------------ overlapping sessions

  // Sessions of any number of connections, their operations interleaved: every operation
  // but a Get is the one a session does after its own Get, `own(j)`, missed the same key.
  ghost predicate Overlapping(json: C.Json, ops: seq<C.Op>, own: nat -> nat) {
    && (forall j: nat :: j < |ops| && !ops[j].Get? ==> FollowsMiss(json, ops, own(j), j))
    && (forall i: nat, j: nat :: i < j < |ops| && !ops[i].Get? && !ops[j].Get? ==> own(i) != own(j))
  }

  ghost predicate FollowsMiss(json: C.Json, ops: seq<C.Op>, i: nat, j: nat) {
    && i < j < |ops| && ops[i].Get? && ops[i].key == ops[j].key
    && C.Answer(json, C.Run(json, ops[..i]), ops[i]) == None
  }

  // Between its miss and its fallback another session stored a response without a
  // description, which is still fresh and the last stored under the key.
  ghost predicate Intruded(json: C.Json, ops: seq<C.Op>, own: nat -> nat, j: nat) {
    && j < |ops| && ops[j].Fallback?
    && exists l: nat :: own(j) < l && C.Undescribed(json, ops, l, j)
  }

  // What was last stored before `j` and is fresh then was stored after a miss at `i`.
  lemma StoredAfterMiss(json: C.Json, ops: seq<C.Op>, i: nat, j: nat, l: nat)
    requires C.Ordered(ops) && FollowsMiss(json, ops, i, j) && C.AllHarmless(json, ops[..i])
    requires C.Undescribed(json, ops, l, j)
    ensures i < l
  {
    hide C.AllHarmless, C.Run, C.Answer;
    if l < i {
      C.MissFindsNothingFresh(json, ops, l, i);
      InOrder(ops, i, j);
    }
  }

  lemma {:induction false} InOrder(ops: seq<C.Op>, i: nat, j: nat)
    requires C.Ordered(ops) && i <= j < |ops|
    ensures ops[i].at <= ops[j].at
    decreases j - i
  {
    if i < j {
      InOrder(ops, i + 1, j);
      assert C.End(ops[i]) <= ops[i + 1].at;
    }
  }

  // Over every interleaving of sessions, no later question to the cache tells it from a
  // map that never evicts if and only if no session's fallback is intruded upon.
  lemma OverlapUnseenIff(json: C.Json, ops: seq<C.Op>, own: nat -> nat)
    requires C.Ordered(ops) && Overlapping(json, ops, own)
    ensures (forall j: nat :: !Intruded(json, ops, own, j)) <==>
      forall n: nat, op: C.Op :: n <= |ops| ==> C.Unseen(json, ops, n, op)
  {
    hide C.Ordered, C.AllHarmless, C.Unseen, C.Undescribed, FollowsMiss;
    C.EvictionUnseenIff(json, ops);
    C.HarmlessIffUnexposed(json, ops);
    if C.AllHarmless(json, ops) {
      forall j: nat ensures !Intruded(json, ops, own, j) {
        assert !C.Exposed(json, ops, j);
      }
    } else {
      var j, l := FirstExposed(json, ops);
      assert FollowsMiss(json, ops, own(j), j);
      HarmlessBefore(json, ops, own(j), j);
      StoredAfterMiss(json, ops, own(j), j, l);
      assert Intruded(json, ops, own, j);
    }
  }

  lemma FirstExposed(json: C.Json, ops: seq<C.Op>) returns (j: nat, l: nat)
    requires C.Ordered(ops) && !C.AllHarmless(json, ops)
    ensures j < |ops| && ops[j].Fallback? && C.AllHarmless(json, ops[..j]) && C.Undescribed(json, ops, l, j)
  {
    hide C.Ordered, C.AllHarmless, C.Run, C.Harmless, C.Undescribed;
    assert ops[..|ops|] == ops;
    j := C.FirstHarm(json, ops, |ops|);
    C.FallbacksHarm(C.Run(json, ops[..j]), ops[j]);
    C.HarmAt(json, ops, j);
    l :| C.Undescribed(json, ops, l, j);
  }

  lemma HarmlessBefore(json: C.Json, ops: seq<C.Op>, i: nat, j: nat)
    requires FollowsMiss(json, ops, i, j) && C.AllHarmless(json, ops[..j])
    ensures C.AllHarmless(json, ops[..i])
  {
    hide C.AllHarmless, C.Run, C.Answer;
    C.HarmlessPrefix(json, ops[..j], i);
    assert ops[..j][..i] == ops[..i];
  }

  // It does happen: both sessions miss, the second stores a response without a
  // description, the first asks for a fallback and deletes it, and the next Get misses.
  function OverlapRun(k: GoString, data: seq<byte>, options: C.FallbackOptions): seq<C.Op> {
    [C.Get(k, 1, 1), C.Get(k, 2, 2), C.Set(k, 3, data, 5, 0), C.Fallback(k, 4, 0, options)]
  }

  lemma OverlapSeen(json: C.Json, k: GoString, data: seq<byte>, options: C.FallbackOptions)
    requires C.ExtractMOTD(json, data) == []
    ensures var ops := OverlapRun(k, data, options);
      && C.Ordered(ops) && Overlapping(json, ops, j => if j == 2 then 1 else 0)
      && C.Answer(json, C.Run(json, ops), C.Get(k, 5, 5)) == None
      && C.Answer(json, C.Reference(json, ops), C.Get(k, 5, 5)) == Some(data)
  {
    hide C.Run, C.Reference, C.MakeEntry, C.ExtractMOTD;
    var ops := OverlapRun(k, data, options);
    StartsEmpty(json, ops[..0]);
    RunNext(json, ops, 0);
    RunNext(json, ops, 1);
    RunNext(json, ops, 2);
    RunNext(json, ops, 3);
    assert ops[..4] == ops;
    SetEntry(json, data);
    var own := j => if j == 2 then 1 else 0;
    assert FollowsMiss(json, ops, own(2), 2) && FollowsMiss(json, ops, own(3), 3);
  }

  lemma StartsEmpty(json: C.Json, ops: seq<C.Op>)
    requires ops == []
    ensures C.Run(json, ops) == C.Reference(json, ops) == map[]
  {
  }

  lemma SetEntry(json: C.Json, data: seq<byte>)
    ensures C.MakeEntry(json, data, 5, 0, 3) == C.Entry(data, C.ExtractMOTD(json, data), 8, 8)
  {
  }

  lemma RunNext(json: C.Json, ops: seq<C.Op>, n: nat)
    requires n < |ops|
    ensures C.Run(json, ops[..n + 1]) == C.Step(json, C.Run(json, ops[..n]), ops[n])
    ensures C.Reference(json, ops[..n + 1]) == C.AfterSet(json, C.Reference(json, ops[..n]), ops[n])
  {
    hide C.Step, C.AfterSet;
    assert ops[..n + 1][..n] == ops[..n];
  }

  // Sessions one after the other overlap with none: each operation that is not a Get
  // comes right after its own.
  lemma {:induction false} SequentialOverlap(json: C.Json, sessions: seq<seq<C.Op>>)
    requires Sessions(json, sessions)
    ensures Overlapping(json, Flat(sessions), Previous)
  {
    forall j: nat | j < |Flat(sessions)| && !Flat(sessions)[j].Get?
      ensures FollowsMiss(json, Flat(sessions), Previous(j), j)
    {
      SequentialFollows(json, sessions, j);
    }
    hide Session, C.Run, C.Answer;
    forall i: nat, j: nat | i < j < |Flat(sessions)| && !Flat(sessions)[i].Get? && !Flat(sessions)[j].Get?
      ensures Previous(i) != Previous(j)
    {
      assert FollowsMiss(json, Flat(sessions), Previous(i), i);
    }
  }

  function Previous(j: nat): nat {
    if j == 0 then 0 else j - 1
  }

  lemma {:induction false} SequentialFollows(json: C.Json, sessions: seq<seq<C.Op>>, j: nat)
    requires Sessions(json, sessions) && j < |Flat(sessions)| && !Flat(sessions)[j].Get?
    ensures FollowsMiss(json, Flat(sessions), Previous(j), j)
  {
    hide C.Run, C.Answer;
    var n := |sessions| - 1;
    var before, last := Flat(sessions[..n]), sessions[n];
    SessionsPrefix(json, sessions, n);
    if j < |before| {
      SequentialFollows(json, sessions[..n], j);
      assert Flat(sessions)[..Previous(j)] == before[..Previous(j)];
    } else {
      assert Session(json, C.Run(json, before), last);
      assert j == |before| + 1;
      assert Flat(sessions)[..|before|] == before;
    }
  }

  lemma SessionsPrefix(json: C.Json, sessions: seq<seq<C.Op>>, n: nat)
    requires n <= |sessions| && Sessions(json, sessions)
    ensures Sessions(json, sessions[..n])
  {
    hide Session;
    forall i | 0 <= i < n ensures Session(json, C.Run(json, Flat(sessions[..n][..i])), sessions[..n][i]) {
      assert sessions[..n][..i] == sessions[..i];
    }
  }

  // So with sessions one after the other, whatever the cache answers to any operation, or
  // to any other question after it, a map that never evicts would answer.
  lemma SessionsSeeNoEviction(json: C.Json, sessions: seq<seq<C.Op>>, n: nat, op: C.Op)
    requires Sessions(json, sessions) && C.Ordered(Flat(sessions)) && n <= |Flat(sessions)|
    requires C.Ordered(Flat(sessions)[..n] + [op])
    ensures C.Answer(json, C.Run(json, Flat(sessions)[..n]), op)
      == C.Answer(json, C.Reference(json, Flat(sessions)[..n]), op)
  {
    hide C.Ordered, C.Run, C.Reference, C.Answer, Flat, Session, Overlapping;
    var ops := Flat(sessions);
    SequentialOverlap(json, sessions);
    OverlapUnseenIff(json, ops, Previous);
    forall j: nat ensures !Intruded(json, ops, Previous, j) {
    }
    assert C.Unseen(json, ops, n, op);
  }

  // ------------------------------------------------------------ the health checker's side

  // What a session whose attempt came to `a` tells the checker.
  ghost predicate Reported(a: Attempt, ev: Option<H.Event>) {
    && (ev.Some? <==> a.Some?)
    && (ev.Some? ==> (ev.value.Good? <==> a.value.Ok?))
  }

  function AfterEvent(o: H.Options, m: map<H.Addr, H.Entry>, b: H.Addr, ev: Option<H.Event>): map<H.Addr, H.Entry> {
    match ev
    case None => m
    case Some(e) => H.Record(o, m, b, e)
  }

  // An attempt that brought a response counts as one success of its backend, one that did
  // not as one failure, and no attempt as nothing; no other backend is concerned.
  lemma AttemptCounts(o: H.Options, m: map<H.Addr, H.Entry>, b: H.Addr, a: Attempt, ev: Option<H.Event>)
    requires Reported(a, ev)
    ensures var after := AfterEvent(o, m, b, ev);
      && (a == None || !o.enabled ==> after == m)
      && (forall x :: x != b ==> (x in after <==> x in m) && (x in m ==> after[x] == m[x]))
      && (a.Some? && o.enabled ==>
            && b in after
            && after[b].successes == (if b in m then m[b].successes else 0) + (if a.value.Ok? then 1 else 0)
            && after[b].failures == (if b in m then m[b].failures else 0) + (if a.value.Ok? then 0 else 1))
  {
  }

  // The question a session puts to the checker and the report it makes, as steps of call
  // `c` of the traffic.
  function StepsOf(c: nat, b: H.Addr, t: Trace): seq<T.Action> {
    [T.Ask(c, b, t.askedAt)] + if t.event.Some? then [T.Report(c, b, t.event.value)] else []
  }

  // A session on its own is a run of the traffic: it reports exactly if it found the
  // backend not to be unhealthy, and leaves what the traffic leaves.
  lemma SessionIsTraffic(o: H.Options, s: T.State, c: nat, b: H.Addr, t: Trace)
    requires c !in s.calls && s.now <= t.askedAt
    requires t.event.Some? <==> !H.IsUnhealthy(o, s.entries, b, t.askedAt)
    requires t.event.Some? ==> T.Timely(t.askedAt, t.event.value)
    ensures T.From(o, s, StepsOf(c, b, t)).Some?
    ensures T.From(o, s, StepsOf(c, b, t)).value.entries == AfterEvent(o, s.entries, b, t.event)
  {
    hide H.Record, H.IsUnhealthy;
    var ask, steps := T.Ask(c, b, t.askedAt), StepsOf(c, b, t);
    assert [ask][..0] == [];
    assert T.From(o, s, [ask]) == Some(T.Next(o, s, ask));
    if t.event.Some? {
      assert steps[..1] == [ask] && steps[1] == T.Report(c, b, t.event.value);
    } else {
      assert steps == [ask];
    }
  }
}
