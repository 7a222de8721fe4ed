/** internal/fail2ban/guard.go: the guard over all keys.  Every run of it, seen from one
    key, is a run of the single-key automaton on that key's events alone. */
module Guard {
  import opened Wrappers
  import opened Bits
  import opened BanAutomaton
  import Text

  const SECOND: int := 1_000_000_000
  const MINUTE: int := 60 * SECOND

  type GoString = seq<byte>

  datatype Key = Key(route: GoString, kind: GoString, value: GoString)

  datatype Ban = Ban(key: Key, failures: nat, bannedUntil: int)

  // One call on the guard, with the value as the caller spells it.
  datatype Call =
    | IsBanned(key: Key, now: int)
    | RecordFailure(key: Key, now: int)
    | RecordSuccess(key: Key, now: int)
    | Unban(key: Key, now: int)

  function WithDefaults(o: Options): (r: Options)
    ensures Sane(r)
  {
    Options(
      o.enabled,
      if o.maxFailures <= 0 then 5 else o.maxFailures,
      if o.window <= 0 then MINUTE else o.window,
      if o.banDuration <= 0 then 10 * MINUTE else o.banDuration,
      if o.earlyDisconnect <= 0 then 5 * SECOND else o.earlyDisconnect)
  }

  function Normalize(value: GoString): GoString {
    Text.ToLower(Text.TrimSpace(value))
  }

  function Normalized(k: Key): Key {
    k.(value := Normalize(k.value))
  }

  function Lookup(m: map<Key, Entry>, k: Key): Option<Entry> {
    if k in m then Some(m[k]) else None
  }

  function Store(m: map<Key, Entry>, k: Key, s: Option<Entry>): map<Key, Entry> {
    match s
    case None => m - {k}
    case Some(e) => m[k := e]
  }

  // A call with an empty value does nothing; on a disabled guard only Unban acts.
  predicate Acts(o: Options, c: Call) {
    Normalize(c.key.value) != [] && (o.enabled || c.Unban?)
  }

  function EventOf(c: Call): Event {
    match c
    case IsBanned(_, now) => Ask(now)
    case RecordFailure(_, now) => Fail(now)
    case RecordSuccess(_, now) => Clear(now)
    case Unban(_, now) => Clear(now)
  }

  function StepAll(o: Options, m: map<Key, Entry>, c: Call): map<Key, Entry> {
    if Acts(o, c)
    then Store(m, Normalized(c.key), Step(o, Lookup(m, Normalized(c.key)), EventOf(c)))
    else m
  }

  function AnswerAll(o: Options, m: map<Key, Entry>, c: Call): bool {
    if !Acts(o, c) then false
    else if c.Unban? then Normalized(c.key) in m
    else Answer(o, Lookup(m, Normalized(c.key)), EventOf(c))
  }

  function RunAll(o: Options, calls: seq<Call>): map<Key, Entry> {
    if calls == [] then map[]
    else StepAll(o, RunAll(o, calls[..|calls| - 1]), calls[|calls| - 1])
  }

  // The events of one normalized key among the calls.
  function Project(o: Options, calls: seq<Call>, k: Key): seq<Event> {
    if calls == [] then []
    else
      var c := calls[|calls| - 1];
      Project(o, calls[..|calls| - 1], k) + if Acts(o, c) && Normalized(c.key) == k then [EventOf(c)] else []
  }

  lemma {:induction false} Projection(o: Options, calls: seq<Call>, k: Key)
    ensures Lookup(RunAll(o, calls), k) == Run(o, None, Project(o, calls, k))
  {
    if calls != [] {
      var n := |calls| - 1;
      var before := Project(o, calls[..n], k);
      Projection(o, calls[..n], k);
      if Acts(o, calls[n]) && Normalized(calls[n].key) == k {
        assert (before + [EventOf(calls[n])])[..|before|] == before;
      } else {
        assert before + [] == before;
      }
    }
  }

  ghost predicate OrderedCalls(calls: seq<Call>) {
    && (forall i :: 0 <= i < |calls| ==> calls[i].now > 0)
    && (forall i, j :: 0 <= i < j < |calls| ==> calls[i].now <= calls[j].now)
  }

  lemma {:induction false} ProjectionOrdered(o: Options, calls: seq<Call>, k: Key)
    requires OrderedCalls(calls)
    ensures Ordered(Project(o, calls, k))
    ensures forall i :: 0 <= i < |Project(o, calls, k)| ==>
      Project(o, calls, k)[i].now <= calls[|calls| - 1].now
  {
    if calls != [] {
      var n := |calls| - 1;
      ProjectionOrdered(o, calls[..n], k);
      assert n > 0 ==> calls[..n][n - 1].now <= calls[n].now;
    }
  }

  // Every answer of the guard, in any run over any keys, is the answer the single-key
  // automaton gives after that key's own events.
  lemma AnswersAgree(o: Options, calls: seq<Call>, c: Call)
    requires Acts(o, c) && !c.Unban?
    ensures AnswerAll(o, RunAll(o, calls), c)
      == Answer(o, Run(o, None, Project(o, calls, Normalized(c.key))), EventOf(c))
  {
    Projection(o, calls, Normalized(c.key));
  }

  // So bans are sound for the whole guard: whoever is banned has, under the same route,
  // kind and normalized value, enough failures within one window, the last of them less
  // than BanDuration ago, with no success or unban in between.
  lemma GuardSound(o: Options, calls: seq<Call>, k: Key, t: int)
    requires Sane(o) && OrderedCalls(calls + [IsBanned(k, t)])
    requires AnswerAll(o, RunAll(o, calls), IsBanned(k, t))
    ensures exists i: nat, j: nat :: Punished(o, Project(o, calls, Normalized(k)), t, i, j)
  {
    var c := IsBanned(k, t);
    var evs := Project(o, calls, Normalized(k));
    AnswersAgree(o, calls, c);
    ProjectionOrdered(o, calls + [c], Normalized(k));
    assert (calls + [c])[..|calls|] == calls;
    BanSound(o, evs, t);
  }

  // The exact life of a ban, for the whole guard.
  lemma GuardBannedIff(o: Options, calls: seq<Call>, k: Key, t: int)
    requires Sane(o) && OrderedCalls(calls + [IsBanned(k, t)])
    ensures AnswerAll(o, RunAll(o, calls), IsBanned(k, t))
      <==> Acts(o, IsBanned(k, t)) && exists j: nat :: InForce(o, Project(o, calls, Normalized(k)), t, j)
  {
    hide Run, InForce, Answer;
    var c := IsBanned(k, t);
    if Acts(o, c) {
      AnswersAgree(o, calls, c);
      ProjectionOrdered(o, calls + [c], Normalized(k));
      assert (calls + [c])[..|calls|] == calls;
      BannedIff(o, Project(o, calls, Normalized(k)), t);
    }
  }

  // ---------------------------------------------------- from a key's events to calls

  predicate OnKey(o: Options, c: Call, k: Key) {
    Acts(o, c) && Normalized(c.key) == k
  }

  lemma {:induction false} ProjectConcat(o: Options, a: seq<Call>, b: seq<Call>, k: Key)
    ensures Project(o, a + b, k) == Project(o, a, k) + Project(o, b, k)
  {
    hide Acts, Normalized;
    if b == [] {
      assert a + b == a;
    } else {
      var n := |b| - 1;
      ProjectConcat(o, a, b[..n], k);
      assert (a + b)[..|a| + n] == a + b[..n];
    }
  }

  // The call behind the `i`-th event of a key.
  lemma {:induction false} CallBehind(o: Options, calls: seq<Call>, k: Key, i: nat) returns (n: nat)
    requires i < |Project(o, calls, k)|
    ensures n < |calls| && OnKey(o, calls[n], k) && EventOf(calls[n]) == Project(o, calls, k)[i]
    ensures Project(o, calls[..n], k) == Project(o, calls, k)[..i]
  {
    hide Acts, Normalized, EventOf;
    var last := |calls| - 1;
    var before := calls[..last];
    if i < |Project(o, before, k)| {
      n := CallBehind(o, before, k, i);
      assert before[..n] == calls[..n];
    } else {
      n := last;
    }
  }

  // Where the event of a call stands among those of its key.
  lemma EventOfCall(o: Options, calls: seq<Call>, k: Key, n: nat)
    requires n < |calls| && OnKey(o, calls[n], k)
    ensures |Project(o, calls[..n], k)| < |Project(o, calls, k)|
    ensures Project(o, calls, k)[|Project(o, calls[..n], k)|] == EventOf(calls[n])
  {
    hide Acts, Normalized, EventOf;
    var upto := calls[..n + 1];
    assert upto[..n] == calls[..n];
    ProjectConcat(o, upto, calls[n + 1..], k);
    assert upto + calls[n + 1..] == calls;
  }

  lemma ProjectGrows(o: Options, calls: seq<Call>, k: Key, m: nat, n: nat)
    requires m <= n <= |calls|
    ensures |Project(o, calls[..m], k)| <= |Project(o, calls[..n], k)|
  {
    hide Project;
    ProjectConcat(o, calls[..m], calls[m..n], k);
    assert calls[..m] + calls[m..n] == calls[..n];
  }

  // Calls `p` to `q` are the cause of a ban at `t`: failures of the key, both ends
  // included and enough of them, within one window; the last less than BanDuration ago;
  // and no success or unban of the key since the first.
  ghost predicate Cause(o: Options, calls: seq<Call>, k: Key, t: int, p: nat, q: nat) {
    && p <= q < |calls|
    && calls[p].RecordFailure? && OnKey(o, calls[p], k) && calls[q].RecordFailure? && OnKey(o, calls[q], k)
    && calls[q].now - calls[p].now <= o.window
    && CountFails(Project(o, calls[p..q + 1], k)) >= o.maxFailures
    && calls[q].now <= t < calls[q].now + o.banDuration
    && (forall n :: p <= n < |calls| && OnKey(o, calls[n], k) ==> !calls[n].RecordSuccess? && !calls[n].Unban?)
  }

  // Soundness in terms of the calls themselves: every ban has a cause.
  lemma BanHasCause(o: Options, calls: seq<Call>, k: Key, t: int) returns (p: nat, q: nat)
    requires Sane(o) && OrderedCalls(calls + [IsBanned(k, t)])
    requires AnswerAll(o, RunAll(o, calls), IsBanned(k, t))
    ensures Cause(o, calls, Normalized(k), t, p, q)
  {
    hide AnswerAll, RunAll, Project, OnKey;
    GuardSound(o, calls, k, t);
    var i: nat, j: nat :| Punished(o, Project(o, calls, Normalized(k)), t, i, j);
    p, q := CauseOf(o, calls, Normalized(k), t, i, j);
  }

  lemma InOrder(o: Options, calls: seq<Call>, k: Key, p: nat, q: nat)
    requires p < |calls| && q < |calls| && OnKey(o, calls[q], k)
    requires |Project(o, calls[..p], k)| <= |Project(o, calls[..q], k)|
    ensures p <= q
  {
    hide Project, OnKey;
    var upto := calls[..q + 1];
    assert upto[..q] == calls[..q];
    ProjectLast(o, upto, k);
    if q < p {
      ProjectGrows(o, calls, k, q + 1, p);
    }
  }

  lemma CauseOf(o: Options, calls: seq<Call>, k: Key, t: int, i: nat, j: nat) returns (p: nat, q: nat)
    requires Punished(o, Project(o, calls, k), t, i, j)
    ensures Cause(o, calls, k, t, p, q)
  {
    hide OnKey, Project, CountFails;
    var evs := Project(o, calls, k);
    p := CallBehind(o, calls, k, i);
    q := CallBehind(o, calls, k, j);
    InOrder(o, calls, k, p, q);
    Between(o, calls, k, p, q);
    assert evs[..j] + [evs[j]] == evs[..j + 1];
    forall n | p <= n < |calls| && OnKey(o, calls[n], k) ensures !calls[n].RecordSuccess? && !calls[n].Unban? {
      ProjectGrows(o, calls, k, p, n);
      EventOfCall(o, calls, k, n);
    }
  }

  lemma Between(o: Options, calls: seq<Call>, k: Key, p: nat, q: nat)
    requires p <= q < |calls| && OnKey(o, calls[q], k)
    ensures Project(o, calls[..q], k) + [EventOf(calls[q])]
      == Project(o, calls[..p], k) + Project(o, calls[p..q + 1], k)
  {
    hide Project, OnKey;
    var upto := calls[..q + 1];
    ProjectConcat(o, calls[..p], calls[p..q + 1], k);
    assert calls[..p] + calls[p..q + 1] == upto;
    ProjectLast(o, upto, k);
    assert upto[..q] == calls[..q];
  }

  lemma ProjectLast(o: Options, calls: seq<Call>, k: Key)
    requires calls != [] && OnKey(o, calls[|calls| - 1], k)
    ensures Project(o, calls, k) == Project(o, calls[..|calls| - 1], k) + [EventOf(calls[|calls| - 1])]
  {
  }

  // Completeness for the whole guard: after any history without a ban of the key on
  // record, enough failures of it within one span of length Window earn a ban, whatever
  // is done to other keys in between.
  lemma GuardComplete(o: Options, history: seq<Call>, more: seq<Call>, k: Key, start: int)
    requires Sane(o) && OrderedCalls(history + more)
    requires NoBanOnRecord(Lookup(RunAll(o, history), k))
    requires NoClear(Project(o, more, k), 0) && Within(Project(o, more, k), start, o.window)
    requires CountFails(Project(o, more, k)) >= Enough(o)
    ensures exists n ::
      && 0 <= n < |more| && more[n].RecordFailure? && OnKey(o, more[n], k)
      && AnswerAll(o, RunAll(o, history + more[..n]), more[n])
  {
    hide RunAll, Project, OnKey, Answer, CountFails, Run;
    var h, evs := Project(o, history, k), Project(o, more, k);
    Projection(o, history, k);
    ProjectConcat(o, history, more, k);
    ProjectionOrdered(o, history + more, k);
    WindowComplete(o, h, evs, start);
    var i :| 0 <= i < |evs| && evs[i].Fail? && Answer(o, Run(o, None, h + evs[..i]), evs[i]);
    var n := CallBehind(o, more, k, i);
    ProjectConcat(o, history, more[..n], k);
    AnswerOnKey(o, history + more[..n], more[n], k);
  }

  // ------------------------------------------------------------- what the guard acts on

  // Values that differ in letter case only, or in white space around them, are one.
  lemma NormalizeFolds(before: GoString, a: GoString, b: GoString, after: GoString)
    requires Text.SameLetters(a, b) && Text.Blank(before) && Text.Blank(after)
    requires a != [] ==> !Text.Blank([a[0]]) && !Text.Blank([a[|a| - 1]])
    ensures Normalize(before + a + after) == Normalize(b) && Text.NoCapitals(Normalize(b))
    ensures |Normalize(b)| == |b|
  {
    hide Text.TrimSpace, Text.ToLower, Text.NoCapitals;
    Text.TrimSpaceTakes(before, a, after);
    Text.TrimSpaceTakes([], a, []);
    assert [] + a + [] == a;
    Text.TrimSpaceFolds(a, b);
    Text.CaseFolds(a, Text.TrimSpace(b));
    Text.LowerBytes(Text.TrimSpace(b));
  }

  lemma BlankIff(value: GoString)
    ensures Normalize(value) == [] <==> Text.Blank(value)
  {
    Text.TrimLeftShape(value);
    Text.TrimRightShape(Text.TrimLeft(value));
    if Text.Blank(value) {
      Text.TrimBlank(value);
    } else {
      NotAllTrimmed(value);
    }
  }

  lemma {:induction false} NotAllTrimmed(value: GoString)
    requires !Text.Blank(value)
    ensures Text.TrimSpace(value) != []
  {
    if Text.Blank([value[0]]) {
      assert [value[0]][0] == value[0];
      NotAllTrimmed(value[1..]);
    } else if Text.Blank([value[|value| - 1]]) {
      NotAllTrimmedRight(value);
    }
  }

  lemma {:induction false} NotAllTrimmedRight(value: GoString)
    requires !Text.Blank(value)
    ensures Text.TrimRight(value) != []
  {
    var n := |value| - 1;
    if Text.IsSpace(value[n]) {
      NotAllTrimmedRight(value[..n]);
    }
  }

  // Exactly when a call does nothing, whatever is stored: if the guard is disabled and the
  // call is not an unban, or if the value is white space only.
  lemma IgnoredIff(o: Options, c: Call)
    requires Sane(o)
    ensures (forall m: map<Key, Entry> :: StepAll(o, m, c) == m && !AnswerAll(o, m, c))
      <==> (!o.enabled && !c.Unban?) || Text.Blank(c.key.value)
  {
    hide Normalize;
    BlankIff(c.key.value);
    if Acts(o, c) {
      var k := Normalized(c.key);
      var t := if c.now == 0 then -1 else c.now;
      var m: map<Key, Entry> := map[k := Entry(o.maxFailures, 1, t)];
      if c.RecordFailure? {
        assert k in StepAll(o, map[], c);
      } else {
        assert k !in StepAll(o, m, c);
      }
    }
  }

  // What a call that records no failure makes of the stored keys: a success and an unban
  // delete the key, asking deletes it only once its ban is over, and nothing else changes.
  lemma CallsForget(o: Options, m: map<Key, Entry>, c: Call)
    ensures var k := Key(c.key.route, c.key.kind, Normalize(c.key.value));
      var known := !Text.Blank(c.key.value) && k in m;
      match c
      case RecordSuccess(_, _) => StepAll(o, m, c) == if o.enabled && known then m - {k} else m
      case Unban(_, _) => StepAll(o, m, c) == (if known then m - {k} else m) && AnswerAll(o, m, c) == known
      case IsBanned(_, now) =>
        && AnswerAll(o, m, c) == (o.enabled && known && now < m[k].bannedUntil)
        && StepAll(o, m, c) == if o.enabled && known && 0 != m[k].bannedUntil <= now then m - {k} else m
      case RecordFailure(_, _) => AnswerAll(o, m, c) ==> o.enabled && !Text.Blank(c.key.value)
  {
    hide Normalize;
    BlankIff(c.key.value);
    var k := Key(c.key.route, c.key.kind, Normalize(c.key.value));
    assert k !in m ==> m - {k} == m;
  }

  // -------------------------------------------------- completeness, counted in the calls

  // The positions of the calls that record a failure under this normalized key.
  function FailuresOf(calls: seq<Call>, k: Key): set<nat> {
    set n: nat | n < |calls| && calls[n].RecordFailure? && Normalized(calls[n].key) == k
  }

  lemma {:induction false} FailuresCounted(o: Options, calls: seq<Call>, k: Key)
    requires o.enabled && k.value != []
    ensures CountFails(Project(o, calls, k)) == |FailuresOf(calls, k)|
  {
    hide Normalize;
    if calls == [] {
      assert FailuresOf(calls, k) == {};
    } else {
      var n := |calls| - 1;
      var before, c := calls[..n], calls[n];
      FailuresCounted(o, before, k);
      var fails := c.RecordFailure? && Normalized(c.key) == k;
      assert FailuresOf(calls, k) == if fails then FailuresOf(before, k) + {n} else FailuresOf(before, k);
      var evs := Project(o, before, k);
      if OnKey(o, c, k) {
        assert (evs + [EventOf(c)])[..|evs|] == evs;
      } else {
        assert evs + [] == evs;
      }
    }
  }

  // For an enabled guard, a key with no ban on record, and at least
  // max(1, 2 * MaxFailures - 2) calls that record a failure of it at most Window apart,
  // with no success or unban of it among the calls: one of them answers that the key is
  // banned, and so does an IsBanned asked right after it.
  lemma FailuresEarnBan(o: Options, history: seq<Call>, more: seq<Call>, k: Key, start: int) returns (n: nat)
    requires Sane(o) && o.enabled && OrderedCalls(history + more)
    requires k.value != []
    requires k in RunAll(o, history) ==> RunAll(o, history)[k].bannedUntil == 0
    requires forall i :: 0 <= i < |more| && (more[i].RecordSuccess? || more[i].Unban?) ==> Normalized(more[i].key) != k
    requires forall i :: i in FailuresOf(more, k) ==> start <= more[i].now <= start + o.window
    requires |FailuresOf(more, k)| >= 1 && |FailuresOf(more, k)| >= 2 * o.maxFailures - 2
    ensures n in FailuresOf(more, k)
    ensures AnswerAll(o, RunAll(o, history + more[..n]), more[n])
    ensures AnswerAll(o, RunAll(o, history + more[..n + 1]), IsBanned(more[n].key, more[n].now))
  {
    hide RunAll, AnswerAll, Project, CountFails, Normalize, OrderedCalls;
    FailuresCounted(o, more, k);
    ProjectedWell(o, more, k, start);
    GuardComplete(o, history, more, k, start);
    n :| 0 <= n < |more| && more[n].RecordFailure? && OnKey(o, more[n], k)
      && AnswerAll(o, RunAll(o, history + more[..n]), more[n]);
    assert history + more[..n + 1] == history + more[..n] + [more[n]];
    TimeOf(history, more, n);
    AskedRightAfter(o, history + more[..n], more[n]);
  }

  lemma TimeOf(history: seq<Call>, more: seq<Call>, n: nat)
    requires OrderedCalls(history + more) && n < |more|
    ensures more[n].now > 0
  {
    assert (history + more)[|history| + n] == more[n];
  }

  lemma AskedRightAfter(o: Options, calls: seq<Call>, c: Call)
    requires c.RecordFailure? && c.now > 0 && AnswerAll(o, RunAll(o, calls), c)
    ensures AnswerAll(o, RunAll(o, calls + [c]), IsBanned(c.key, c.now))
  {
    hide Normalize;
    assert (calls + [c])[..|calls|] == calls;
    FailureAnswersLikeAsk(o, Lookup(RunAll(o, calls), Normalized(c.key)), c.now);
  }

  lemma {:induction false} ProjectedWell(o: Options, more: seq<Call>, k: Key, start: int)
    requires forall i :: 0 <= i < |more| && (more[i].RecordSuccess? || more[i].Unban?) ==> Normalized(more[i].key) != k
    requires forall i :: i in FailuresOf(more, k) ==> start <= more[i].now <= start + o.window
    ensures NoClear(Project(o, more, k), 0) && Within(Project(o, more, k), start, o.window)
  {
    hide Normalize, Project;
    var evs := Project(o, more, k);
    forall i | 0 <= i < |evs| ensures !evs[i].Clear? && (evs[i].Fail? ==> start <= evs[i].now <= start + o.window) {
      var n := CallBehind(o, more, k, i);
      assert more[n].RecordFailure? ==> n in FailuresOf(more, k);
    }
  }

  // The stored key of any value that is not blank is one of these.
  lemma KeyOfValue(key: Key)
    ensures Normalized(key).route == key.route && Normalized(key).kind == key.kind
    ensures Normalized(key).value != [] <==> !Text.Blank(key.value)
  {
    hide Normalize;
    BlankIff(key.value);
  }

  // What New makes of its options.
  lemma DefaultsAre(o: Options)
    ensures var r := WithDefaults(o);
      && r.enabled == o.enabled
      && (o.maxFailures > 0 ==> r.maxFailures == o.maxFailures) && (o.maxFailures <= 0 ==> r.maxFailures == 5)
      && (o.window > 0 ==> r.window == o.window) && (o.window <= 0 ==> r.window == 60_000_000_000)
      && (o.banDuration > 0 ==> r.banDuration == o.banDuration)
      && (o.banDuration <= 0 ==> r.banDuration == 600_000_000_000)
      && (o.earlyDisconnect > 0 ==> r.earlyDisconnect == o.earlyDisconnect)
      && (o.earlyDisconnect <= 0 ==> r.earlyDisconnect == 5_000_000_000)
  {
  }

  lemma AnswerOnKey(o: Options, calls: seq<Call>, c: Call, k: Key)
    requires OnKey(o, c, k) && !c.Unban?
    ensures AnswerAll(o, RunAll(o, calls), c) == Answer(o, Run(o, None, Project(o, calls, k)), EventOf(c))
  {
    AnswersAgree(o, calls, c);
  }

  // The guard proper.  Each method takes the reading of the clock it makes.
  class Guard {
    const options: Options
    var entries: map<Key, Entry>

    constructor (options: Options)
      ensures this.options == WithDefaults(options) && entries == map[]
    {
      this.options := WithDefaults(options);
      entries := map[];
    }

    predicate Enabled() {
      options.enabled
    }

    method IsBanned(route: GoString, kind: GoString, value: GoString, now: int) returns (banned: bool)
      modifies this`entries
      ensures var c := Call.IsBanned(Key(route, kind, value), now);
        && entries == StepAll(options, old(entries), c)
        && banned == AnswerAll(options, old(entries), c)
    {
      if !Enabled() || Normalize(value) == [] {
        return false;
      }
      var k := Key(route, kind, Normalize(value));
      if k !in entries {
        assert entries - {k} == entries;
        return false;
      }
      var item := entries[k];
      if now < item.bannedUntil {
        assert entries[k := item] == entries;
        return true;
      }
      if item.bannedUntil != 0 {
        entries := entries - {k};
      } else {
        assert entries[k := item] == entries;
      }
      return false;
    }

    method RecordFailure(route: GoString, kind: GoString, value: GoString, now: int) returns (banned: bool)
      modifies this`entries
      ensures var c := Call.RecordFailure(Key(route, kind, value), now);
        && entries == StepAll(options, old(entries), c)
        && banned == AnswerAll(options, old(entries), c)
    {
      if !Enabled() || Normalize(value) == [] {
        return false;
      }
      var k := Key(route, kind, Normalize(value));
      var item := if k in entries then entries[k] else NO_ENTRY;
      if item.windowStart == 0 || now - item.windowStart > options.window {
        item := item.(windowStart := now, failures := 0);
      }
      item := item.(failures := item.failures + 1);
      if item.failures >= options.maxFailures {
        item := item.(bannedUntil := now + options.banDuration);
      }
      entries := entries[k := item];
      return item.bannedUntil != 0 && now < item.bannedUntil;
    }

    method RecordSuccess(route: GoString, kind: GoString, value: GoString, ghost now: int)
      modifies this`entries
      ensures entries == StepAll(options, old(entries), Call.RecordSuccess(Key(route, kind, value), now))
    {
      if !Enabled() || Normalize(value) == [] {
        return;
      }
      entries := entries - {Key(route, kind, Normalize(value))};
    }

    method Unban(route: GoString, kind: GoString, value: GoString, ghost now: int) returns (removed: bool)
      modifies this`entries
      ensures var c := Call.Unban(Key(route, kind, value), now);
        && entries == StepAll(options, old(entries), c)
        && removed == AnswerAll(options, old(entries), c)
    {
      if Normalize(value) == [] {
        return false;
      }
      var k := Key(route, kind, Normalize(value));
      removed := k in entries;
      entries := entries - {k};
    }

    // Exactly the stored keys that an IsBanned at this time would report, each once.
    method Snapshot(now: int) returns (out: seq<Ban>)
      requires now > 0
      ensures forall i, j :: 0 <= i < j < |out| ==> out[i].key != out[j].key
      ensures forall b :: b in out <==>
        && Answer(options, Lookup(entries, b.key), Ask(now))
        && b == Ban(b.key, entries[b.key].failures, entries[b.key].bannedUntil)
    {
      out := [];
      var todo := entries.Keys;
      while todo != {}
        invariant todo <= entries.Keys
        invariant forall i :: 0 <= i < |out| ==> out[i].key !in todo
        invariant forall i, j :: 0 <= i < j < |out| ==> out[i].key != out[j].key
        invariant forall b :: b in out <==>
          && b.key !in todo
          && Answer(options, Lookup(entries, b.key), Ask(now))
          && b == Ban(b.key, entries[b.key].failures, entries[b.key].bannedUntil)
        decreases todo
      {
        var k :| k in todo;
        todo := todo - {k};
        var item := entries[k];
        if item.bannedUntil == 0 || now >= item.bannedUntil {
          continue;
        }
        out := out + [Ban(k, item.failures, item.bannedUntil)];
      }
    }
  }

  // For an enabled guard and keys as it stores them, that is IsBanned itself.
  lemma SnapshotIsBanned(o: Options, m: map<Key, Entry>, k: Key, now: int)
    requires o.enabled && Normalized(k) == k && k.value != []
    ensures AnswerAll(o, m, IsBanned(k, now)) == Answer(o, Lookup(m, k), Ask(now))
  {
  }

  // The guard only ever stores normalized, non-empty values.
  lemma {:induction false} StoredKeys(o: Options, calls: seq<Call>, k: Key)
    requires k in RunAll(o, calls)
    ensures k.value != [] && Normalized(k) == k
  {
    var n := |calls| - 1;
    var c := calls[n];
    if k in RunAll(o, calls[..n]) {
      StoredKeys(o, calls[..n], k);
    } else {
      assert k == Normalized(c.key);
      Text.NormalizeIdempotent(c.key.value);
    }
  }
}
