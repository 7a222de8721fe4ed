/** internal/health/checker.go: a two-threshold automaton per backend.  Its counters and
    its verdict have closed forms over the whole history of checks. */
module Health {
  import opened Wrappers
  import opened Bits

  type Addr = seq<byte>
  type GoString = seq<byte>

  datatype Options = Options(enabled: bool, failureThreshold: int, successThreshold: int, circuitBreakerTTL: int)

  // What Validate demands of the configuration.
  predicate Sane(o: Options) {
    o.failureThreshold > 0 && o.successThreshold > 0 && o.circuitBreakerTTL > 0
  }

  datatype Entry = Entry(
    healthy: bool,
    fails: nat,
    oks: nat,
    openUntil: int,
    lastChecked: int,
    lastError: GoString,
    successes: nat,
    failures: nat,
    trips: nat)

  const NEW := Entry(true, 0, 0, 0, 0, [], 0, 0, 0)

  // Recording a failure reads the clock twice: for the time of the check, and for the
  // start of the circuit breaker's pause.
  datatype Event = Good(at: int) | Bad(at: int, pauseAt: int, err: GoString)

  function Step(o: Options, e: Entry, ev: Event): Entry {
    match ev
    case Good(at) =>
      var f := e.(lastChecked := at, lastError := [], oks := e.oks + 1, fails := 0, successes := e.successes + 1);
      if f.oks >= o.successThreshold then f.(healthy := true, openUntil := 0) else f
    case Bad(at, pauseAt, err) =>
      var f := e.(lastChecked := at, lastError := err, fails := e.fails + 1, oks := 0, failures := e.failures + 1);
      if f.fails >= o.failureThreshold
      then f.(healthy := false, openUntil := pauseAt + o.circuitBreakerTTL, trips := f.trips + 1) else f
  }

  predicate CircuitOpen(e: Entry, now: int) {
    e.openUntil != 0 && now < e.openUntil
  }

  // The checker as a value: one entry per known backend.
  function Known(m: map<Addr, Entry>, b: Addr): Entry {
    if b in m then m[b] else NEW
  }

  function Record(o: Options, m: map<Addr, Entry>, b: Addr, ev: Event): map<Addr, Entry> {
    if o.enabled then m[b := Step(o, Known(m, b), ev)] else m
  }

  predicate IsUnhealthy(o: Options, m: map<Addr, Entry>, b: Addr, now: int) {
    o.enabled && b in m && (!m[b].healthy || CircuitOpen(m[b], now))
  }

  // What a check comes to, and the readings of the clock its recording makes.
  datatype Finding = Finding(outcome: Option<GoString>, at: int, pauseAt: int)

  function EventOf(f: Finding): Event {
    match f.outcome
    case None => Good(f.at)
    case Some(err) => Bad(f.at, f.pauseAt, err)
  }

  class BackendEntry {
    var Healthy: bool
    var ConsecutiveFails: nat
    var ConsecutiveOKs: nat
    var CircuitOpenUntil: int
    var LastChecked: int
    var LastError: GoString
    var CheckSuccesses: nat
    var CheckFailures: nat
    var CircuitTrips: nat

    ghost function Abs(): Entry
      reads this
    {
      Entry(Healthy, ConsecutiveFails, ConsecutiveOKs, CircuitOpenUntil, LastChecked, LastError,
            CheckSuccesses, CheckFailures, CircuitTrips)
    }

    constructor ()
      ensures Abs() == NEW
    {
      Healthy, CircuitOpenUntil, LastChecked, LastError := true, 0, 0, [];
      ConsecutiveFails, ConsecutiveOKs, CheckSuccesses, CheckFailures, CircuitTrips := 0, 0, 0, 0, 0;
    }

    method Fail(o: Options, err: GoString, at: int, pauseAt: int)
      modifies this
      ensures Abs() == Step(o, old(Abs()), Bad(at, pauseAt, err))
    {
      LastChecked := at;
      LastError := err;
      ConsecutiveFails := ConsecutiveFails + 1;
      ConsecutiveOKs := 0;
      CheckFailures := CheckFailures + 1;
      if ConsecutiveFails >= o.failureThreshold {
        Healthy := false;
        CircuitOpenUntil := pauseAt + o.circuitBreakerTTL;
        CircuitTrips := CircuitTrips + 1;
      }
    }

    method Succeed(o: Options, at: int)
      modifies this
      ensures Abs() == Step(o, old(Abs()), Good(at))
    {
      LastChecked := at;
      LastError := [];
      ConsecutiveOKs := ConsecutiveOKs + 1;
      ConsecutiveFails := 0;
      CheckSuccesses := CheckSuccesses + 1;
      if ConsecutiveOKs >= o.successThreshold {
        Healthy := true;
        CircuitOpenUntil := 0;
      }
    }
  }

  class Checker {
    const options: Options
    var entries: map<Addr, BackendEntry>

    ghost function Records(): set<BackendEntry>
      reads this
    {
      entries.Values
    }

    // No two backends share an entry.
    ghost predicate Valid()
      reads this
    {
      forall a, b :: a in entries && b in entries && a != b ==> entries[a] != entries[b]
    }

    ghost function Abs(): map<Addr, Entry>
      reads this, Records()
    {
      map b | b in entries :: entries[b].Abs()
    }

    constructor (options: Options, targets: seq<Addr>)
      ensures Valid() && fresh(Records()) && this.options == options
      ensures Abs() == map b | b in targets && b != [] :: NEW
    {
      this.options := options;
      entries := map[];
      new;
      for i := 0 to |targets|
        invariant Valid() && fresh(Records())
        invariant Abs() == map b | b in targets[..i] && b != [] :: NEW
      {
        if targets[i] != [] && targets[i] !in entries {
          var e := Ensure(targets[i]);
        }
        assert targets[..i + 1] == targets[..i] + [targets[i]];
      }
      assert targets[..|targets|] == targets;
    }

    // The entry of a backend, made on first use.
    method Ensure(backend: Addr) returns (e: BackendEntry)
      requires Valid()
      modifies this
      ensures Valid() && fresh(Records() - old(Records()))
      ensures backend in entries && e == entries[backend]
      ensures Abs() == old(Abs())[backend := Known(old(Abs()), backend)]
    {
      if backend !in entries {
        e := new BackendEntry();
        entries := entries[backend := e];
      } else {
        e := entries[backend];
      }
    }

    // Updating one backend's entry in place changes no other backend.
    twostate lemma OnlyOne(b: Addr)
      requires Valid() && entries == old(entries) && b in entries
      requires forall a :: a in entries && a != b ==> unchanged(entries[a])
      ensures Abs() == old(Abs())[b := entries[b].Abs()]
    {
      forall a | a in entries && a != b ensures entries[a].Abs() == old(entries[a].Abs()) {
        assert unchanged(entries[a]);
      }
    }

    method RecordFailure(backend: Addr, err: GoString, at: int, pauseAt: int)
      requires Valid()
      modifies this, Records()
      ensures Valid() && fresh(Records() - old(Records()))
      ensures Abs() == Record(options, old(Abs()), backend, Bad(at, pauseAt, err))
    {
      hide Step;
      if !options.enabled {
        return;
      }
      var e := Ensure(backend);
      label ready:
      e.Fail(options, err, at, pauseAt);
      OnlyOne@ready(backend);
    }

    method RecordSuccess(backend: Addr, at: int)
      requires Valid()
      modifies this, Records()
      ensures Valid() && fresh(Records() - old(Records()))
      ensures Abs() == Record(options, old(Abs()), backend, Good(at))
    {
      hide Step;
      if !options.enabled {
        return;
      }
      var e := Ensure(backend);
      label ready:
      e.Succeed(options, at);
      OnlyOne@ready(backend);
    }

    method Unhealthy(backend: Addr, now: int) returns (unhealthy: bool)
      requires Valid()
      ensures unhealthy == IsUnhealthy(options, Abs(), backend, now)
    {
      if !options.enabled || backend !in entries {
        return false;
      }
      var e := entries[backend];
      return !e.Healthy || (e.CircuitOpenUntil != 0 && now < e.CircuitOpenUntil);
    }

    // One round of active checks: every backend known at its start gets exactly one event.
    method CheckOnce(check: Addr -> Finding)
      requires Valid()
      modifies this, Records()
      ensures Valid() && fresh(Records() - old(Records()))
      ensures Abs() == if options.enabled
        then Checked(options, old(Abs()), old(Abs()).Keys, check) else old(Abs())
      ensures options.enabled ==> forall b :: b in old(Abs()) ==>
        b in Abs() && Counted(old(Abs())[b], check(b), Abs()[b])
    {
      forall b | b in Abs() ensures Counted(Abs()[b], check(b), Checked(options, Abs(), Abs().Keys, check)[b]) {
        CheckCounts(options, Abs(), b, check);
      }
      if !options.enabled {
        return;
      }
      CheckAll(check);
    }

    method CheckAll(check: Addr -> Finding)
      requires Valid() && options.enabled
      modifies this, Records()
      ensures Valid() && fresh(Records() - old(Records()))
      ensures Abs() == Checked(options, old(Abs()), old(Abs()).Keys, check)
    {
      hide Checked;
      ghost var was, done := Abs(), {};
      var todo := entries.Keys;
      CheckedNone(options, was, check);
      while todo != {}
        invariant todo !! done && todo + done == was.Keys
        invariant Valid() && fresh(Records() - old(Records()))
        invariant Abs() == Checked(options, was, done, check)
        decreases todo
      {
        var b :| b in todo;
        CheckOne(b, check(b));
        CheckedOneMore(options, was, done, b, check);
        todo, done := todo - {b}, done + {b};
      }
      assert done == was.Keys;
    }

    method CheckOne(b: Addr, f: Finding)
      requires Valid()
      modifies this, Records()
      ensures Valid() && fresh(Records() - old(Records()))
      ensures Abs() == Record(options, old(Abs()), b, EventOf(f))
    {
      match f.outcome {
        case Some(err) => RecordFailure(b, err, f.at, f.pauseAt);
        case None => RecordSuccess(b, f.at);
      }
    }
  }

  // The entries after the backends in `done` have been checked.
  function Checked(o: Options, m: map<Addr, Entry>, done: set<Addr>, check: Addr -> Finding)
    : map<Addr, Entry>
  {
    map b | b in m :: if b in done then Step(o, m[b], EventOf(check(b))) else m[b]
  }

  // A check is booked: an error, its text and its time as one failure more, no error as
  // one success more, and either ends a run of the other.
  ghost predicate Counted(was: Entry, f: Finding, e: Entry) {
    && e.lastChecked == f.at
    && match f.outcome
       case Some(err) =>
         && e.failures == was.failures + 1 && e.successes == was.successes
         && e.fails == was.fails + 1 && e.oks == 0 && e.lastError == err
       case None =>
         && e.successes == was.successes + 1 && e.failures == was.failures
         && e.oks == was.oks + 1 && e.fails == 0 && e.lastError == []
  }

  lemma CheckCounts(o: Options, m: map<Addr, Entry>, b: Addr, check: Addr -> Finding)
    requires b in m
    ensures var e := Checked(o, m, m.Keys, check)[b];
      && (check(b).outcome.Some? ==> e.failures == m[b].failures + 1 && e.successes == m[b].successes)
      && (check(b).outcome.None? ==> e.successes == m[b].successes + 1 && e.failures == m[b].failures)
      && Counted(m[b], check(b), e)
  {
  }

  lemma CheckedNone(o: Options, m: map<Addr, Entry>, check: Addr -> Finding)
    ensures Checked(o, m, {}, check) == m
  {
  }

  lemma CheckedOneMore(o: Options, m: map<Addr, Entry>, done: set<Addr>, b: Addr, check: Addr -> Finding)
    requires o.enabled && b in m && b !in done
    ensures Record(o, Checked(o, m, done, check), b, EventOf(check(b)))
         == Checked(o, m, done + {b}, check)
  {
  }

  // --------------------------------------------------------------- closed forms

  // The entry after a whole history of checks.
  function After(o: Options, h: seq<Event>): Entry {
    if h == [] then NEW else Step(o, After(o, h[..|h| - 1]), h[|h| - 1])
  }

  // The length of the run of failures, or of successes, a history ends with.
  function TrailBad(h: seq<Event>): (n: nat)
    ensures n <= |h|
  {
    if h == [] || h[|h| - 1].Good? then 0 else 1 + TrailBad(h[..|h| - 1])
  }

  function TrailGood(h: seq<Event>): (n: nat)
    ensures n <= |h|
  {
    if h == [] || h[|h| - 1].Bad? then 0 else 1 + TrailGood(h[..|h| - 1])
  }

  function CountBad(h: seq<Event>): nat {
    if h == [] then 0 else CountBad(h[..|h| - 1]) + if h[|h| - 1].Bad? then 1 else 0
  }

  // The lengths of the maximal runs of failures, latest first.
  function BadRuns(h: seq<Event>): seq<nat>
    decreases |h|
  {
    if h == [] then []
    else if h[|h| - 1].Good? then BadRuns(h[..|h| - 1])
    else [TrailBad(h)] + BadRuns(h[..|h| - TrailBad(h)])
  }

  function TripsOfRun(o: Options, n: nat): nat {
    if n < o.failureThreshold then 0 else n - o.failureThreshold + 1
  }

  function TripSum(o: Options, runs: seq<nat>): nat
    requires Sane(o)
  {
    if runs == [] then 0 else TripsOfRun(o, runs[0]) + TripSum(o, runs[1..])
  }

  // The consecutive counters are the trailing run lengths; the totals count the history.
  lemma {:induction false} CountersClosedForm(o: Options, h: seq<Event>)
    ensures After(o, h).fails == TrailBad(h) && After(o, h).oks == TrailGood(h)
    ensures After(o, h).failures == CountBad(h) && After(o, h).successes == |h| - CountBad(h)
  {
    if h != [] {
      CountersClosedForm(o, h[..|h| - 1]);
    }
  }

  // One more failure lengthens the run a history ends with, or starts one.
  lemma BadRunsMore(h: seq<Event>)
    requires h != [] && h[|h| - 1].Bad?
    ensures var before, r := h[..|h| - 1], TrailBad(h) - 1;
      && r == TrailBad(before)
      && BadRuns(h) == [r + 1] + BadRuns(before[..|before| - r])
      && BadRuns(before) == (if r > 0 then [r] else []) + BadRuns(before[..|before| - r])
  {
    var before := h[..|h| - 1];
    var r := TrailBad(before);
    assert h[..|h| - (r + 1)] == before[..|before| - r];
    if r == 0 {
      assert before[..|before|] == before;
    }
  }

  lemma TripSumFirst(o: Options, n: nat, runs: seq<nat>)
    requires Sane(o)
    ensures TripSum(o, [n] + runs) == TripsOfRun(o, n) + TripSum(o, runs)
  {
    assert ([n] + runs)[1..] == runs;
  }

  // Every failure from the threshold on trips the breaker, run by run.
  lemma {:induction false} TripsClosedForm(o: Options, h: seq<Event>)
    requires Sane(o)
    ensures After(o, h).trips == TripSum(o, BadRuns(h))
  {
    hide TripSum;
    if h == [] {
      NoTrips(o);
    } else {
      var n := |h| - 1;
      var before := h[..n];
      TripsClosedForm(o, before);
      if h[n].Bad? {
        CountersClosedForm(o, before);
        BadRunsMore(h);
        var r := TrailBad(before);
        var rest := BadRuns(before[..n - r]);
        TripSumFirst(o, r + 1, rest);
        TripSumFirst(o, r, rest);
        assert r == 0 ==> [] + rest == rest;
      }
    }
  }

  lemma NoTrips(o: Options)
    requires Sane(o)
    ensures TripSum(o, []) == 0
  {
  }

  // At step `i` the run then under way had reached its threshold.
  ghost predicate Decisive(o: Options, h: seq<Event>, i: nat) {
    && i < |h|
    && (h[i].Good? ==> TrailGood(h[..i + 1]) >= o.successThreshold)
    && (h[i].Bad? ==> TrailBad(h[..i + 1]) >= o.failureThreshold)
  }

  ghost predicate LastDecisive(o: Options, h: seq<Event>, i: nat) {
    Decisive(o, h, i) && forall j :: i < j < |h| ==> !Decisive(o, h, j)
  }

  // The verdict is that of the last run to reach its threshold, healthy before any has.
  lemma {:induction false} VerdictClosedForm(o: Options, h: seq<Event>)
    ensures After(o, h).healthy <==> !exists i: nat :: LastDecisive(o, h, i) && h[i].Bad?
  {
    if h != [] {
      var n := |h| - 1;
      var before := h[..n];
      VerdictClosedForm(o, before);
      CountersClosedForm(o, h);
      assert h[..n + 1] == h;
      if Decisive(o, h, n) {
        assert LastDecisive(o, h, n);
      } else {
        forall i: nat | i < n ensures LastDecisive(o, h, i) <==> LastDecisive(o, before, i) {
          LastDecisivePrefix(o, h, i);
        }
        assert After(o, h).healthy == After(o, before).healthy;
      }
    }
  }

  // The circuit stays open for the configured time from the last failure that reached the
  // threshold, unless successes have reached theirs since.
  lemma {:induction false} DeadlineClosedForm(o: Options, h: seq<Event>, i: nat)
    requires LastDecisive(o, h, i)
    ensures After(o, h).openUntil == if h[i].Bad? then h[i].pauseAt + o.circuitBreakerTTL else 0
  {
    hide After;
    if i == |h| - 1 {
      DecidedLast(o, h);
    } else {
      UndecidedLast(o, h);
      LastDecisivePrefix(o, h, i);
      DeadlineClosedForm(o, h[..|h| - 1], i);
    }
  }

  lemma DecidedLast(o: Options, h: seq<Event>)
    requires h != [] && Decisive(o, h, |h| - 1)
    ensures var ev := h[|h| - 1];
      After(o, h).openUntil == if ev.Bad? then ev.pauseAt + o.circuitBreakerTTL else 0
  {
    CountersClosedForm(o, h);
    assert h[..|h| - 1 + 1] == h;
  }

  lemma UndecidedLast(o: Options, h: seq<Event>)
    requires h != [] && !Decisive(o, h, |h| - 1)
    ensures After(o, h).openUntil == After(o, h[..|h| - 1]).openUntil
  {
    CountersClosedForm(o, h);
    assert h[..|h| - 1 + 1] == h;
  }

  // Nobody is reported unhealthy by a disabled checker, nor a backend never recorded; any
  // other backend is until the last run that reached its threshold is one of successes.
  lemma UnhealthyExactly(o: Options, m: map<Addr, Entry>, b: Addr, h: seq<Event>, now: int)
    requires Sane(o) && forall ev :: ev in h && ev.Bad? ==> ev.pauseAt >= 0
    requires b in m ==> m[b] == After(o, h)
    ensures IsUnhealthy(o, m, b, now)
      <==> o.enabled && b in m && exists i: nat :: LastDecisive(o, h, i) && h[i].Bad?
  {
    if o.enabled && b in m {
      UnhealthyIsNotHealthy(o, m, b, h, now);
      VerdictClosedForm(o, h);
    }
  }

  lemma DecisivePrefix(o: Options, h: seq<Event>, i: nat)
    requires i < |h| - 1
    ensures Decisive(o, h, i) <==> Decisive(o, h[..|h| - 1], i)
  {
    assert h[..|h| - 1][..i + 1] == h[..i + 1];
  }

  lemma LastDecisivePrefix(o: Options, h: seq<Event>, i: nat)
    requires i < |h| - 1 && !Decisive(o, h, |h| - 1)
    ensures LastDecisive(o, h, i) <==> LastDecisive(o, h[..|h| - 1], i)
  {
    hide Decisive;
    var before := h[..|h| - 1];
    DecisivePrefix(o, h, i);
    forall j: nat | i < j < |before| ensures Decisive(o, h, j) <==> Decisive(o, before, j) {
      DecisivePrefix(o, h, j);
    }
    assert (forall j :: i < j < |h| ==> !Decisive(o, h, j))
      <==> (forall j :: i < j < |before| ==> !Decisive(o, before, j));
  }

  // The circuit has a deadline exactly while the backend is unhealthy.
  lemma {:induction false} CircuitIffUnhealthy(o: Options, h: seq<Event>)
    requires Sane(o) && forall ev :: ev in h && ev.Bad? ==> ev.pauseAt >= 0
    ensures After(o, h).healthy <==> After(o, h).openUntil == 0
  {
    if h != [] {
      CircuitIffUnhealthy(o, h[..|h| - 1]);
      assert h[|h| - 1] in h;
    }
  }

  // So for an enabled checker "unhealthy" is exactly "not healthy": an open circuit adds
  // nothing to it.
  lemma UnhealthyIsNotHealthy(o: Options, m: map<Addr, Entry>, b: Addr, h: seq<Event>, now: int)
    requires o.enabled && Sane(o) && forall ev :: ev in h && ev.Bad? ==> ev.pauseAt >= 0
    requires b in m && m[b] == After(o, h)
    ensures IsUnhealthy(o, m, b, now) <==> !After(o, h).healthy
    ensures CircuitOpen(m[b], now) ==> !m[b].healthy
  {
    CircuitIffUnhealthy(o, h);
  }

  // --------------------------------------------------------- one backend among many

  // Events in the order the checker records them, each with the backend it is about.
  type Log = seq<(Addr, Event)>

  function RecordAll(o: Options, m: map<Addr, Entry>, log: Log): map<Addr, Entry> {
    if log == [] then m
    else Record(o, RecordAll(o, m, log[..|log| - 1]), log[|log| - 1].0, log[|log| - 1].1)
  }

  function EventsFor(log: Log, b: Addr): seq<Event> {
    if log == [] then []
    else EventsFor(log[..|log| - 1], b) + if log[|log| - 1].0 == b then [log[|log| - 1].1] else []
  }

  // Whatever is recorded about all of them, each backend's entry is that of its own
  // history alone.
  lemma {:induction false} RecordProjection(o: Options, m: map<Addr, Entry>, h: seq<Event>, log: Log, b: Addr)
    requires o.enabled && Known(m, b) == After(o, h)
    ensures Known(RecordAll(o, m, log), b) == After(o, h + EventsFor(log, b))
  {
    hide Step;
    if log == [] {
      assert h + [] == h;
    } else {
      var n := |log| - 1;
      RecordProjection(o, m, h, log[..n], b);
      var g := h + EventsFor(log[..n], b);
      if log[n].0 == b {
        assert h + EventsFor(log, b) == g + [log[n].1];
        assert (g + [log[n].1])[..|g|] == g;
      } else {
        assert h + EventsFor(log, b) == g;
      }
    }
  }
}
