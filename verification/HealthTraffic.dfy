/** Status requests and active checks on one health checker, any number of them at once.
    A request asks whether its backend is unhealthy when it begins and reports what became
    of its attempt when it ends (internal/proxy/server.go:332 and 353-399), and much can
    happen in between; checks are recorded one at a time (internal/health/checker.go:190-207).
    Every recording holds the checker's lock.  The proxy falls back when unhealthy. */
module HealthTraffic {
  import opened Wrappers
  import opened Health

  // Where a request stands that has asked.
  datatype Pc = Trying(b: Addr) | Spared(b: Addr) | Over(b: Addr)

  datatype State = State(entries: map<Addr, Entry>, calls: map<nat, Pc>, now: int)

  datatype Action =
    | Check(b: Addr, ev: Event)
    | Ask(call: nat, b: Addr, at: int)
    | Report(call: nat, b: Addr, ev: Event)

  function EndOf(ev: Event): int {
    if ev.Good? then ev.at else ev.pauseAt
  }

  predicate Timely(now: int, ev: Event) {
    now <= ev.at <= EndOf(ev)
  }

  predicate Enabled(s: State, a: Action) {
    match a
    case Check(_, ev) => Timely(s.now, ev)
    case Ask(c, _, at) => c !in s.calls && s.now <= at
    case Report(c, b, ev) => c in s.calls && s.calls[c] == Trying(b) && Timely(s.now, ev)
  }

  function Next(o: Options, s: State, a: Action): State
    requires Enabled(s, a)
  {
    match a
    case Check(b, ev) => s.(entries := Record(o, s.entries, b, ev), now := EndOf(ev))
    case Ask(c, b, at) =>
      s.(calls := s.calls[c := if IsUnhealthy(o, s.entries, b, at) then Spared(b) else Trying(b)], now := at)
    case Report(c, b, ev) =>
      State(Record(o, s.entries, b, ev), s.calls[c := Over(b)], EndOf(ev))
  }

  // The state after more steps, if every one of them is enabled.
  function From(o: Options, s: State, run: seq<Action>): Option<State> {
    if run == [] then Some(s)
    else match From(o, s, run[..|run| - 1])
      case None => None
      case Some(t) => if Enabled(t, run[|run| - 1]) then Some(Next(o, t, run[|run| - 1])) else None
  }

  // The checker knows the backend and holds it unhealthy, whatever the time.
  predicate Down(o: Options, m: map<Addr, Entry>, b: Addr) {
    o.enabled && b in m && !m[b].healthy
  }

  function InFlight(s: State, b: Addr): set<nat> {
    set c | c in s.calls && s.calls[c] == Trying(b)
  }

  function LogOf(run: seq<Action>): Log {
    if run == [] then []
    else
      var a := run[|run| - 1];
      LogOf(run[..|run| - 1]) + if a.Ask? then [] else [(a.b, a.ev)]
  }

  lemma PrefixState(o: Options, s: State, run: seq<Action>, i: nat)
    requires i <= |run| && From(o, s, run).Some?
    ensures From(o, s, run[..i]).Some?
    ensures i < |run| ==>
      && Enabled(From(o, s, run[..i]).value, run[i])
      && From(o, s, run[..i + 1]) == Some(Next(o, From(o, s, run[..i]).value, run[i]))
    decreases |run|
  {
    hide Next, Enabled;
    if i == |run| {
      assert run[..i] == run;
    } else if i == |run| - 1 {
      assert run[..i + 1] == run;
    } else {
      var before := run[..|run| - 1];
      PrefixState(o, s, before, i);
      assert before[..i] == run[..i] && before[..i + 1] == run[..i + 1];
    }
  }

  // ---------------------------------------------- histories, over every interleaving

  // The entries are what recording the log leaves, so each is that of its own history.
  lemma {:induction false} EntriesFromLog(o: Options, s: State, run: seq<Action>)
    requires From(o, s, run).Some?
    ensures From(o, s, run).value.entries == RecordAll(o, s.entries, LogOf(run))
  {
    hide Record, RecordAll, IsUnhealthy;
    if run == [] {
      RecordNone(o, s.entries);
    } else {
      var n := |run| - 1;
      var log := LogOf(run[..n]);
      EntriesFromLog(o, s, run[..n]);
      if run[n].Ask? {
        assert LogOf(run) == log;
      } else {
        RecordOneMore(o, s.entries, log, run[n].b, run[n].ev);
      }
    }
  }

  lemma RecordNone(o: Options, m: map<Addr, Entry>)
    ensures RecordAll(o, m, []) == m
  {
  }

  lemma RecordOneMore(o: Options, m: map<Addr, Entry>, log: Log, b: Addr, ev: Event)
    ensures RecordAll(o, m, log + [(b, ev)]) == Record(o, RecordAll(o, m, log), b, ev)
  {
    hide Record;
    assert (log + [(b, ev)])[..|log|] == log;
  }

  lemma EntryOfHistory(o: Options, s: State, h: seq<Event>, run: seq<Action>, b: Addr)
    requires o.enabled && Known(s.entries, b) == After(o, h) && From(o, s, run).Some?
    ensures Known(From(o, s, run).value.entries, b) == After(o, h + EventsFor(LogOf(run), b))
  {
    EntriesFromLog(o, s, run);
    RecordProjection(o, s.entries, h, LogOf(run), b);
  }

  // ----------------------------------------- a request begun while unhealthy is silent

  // A call asks once, and once spared or over it stays so.
  lemma {:induction false} CallStays(o: Options, s: State, run: seq<Action>, i: nat, j: nat, c: nat)
    requires From(o, s, run).Some? && i <= j <= |run|
    requires From(o, s, run[..i]).Some? && c in From(o, s, run[..i]).value.calls
    ensures From(o, s, run[..j]).Some? && c in From(o, s, run[..j]).value.calls
    ensures !From(o, s, run[..i]).value.calls[c].Trying? ==>
      From(o, s, run[..j]).value.calls[c] == From(o, s, run[..i]).value.calls[c]
    ensures From(o, s, run[..i]).value.calls[c].Trying? ==>
      var pc := From(o, s, run[..i]).value.calls[c];
      From(o, s, run[..j]).value.calls[c] in {pc, Over(pc.b)}
    decreases j
  {
    hide From, Record, IsUnhealthy;
    if i < j {
      CallStays(o, s, run, i, j - 1, c);
      PrefixState(o, s, run, j - 1);
    } else {
      PrefixState(o, s, run, j);
    }
  }

  // Over every interleaving, a request that asked while its backend was unhealthy never
  // reports anything, however its backend fares later.
  lemma AskedWhileDown(o: Options, s: State, run: seq<Action>, i: nat, j: nat)
    requires From(o, s, run).Some? && i < |run| && j < |run| && run[i].Ask? && run[j].Report?
    requires From(o, s, run[..i]).Some? && Down(o, From(o, s, run[..i]).value.entries, run[i].b)
    ensures run[j].call != run[i].call
  {
    hide From;
    PrefixState(o, s, run, i);
    PrefixState(o, s, run, j);
    if run[j].call == run[i].call {
      var c := run[i].call;
      if j < i {
        CallStays(o, s, run, j, i, c);
      } else {
        CallStays(o, s, run, i + 1, j, c);
      }
    }
  }

  // And any request reports at most once.
  lemma ReportsOnce(o: Options, s: State, run: seq<Action>, i: nat, j: nat)
    requires From(o, s, run).Some? && i < j < |run| && run[i].Report? && run[j].Report?
    ensures run[i].call != run[j].call
  {
    hide From;
    PrefixState(o, s, run, i);
    PrefixState(o, s, run, j);
    if run[i].call == run[j].call {
      CallStays(o, s, run, i + 1, j, run[i].call);
    }
  }

  // ------------------------------------------------- while a backend stays unhealthy

  // Before each of the steps the backend is unhealthy.
  ghost predicate DownThroughout(o: Options, s: State, run: seq<Action>, b: Addr) {
    forall i :: 0 <= i < |run| ==> From(o, s, run[..i]).Some? && Down(o, From(o, s, run[..i]).value.entries, b)
  }

  // The events of the checks on `b`, and of the reports on it by the calls given.
  function EventsOf(run: seq<Action>, b: Addr, calls: set<nat>): seq<Event> {
    if run == [] then []
    else
      var a := run[|run| - 1];
      EventsOf(run[..|run| - 1], b, calls)
      + if a.b == b && (a.Check? || (a.Report? && a.call in calls)) then [a.ev] else []
  }

  lemma DownPrefix(o: Options, s: State, run: seq<Action>, b: Addr)
    requires run != [] && DownThroughout(o, s, run, b)
    ensures DownThroughout(o, s, run[..|run| - 1], b)
    ensures From(o, s, run[..|run| - 1]).Some? && Down(o, From(o, s, run[..|run| - 1]).value.entries, b)
  {
    hide From, Down;
    var before := run[..|run| - 1];
    forall i | 0 <= i < |before|
      ensures From(o, s, before[..i]).Some? && Down(o, From(o, s, before[..i]).value.entries, b)
    {
      assert before[..i] == run[..i];
    }
  }

  // No new call comes to try it.
  lemma {:induction false} FlightShrinks(o: Options, s: State, run: seq<Action>, b: Addr)
    requires From(o, s, run).Some? && DownThroughout(o, s, run, b)
    ensures InFlight(From(o, s, run).value, b) <= InFlight(s, b)
  {
    hide Record;
    if run != [] {
      DownPrefix(o, s, run, b);
      FlightShrinks(o, s, run[..|run| - 1], b);
    }
  }

  // While a backend stays unhealthy its history grows by the checks and by the reports of
  // the calls that were already trying it, each at most once; nothing else.
  lemma {:induction false} RequestsChangeNothing(o: Options, s: State, run: seq<Action>, b: Addr)
    requires From(o, s, run).Some? && DownThroughout(o, s, run, b)
    ensures EventsFor(LogOf(run), b) == EventsOf(run, b, InFlight(s, b))
  {
    hide Record, IsUnhealthy, Down;
    if run != [] {
      var n := |run| - 1;
      var before, a := run[..n], run[n];
      DownPrefix(o, s, run, b);
      RequestsChangeNothing(o, s, before, b);
      FlightShrinks(o, s, before, b);
      if !a.Ask? {
        var log := LogOf(before) + [(a.b, a.ev)];
        assert log[..|log| - 1] == LogOf(before);
      } else {
        assert LogOf(run) == LogOf(before);
      }
    }
  }

  // With no call in flight on it, it recovers exactly with a check that completes enough
  // good events in a row, and those since are all of checks.
  lemma RecoveryOnlyByChecks(o: Options, s: State, run: seq<Action>, b: Addr, h: seq<Event>)
    requires Sane(o) && Known(s.entries, b) == After(o, h) && InFlight(s, b) == {}
    requires run != [] && From(o, s, run).Some? && DownThroughout(o, s, run, b)
    ensures EventsFor(LogOf(run), b) == EventsOf(run, b, {})
    ensures Known(From(o, s, run).value.entries, b).healthy
      <==> run[|run| - 1].Check? && run[|run| - 1].b == b && TrailGood(h + EventsOf(run, b, {})) >= o.successThreshold
  {
    hide From, EventsFor, LogOf;
    var n := |run| - 1;
    var before, a := run[..n], run[n];
    DownPrefix(o, s, run, b);
    PrefixState(o, s, run, n);
    assert run[..n + 1] == run;
    RequestsChangeNothing(o, s, run, b);
    RequestsChangeNothing(o, s, before, b);
    EntryOfHistory(o, s, h, run, b);
    EntryOfHistory(o, s, h, before, b);
    var g := h + EventsOf(before, b, {});
    if a.Check? && a.b == b {
      assert h + EventsOf(run, b, {}) == g + [a.ev];
      LastEventDecides(o, g, a.ev);
    } else {
      assert h + EventsOf(run, b, {}) == g;
    }
  }

  lemma LastEventDecides(o: Options, g: seq<Event>, ev: Event)
    requires Sane(o) && !After(o, g).healthy
    ensures After(o, g + [ev]).healthy <==> TrailGood(g + [ev]) >= o.successThreshold
  {
    var t := g + [ev];
    assert t[..|g|] == g;
    CountersClosedForm(o, t);
  }

  // ----------------------------------------------------- calls that were in flight

  // What the calls in flight can still make of an unhealthy backend: a success each, on
  // top of those it ends with.
  function Potential(s: State, b: Addr): nat {
    Known(s.entries, b).oks + |InFlight(s, b)|
  }

  ghost predicate Unchecked(run: seq<Action>, b: Addr) {
    forall i :: 0 <= i < |run| ==> !(run[i].Check? && run[i].b == b)
  }

  lemma ReportLands(s: State, c: nat, b: Addr)
    requires c in s.calls && s.calls[c] == Trying(b)
    ensures InFlight(s.(calls := s.calls[c := Over(b)]), b) == InFlight(s, b) - {c}
    ensures |InFlight(s, b) - {c}| == |InFlight(s, b)| - 1
  {
    assert c in InFlight(s, b);
  }

  lemma NotEnoughStep(o: Options, s: State, a: Action, b: Addr)
    requires Sane(o) && Down(o, s.entries, b) && Potential(s, b) < o.successThreshold
    requires Enabled(s, a) && !(a.Check? && a.b == b)
    ensures Down(o, Next(o, s, a).entries, b) && Potential(Next(o, s, a), b) <= Potential(s, b)
  {
    var t := Next(o, s, a);
    match a
    case Check(_, _) => assert InFlight(t, b) == InFlight(s, b);
    case Ask(c, _, _) => assert InFlight(t, b) == InFlight(s, b) || a.b != b;
      if a.b != b {
        assert InFlight(t, b) == InFlight(s, b);
      }
    case Report(c, d, ev) =>
      if d == b {
        ReportLands(s, c, b);
        assert InFlight(t, b) == InFlight(s, b) - {c};
      } else {
        assert InFlight(t, b) == InFlight(s, b);
      }
  }

  lemma {:induction false} NeverEnough(o: Options, s: State, run: seq<Action>, b: Addr)
    requires Sane(o) && Down(o, s.entries, b) && Potential(s, b) < o.successThreshold
    requires From(o, s, run).Some? && Unchecked(run, b)
    ensures Down(o, From(o, s, run).value.entries, b)
    ensures Potential(From(o, s, run).value, b) <= Potential(s, b)
  {
    hide Next, Down, Potential, Enabled;
    if run != [] {
      var n := |run| - 1;
      NeverEnough(o, s, run[..n], b);
      NotEnoughStep(o, From(o, s, run[..n]).value, run[n], b);
    }
  }

  lemma {:induction false} FirstStep(o: Options, s: State, a: Action, more: seq<Action>)
    requires Enabled(s, a)
    ensures From(o, s, [a] + more) == From(o, Next(o, s, a), more)
  {
    hide Next;
    var all := [a] + more;
    if more == [] {
      assert all == [a] && all[..0] == [];
    } else {
      var n := |more| - 1;
      FirstStep(o, s, a, more[..n]);
      assert all[..n + 1] == [a] + more[..n];
    }
  }

  // One success after the other, of calls in flight.
  lemma {:induction false} Restore(o: Options, s: State, b: Addr) returns (run: seq<Action>)
    requires Sane(o) && Down(o, s.entries, b) && s.entries[b].oks < o.successThreshold <= Potential(s, b)
    ensures Unchecked(run, b) && From(o, s, run).Some? && !Down(o, From(o, s, run).value.entries, b)
    decreases |InFlight(s, b)|
  {
    assert InFlight(s, b) != {};
    var c :| c in InFlight(s, b);
    var a := Report(c, b, Good(s.now));
    var t := Next(o, s, a);
    ReportLands(s, c, b);
    assert InFlight(t, b) == InFlight(s, b) - {c};
    assert t.entries[b].oks == s.entries[b].oks + 1;
    if t.entries[b].oks >= o.successThreshold {
      run := [a];
      FirstStep(o, s, a, []);
    } else {
      var rest := Restore(o, t, b);
      FirstStep(o, s, a, rest);
      run := [a] + rest;
    }
  }

  ghost predicate RestoredBy(o: Options, s: State, run: seq<Action>, b: Addr) {
    Unchecked(run, b) && From(o, s, run).Some? && !Down(o, From(o, s, run).value.entries, b)
  }

  // Exactly when an unhealthy backend can recover without any further check of it: when
  // the successes it ends with and the calls in flight on it add up to the threshold.
  lemma LateSuccessIff(o: Options, s: State, b: Addr, h: seq<Event>)
    requires Sane(o) && Down(o, s.entries, b) && s.entries[b] == After(o, h)
    ensures (exists run: seq<Action> :: RestoredBy(o, s, run, b)) <==> Potential(s, b) >= o.successThreshold
  {
    hide From, Potential;
    LowWhileDown(o, h);
    if Potential(s, b) >= o.successThreshold {
      var run := Restore(o, s, b);
      assert RestoredBy(o, s, run, b);
    } else {
      forall run: seq<Action> ensures !RestoredBy(o, s, run, b) {
        if Unchecked(run, b) && From(o, s, run).Some? {
          NeverEnough(o, s, run, b);
        }
      }
    }
  }

  lemma {:induction false} LowWhileDown(o: Options, h: seq<Event>)
    requires Sane(o)
    ensures !After(o, h).healthy ==> After(o, h).oks < o.successThreshold
  {
    if h != [] {
      LowWhileDown(o, h[..|h| - 1]);
    }
  }

  // With the default thresholds one request is enough: it asks while all is well, two
  // checks fail, and its success restores the backend.
  function LateRun(b: Addr): seq<Action> {
    [Ask(0, b, 1), Check(b, Bad(2, 2, [])), Check(b, Bad(3, 3, [])), Report(0, b, Good(4))]
  }

  lemma LateSuccess(o: Options, b: Addr)
    requires Sane(o) && o.enabled && o.failureThreshold == 2 && o.successThreshold == 1
    ensures var s := State(map[b := NEW], map[], 1);
      && From(o, s, LateRun(b)[..3]).Some? && Down(o, From(o, s, LateRun(b)[..3]).value.entries, b)
      && From(o, s, LateRun(b)).Some? && !Down(o, From(o, s, LateRun(b)).value.entries, b)
  {
    var run, s := LateRun(b), State(map[b := NEW], map[], 1);
    assert run[..3][..2] == run[..2] && run[..2][..1] == run[..1] && run[..1][..0] == [];
    assert From(o, s, run[..1]) == Some(Next(o, s, run[0]));
    assert From(o, s, run[..2]) == Some(Next(o, From(o, s, run[..1]).value, run[1]));
    assert From(o, s, run[..3]) == Some(Next(o, From(o, s, run[..2]).value, run[2]));
  }
}
