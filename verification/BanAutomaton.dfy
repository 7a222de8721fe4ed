/** internal/fail2ban/guard.go for one key: a failure counter over a fixed window that
    restarts at the first failure after it ran out, and a ban that is deleted lazily.

    Times are integers above zero; zero is Go's zero time and means "never set". */
module BanAutomaton {
  import opened Wrappers

  datatype Options = Options(enabled: bool, maxFailures: int, window: int, banDuration: int, earlyDisconnect: int)

  // What New guarantees of the options it stores.
  predicate Sane(o: Options) {
    o.maxFailures > 0 && o.window > 0 && o.banDuration > 0 && o.earlyDisconnect > 0
  }

  datatype Entry = Entry(failures: nat, windowStart: int, bannedUntil: int)

  const NO_ENTRY := Entry(0, 0, 0)

  // `Clear` is a recorded success or an unban.
  datatype Event = Ask(now: int) | Fail(now: int) | Clear(now: int)

  function AfterFailure(o: Options, s: Option<Entry>, now: int): Entry {
    var item := if s.Some? then s.value else NO_ENTRY;
    var current :=
      if item.windowStart == 0 || now - item.windowStart > o.window
      then item.(windowStart := now, failures := 0) else item;
    var counted := current.(failures := current.failures + 1);
    if counted.failures >= o.maxFailures then counted.(bannedUntil := now + o.banDuration) else counted
  }

  function Step(o: Options, s: Option<Entry>, e: Event): Option<Entry> {
    match e
    case Ask(now) => if s.Some? && now >= s.value.bannedUntil && s.value.bannedUntil != 0 then None else s
    case Fail(now) => Some(AfterFailure(o, s, now))
    case Clear(_) => None
  }

  // What IsBanned and RecordFailure return.
  function Answer(o: Options, s: Option<Entry>, e: Event): bool {
    match e
    case Ask(now) => s.Some? && now < s.value.bannedUntil
    case Fail(now) => var item := AfterFailure(o, s, now); item.bannedUntil != 0 && now < item.bannedUntil
    case Clear(_) => false
  }

  function Run(o: Options, s: Option<Entry>, evs: seq<Event>): Option<Entry> {
    if evs == [] then s else Step(o, Run(o, s, evs[..|evs| - 1]), evs[|evs| - 1])
  }

  function CountFails(evs: seq<Event>): nat {
    if evs == [] then 0
    else CountFails(evs[..|evs| - 1]) + (if evs[|evs| - 1].Fail? then 1 else 0)
  }

  ghost predicate Ordered(evs: seq<Event>) {
    && (forall i :: 0 <= i < |evs| ==> evs[i].now > 0)
    && (forall i, j :: 0 <= i < j < |evs| ==> evs[i].now <= evs[j].now)
  }

  ghost predicate NoClear(evs: seq<Event>, from: nat) {
    forall k :: from <= k < |evs| ==> !evs[k].Clear?
  }

  lemma {:induction false} RunConcat(o: Options, s: Option<Entry>, a: seq<Event>, b: seq<Event>)
    ensures Run(o, s, a + b) == Run(o, Run(o, s, a), b)
  {
    if b == [] {
      assert a + b == a;
    } else {
      RunConcat(o, s, a, b[..|b| - 1]);
      assert (a + b)[..|a + b| - 1] == a + b[..|b| - 1];
    }
  }

  // RecordFailure answers what IsBanned would, asked right after it at the same time.
  lemma FailureAnswersLikeAsk(o: Options, s: Option<Entry>, now: int)
    requires now > 0
    ensures Answer(o, s, Fail(now)) == Answer(o, Step(o, s, Fail(now)), Ask(now))
  {
  }

  // ------------------------------------------------------------ where an entry comes from

  // The entry's window was opened by one failure of this key; it counts every failure
  // since, all within the window, and nothing has cleared the key since then.
  lemma {:induction false} WindowOrigin(o: Options, evs: seq<Event>) returns (i: nat)
    requires Sane(o) && Ordered(evs) && Run(o, None, evs).Some?
    ensures i < |evs| && evs[i].Fail? && NoClear(evs, i)
    ensures var e := Run(o, None, evs).value;
      && e.windowStart == evs[i].now
      && e.failures == CountFails(evs[i..]) > 0
      && forall k :: i <= k < |evs| && evs[k].Fail? ==> evs[k].now - e.windowStart <= o.window
  {
    hide CountFails, Run;
    RunLast(o, evs);
    var n := |evs| - 1;
    var before, last := evs[..n], evs[n];
    var s := Run(o, None, before);
    if last.Fail? && (s.None? || last.now - s.value.windowStart > o.window) {
      i := n;
      CountOne(evs);
    } else {
      assert s.Some?;
      i := WindowOrigin(o, before);
      CountLast(evs, i);
      forall k | i <= k < |evs| ensures !evs[k].Clear? {
        assert k < n ==> before[k] == evs[k];
      }
    }
  }

  lemma RunLast(o: Options, evs: seq<Event>)
    ensures evs == [] ==> Run(o, None, evs) == None
    ensures evs != [] ==> Run(o, None, evs) == Step(o, Run(o, None, evs[..|evs| - 1]), evs[|evs| - 1])
  {
  }

  lemma CountOne(evs: seq<Event>)
    requires evs != [] && evs[|evs| - 1].Fail?
    ensures CountFails(evs[|evs| - 1..]) == 1
  {
    var t := evs[|evs| - 1..];
    assert t == [evs[|evs| - 1]] && t[..0] == [] && CountFails(t[..0]) == 0;
  }

  lemma CountLast(evs: seq<Event>, i: nat)
    requires i < |evs|
    ensures CountFails(evs[i..])
         == CountFails(evs[..|evs| - 1][i..]) + if evs[|evs| - 1].Fail? then 1 else 0
  {
    assert evs[i..][..|evs[i..]| - 1] == evs[..|evs| - 1][i..];
  }

  // Failure `j` of the run starts or renews a ban.
  ghost predicate Grants(o: Options, evs: seq<Event>, j: nat) {
    && j < |evs| && evs[j].Fail?
    && AfterFailure(o, Run(o, None, evs[..j]), evs[j].now).failures >= o.maxFailures
  }

  lemma {:induction false} BanOrigin(o: Options, evs: seq<Event>) returns (j: nat)
    requires Sane(o) && Ordered(evs)
    requires Run(o, None, evs).Some? && Run(o, None, evs).value.bannedUntil != 0
    ensures Grants(o, evs, j) && NoClear(evs, j)
    ensures Run(o, None, evs).value.bannedUntil == evs[j].now + o.banDuration
  {
    var n := |evs| - 1;
    var before, last := evs[..n], evs[n];
    if Grants(o, evs, n) {
      j := n;
    } else {
      j := BanOrigin(o, before);
      assert before[..j] == evs[..j];
    }
  }

  // ---------------------------------------------------------------- soundness of a ban

  // Failures `i` to `j` of the run lie within one window and are enough for a ban; no
  // success or unban has come since failure `i`.
  ghost predicate Offence(o: Options, evs: seq<Event>, i: nat, j: nat) {
    && i <= j < |evs| && evs[i].Fail? && evs[j].Fail?
    && evs[j].now - evs[i].now <= o.window
    && CountFails(evs[i..j + 1]) >= o.maxFailures
    && NoClear(evs, i)
  }

  ghost predicate Punished(o: Options, evs: seq<Event>, t: int, i: nat, j: nat) {
    Offence(o, evs, i, j) && evs[j].now <= t < evs[j].now + o.banDuration
  }

  lemma BanSound(o: Options, evs: seq<Event>, t: int)
    requires Sane(o) && Ordered(evs + [Ask(t)])
    requires Answer(o, Run(o, None, evs), Ask(t))
    ensures exists i: nat, j: nat :: Punished(o, evs, t, i, j)
  {
    hide Run, CountFails;
    OrderedPrefix(evs, [Ask(t)]);
    assert (evs + [Ask(t)])[|evs|] == Ask(t);
    var j := BanOrigin(o, evs);
    RunLast(o, evs[..j + 1]);
    var upto := evs[..j + 1];
    assert upto[..j] == evs[..j];
    var i := WindowOrigin(o, upto);
    assert upto[i..] == evs[i..j + 1];
    assert evs[j] == (evs + [Ask(t)])[j];
    assert NoClear(evs, i) by {
      forall k | i <= k < |evs| ensures !evs[k].Clear? {
        if k <= j {
          assert evs[k] == upto[k];
        }
      }
    }
    assert Punished(o, evs, t, i, j);
  }

  lemma OrderedPrefix(a: seq<Event>, b: seq<Event>)
    requires Ordered(a + b)
    ensures Ordered(a)
  {
    var c := a + b;
    assert forall i :: 0 <= i < |a| ==> a[i] == c[i];
  }

  // ---------------------------------------------------------------- duration of a ban

  lemma {:induction false} BanPersists(o: Options, evs: seq<Event>, j: nat, n: nat)
    requires Sane(o) && Ordered(evs) && Grants(o, evs, j) && NoClear(evs, j)
    requires j < n <= |evs| && evs[n - 1].now < evs[j].now + o.banDuration
    ensures Run(o, None, evs[..n]).Some?
    ensures Run(o, None, evs[..n]).value.bannedUntil >= evs[j].now + o.banDuration
  {
    assert evs[..n][..n - 1] == evs[..n - 1] && evs[..n][n - 1] == evs[n - 1];
    if n > j + 1 {
      BanPersists(o, evs, j, n - 1);
    }
  }

  // Failure `j` granted a ban that nothing has cleared and that has not run out at `t`.
  ghost predicate InForce(o: Options, evs: seq<Event>, t: int, j: nat) {
    Grants(o, evs, j) && NoClear(evs, j) && t < evs[j].now + o.banDuration
  }

  // The exact life of a ban, over every run: a key is banned at `t` if and only if some
  // failure that reached the threshold lies less than BanDuration back and nothing has
  // cleared the key since.  In particular further failures never shorten a ban.
  lemma BannedIff(o: Options, evs: seq<Event>, t: int)
    requires Sane(o) && Ordered(evs + [Ask(t)])
    ensures Answer(o, Run(o, None, evs), Ask(t)) <==> exists j: nat :: InForce(o, evs, t, j)
  {
    if Answer(o, Run(o, None, evs), Ask(t)) {
      assert (evs + [Ask(t)])[|evs|] == Ask(t);
      OrderedPrefix(evs, [Ask(t)]);
      var j := BanOrigin(o, evs);
      assert InForce(o, evs, t, j);
    } else if j: nat :| InForce(o, evs, t, j) {
      BanHolds(o, evs, t, j);
    }
  }

  lemma BanHolds(o: Options, evs: seq<Event>, t: int, j: nat)
    requires Sane(o) && Ordered(evs + [Ask(t)]) && InForce(o, evs, t, j)
    ensures Answer(o, Run(o, None, evs), Ask(t))
  {
    var n, all := |evs|, evs + [Ask(t)];
    OrderedPrefix(evs, [Ask(t)]);
    assert all[n - 1] == evs[n - 1] && all[n] == Ask(t);
    BanPersists(o, evs, j, n);
    assert evs[..n] == evs;
  }

  // ------------------------------------------------- fixed window against sliding window

  ghost predicate NoBanOnRecord(s: Option<Entry>) {
    s.Some? ==> s.value.bannedUntil == 0
  }

  // No failure of the run is answered with a ban.
  ghost predicate Quiet(o: Options, s: Option<Entry>, evs: seq<Event>) {
    forall i :: 0 <= i < |evs| && evs[i].Fail? ==> !Answer(o, Run(o, s, evs[..i]), evs[i])
  }

  ghost predicate Within(evs: seq<Event>, start: int, span: int) {
    forall i :: 0 <= i < |evs| && evs[i].Fail? ==> start <= evs[i].now <= start + span
  }

  // How many failures of the run the window already stored takes in.
  function Inside(o: Options, s: Option<Entry>, evs: seq<Event>): nat {
    if evs == [] then 0
    else
      Inside(o, s, evs[..|evs| - 1])
      + if evs[|evs| - 1].Fail? && s.Some? && evs[|evs| - 1].now - s.value.windowStart <= o.window then 1 else 0
  }

  // That they, with those counted before, or else the ones behind them on their own, are
  // enough for a ban.
  predicate Reached(o: Options, s: Option<Entry>, evs: seq<Event>) {
    var a, c := Inside(o, s, evs), CountFails(evs);
    (s.Some? && a > 0 && s.value.failures + a >= o.maxFailures) || c - a >= o.maxFailures
  }

  lemma {:induction false} InsideFits(o: Options, s: Option<Entry>, evs: seq<Event>)
    ensures Inside(o, s, evs) <= CountFails(evs) && (Inside(o, s, evs) > 0 ==> s.Some?)
  {
    if evs != [] {
      InsideFits(o, s, evs[..|evs| - 1]);
    }
  }

  // The entry after a run that earned no ban: the stored one, counting on, until a failure
  // falls outside its window; from then on one that counts the failures from there.
  ghost predicate Counted(o: Options, s: Option<Entry>, evs: seq<Event>, start: int) {
    var t, a, c := Run(o, s, evs), Inside(o, s, evs), CountFails(evs);
    if c == 0 then t == s
    else if c == a then s.Some? && t == Some(s.value.(failures := s.value.failures + a))
    else
      && t.Some? && t.value.bannedUntil == 0 && t.value.failures == c - a && t.value.windowStart >= start
      && t.value.windowStart != 0
      && (s.Some? ==> t.value.windowStart - s.value.windowStart > o.window)
      && evs != [] && t.value.windowStart <= evs[|evs| - 1].now
  }

  lemma CountedStep(o: Options, s: Option<Entry>, evs: seq<Event>, start: int)
    requires Sane(o) && evs != [] && Ordered(evs) && NoClear(evs, 0) && Within(evs, start, o.window)
    requires NoBanOnRecord(s) && (s.Some? ==> 0 < s.value.failures < o.maxFailures && s.value.windowStart != 0)
    requires Counted(o, s, evs[..|evs| - 1], start) && !Reached(o, s, evs[..|evs| - 1])
    ensures evs[|evs| - 1].Fail? ==>
      (Answer(o, Run(o, s, evs[..|evs| - 1]), evs[|evs| - 1]) <==> Reached(o, s, evs))
    ensures !Reached(o, s, evs) ==> Counted(o, s, evs, start)
  {
    var n := |evs| - 1;
    var before := evs[..n];
    InsideFits(o, s, before);
    assert !evs[n].Clear? && evs[n].now > 0;
    assert n > 0 ==> before[n - 1] == evs[n - 1] && evs[n - 1].now <= evs[n].now;
    assert evs[n].Fail? ==> start <= evs[n].now <= start + o.window;
  }

  lemma {:induction false} QuietIffUnreached(o: Options, s: Option<Entry>, evs: seq<Event>, start: int)
    requires Sane(o) && Ordered(evs) && NoClear(evs, 0) && Within(evs, start, o.window)
    requires NoBanOnRecord(s) && (s.Some? ==> 0 < s.value.failures < o.maxFailures && s.value.windowStart != 0)
    ensures Quiet(o, s, evs) <==> !Reached(o, s, evs)
    ensures !Reached(o, s, evs) ==> Counted(o, s, evs, start)
  {
    hide Run, Answer, Counted, Ordered;
    if evs == [] {
      NothingCounted(o, s, start);
    } else {
      var n := |evs| - 1;
      var before := evs[..n];
      assert before + evs[n..] == evs;
      OrderedPrefix(before, evs[n..]);
      assert forall i :: 0 <= i < n ==> before[i] == evs[i];
      QuietIffUnreached(o, s, before, start);
      QuietLast(o, s, evs);
      MoreReaches(o, s, evs);
      if !Reached(o, s, before) {
        CountedStep(o, s, evs, start);
      }
    }
  }

  lemma NothingCounted(o: Options, s: Option<Entry>, start: int)
    requires Sane(o)
    ensures Counted(o, s, [], start) && !Reached(o, s, [])
  {
  }

  lemma QuietLast(o: Options, s: Option<Entry>, evs: seq<Event>)
    requires evs != []
    ensures var n := |evs| - 1;
      Quiet(o, s, evs) <==> Quiet(o, s, evs[..n]) && (evs[n].Fail? ==> !Answer(o, Run(o, s, evs[..n]), evs[n]))
  {
    hide Run, Answer;
    var n := |evs| - 1;
    var before := evs[..n];
    forall i | 0 <= i < n ensures before[..i] == evs[..i] && before[i] == evs[i] {
    }
  }

  lemma MoreReaches(o: Options, s: Option<Entry>, evs: seq<Event>)
    requires evs != []
    ensures Reached(o, s, evs[..|evs| - 1]) ==> Reached(o, s, evs)
    ensures !evs[|evs| - 1].Fail? ==> (Reached(o, s, evs) <==> Reached(o, s, evs[..|evs| - 1]))
  {
    InsideFits(o, s, evs[..|evs| - 1]);
  }

  // Of the failures within one span of length Window, exactly when one earns a ban: when
  // those the stored window still takes in, with those it has counted, or else those
  // behind it, reach MaxFailures.  (If no window is stored or it has run out at the first
  // of them, it takes in none.)  IsBanned may be asked in between, nothing clears the key.
  lemma WindowExact(o: Options, history: seq<Event>, evs: seq<Event>, start: int)
    requires Sane(o) && Ordered(history + evs)
    requires NoBanOnRecord(Run(o, None, history))
    requires NoClear(evs, 0) && Within(evs, start, o.window)
    ensures (exists i :: 0 <= i < |evs| && evs[i].Fail? && Answer(o, Run(o, None, history + evs[..i]), evs[i]))
      <==> Reached(o, Run(o, None, history), evs)
  {
    hide Run, Answer, Reached, Ordered;
    var s := Run(o, None, history);
    OrderedPrefix(history, evs);
    OrderedSuffix(history, evs);
    StoredCount(o, history);
    QuietIffUnreached(o, s, evs, start);
    forall i | 0 <= i < |evs| ensures Run(o, None, history + evs[..i]) == Run(o, s, evs[..i]) {
      RunConcat(o, None, history, evs[..i]);
    }
  }

  lemma OrderedSuffix(a: seq<Event>, b: seq<Event>)
    requires Ordered(a + b)
    ensures Ordered(b)
  {
    assert forall i :: 0 <= i < |b| ==> b[i] == (a + b)[|a| + i];
  }

  lemma StoredCount(o: Options, history: seq<Event>)
    requires Sane(o) && Ordered(history) && NoBanOnRecord(Run(o, None, history))
    ensures var s := Run(o, None, history);
      s.Some? ==> 0 < s.value.failures < o.maxFailures && s.value.windowStart != 0
  {
    if Run(o, None, history).Some? {
      var i := WindowOrigin(o, history);
      BelowThreshold(o, history);
    }
  }

  function Enough(o: Options): int {
    if 2 * o.maxFailures - 2 < 1 then 1 else 2 * o.maxFailures - 2
  }

  // Completeness: whatever happened before, if the key has no ban on record, then
  // max(1, 2 * MaxFailures - 2) failures of it within any span of length Window, however
  // the span lies to the windows the guard opens, cannot all go unanswered.
  lemma WindowComplete(o: Options, history: seq<Event>, evs: seq<Event>, start: int)
    requires Sane(o) && Ordered(history + evs)
    requires NoBanOnRecord(Run(o, None, history))
    requires NoClear(evs, 0) && Within(evs, start, o.window)
    requires CountFails(evs) >= Enough(o)
    ensures exists i :: 0 <= i < |evs| && evs[i].Fail? && Answer(o, Run(o, None, history + evs[..i]), evs[i])
  {
    hide Run, Answer, Ordered, CountFails, Inside;
    OrderedPrefix(history, evs);
    StoredCount(o, history);
    InsideFits(o, Run(o, None, history), evs);
    WindowExact(o, history, evs, start);
  }

  // An entry without a ban has stayed below the threshold.
  lemma {:induction false} BelowThreshold(o: Options, evs: seq<Event>)
    requires Sane(o) && Ordered(evs)
    requires Run(o, None, evs).Some? && Run(o, None, evs).value.bannedUntil == 0
    ensures Run(o, None, evs).value.failures < o.maxFailures
  {
    var before := evs[..|evs| - 1];
    if Run(o, None, before).Some? && Run(o, None, before).value.bannedUntil == 0 {
      BelowThreshold(o, before);
    }
  }

  // The bound is tight: one failure less, and there is a run without a ban.
  function Repeat(e: Event, n: nat): seq<Event> {
    seq(n, _ => e)
  }

  lemma {:induction false} RepeatedFailures(o: Options, e: Entry, now: int, n: nat)
    requires e.bannedUntil == 0 && e.windowStart != 0
    requires now - e.windowStart <= o.window && e.failures + n < o.maxFailures
    ensures Run(o, Some(e), Repeat(Fail(now), n)) == Some(e.(failures := e.failures + n))
    ensures CountFails(Repeat(Fail(now), n)) == n
    ensures Quiet(o, Some(e), Repeat(Fail(now), n))
  {
    var evs := Repeat(Fail(now), n);
    if n > 0 {
      RepeatedFailures(o, e, now, n - 1);
      var before := Repeat(Fail(now), n - 1);
      assert evs[..n - 1] == before;
      forall i | 0 <= i < |evs| && evs[i].Fail? ensures !Answer(o, Run(o, Some(e), evs[..i]), evs[i]) {
        assert i < n - 1 ==> before[..i] == evs[..i] && before[i] == evs[i];
      }
    }
  }

  ghost predicate Evades(o: Options, history: seq<Event>, evs: seq<Event>, start: int) {
    && Ordered(history + evs) && NoBanOnRecord(Run(o, None, history))
    && NoClear(evs, 0) && Within(evs, start, o.window)
    && Quiet(o, Run(o, None, history), evs)
  }

  // Fill the old window up to the brim, restart it, then fill the new one.
  function Evasion(o: Options): seq<Event>
    requires o.maxFailures >= 2
  {
    var m, start, late := o.maxFailures, 1 + o.window, 2 + o.window;
    Repeat(Fail(start), m - 2) + [Fail(late)] + Repeat(Fail(late), m - 2)
  }

  lemma WindowBoundTight(o: Options)
    requires Sane(o) && o.maxFailures >= 2
    ensures Evades(o, [Fail(1)], Evasion(o), 1 + o.window)
    ensures CountFails(Evasion(o)) == 2 * o.maxFailures - 3
  {
    assert [Fail(1)][..0] == [] && Run(o, None, [Fail(1)]) == Some(Entry(1, 1, 0));
    EvasionQuiet(o);
    EvasionTimes(o);
  }

  lemma EvasionTimes(o: Options)
    requires Sane(o) && o.maxFailures >= 2
    ensures Ordered([Fail(1)] + Evasion(o))
    ensures Within(Evasion(o), 1 + o.window, o.window) && NoClear(Evasion(o), 0)
  {
    var evs, k := Evasion(o), o.maxFailures - 2;
    assert forall i :: 0 <= i < |evs| ==> evs[i] == Fail(if i < k then 1 + o.window else 2 + o.window);
  }

  lemma EvasionQuiet(o: Options)
    requires Sane(o) && o.maxFailures >= 2
    ensures Quiet(o, Some(Entry(1, 1, 0)), Evasion(o))
    ensures CountFails(Evasion(o)) == 2 * o.maxFailures - 3
  {
    hide Run, Quiet, CountFails, Repeat;
    var m, start, late := o.maxFailures, 1 + o.window, 2 + o.window;
    var first, full, reopened := Entry(1, 1, 0), Entry(m - 1, 1, 0), Entry(1, late, 0);
    var a, b, c := Repeat(Fail(start), m - 2), [Fail(late)], Repeat(Fail(late), m - 2);
    RepeatedFailures(o, first, start, m - 2);
    ReopeningFailure(o, full, late);
    RepeatedFailures(o, reopened, late, m - 2);
    JoinQuiet(o, Some(first), a, b);
    JoinQuiet(o, Some(first), a + b, c);
  }

  lemma ReopeningFailure(o: Options, e: Entry, now: int)
    requires o.maxFailures >= 2 && e.bannedUntil == 0 && now - e.windowStart > o.window
    ensures Run(o, Some(e), [Fail(now)]) == Some(Entry(1, now, 0))
    ensures Quiet(o, Some(e), [Fail(now)]) && CountFails([Fail(now)]) == 1
  {
    assert [Fail(now)][..0] == [] && CountFails([]) == 0;
  }

  lemma JoinQuiet(o: Options, s: Option<Entry>, a: seq<Event>, b: seq<Event>)
    requires Quiet(o, s, a) && Quiet(o, Run(o, s, a), b)
    ensures Quiet(o, s, a + b)
    ensures Run(o, s, a + b) == Run(o, Run(o, s, a), b)
    ensures CountFails(a + b) == CountFails(a) + CountFails(b)
  {
    hide Run, Quiet, CountFails;
    QuietConcat(o, s, a, b);
    RunConcat(o, s, a, b);
    CountConcat(a, b);
  }

  lemma {:induction false} CountConcat(a: seq<Event>, b: seq<Event>)
    ensures CountFails(a + b) == CountFails(a) + CountFails(b)
  {
    if b == [] {
      assert a + b == a;
    } else {
      CountConcat(a, b[..|b| - 1]);
      assert (a + b)[..|a + b| - 1] == a + b[..|b| - 1];
    }
  }

  lemma QuietConcat(o: Options, s: Option<Entry>, a: seq<Event>, b: seq<Event>)
    requires Quiet(o, s, a) && Quiet(o, Run(o, s, a), b)
    ensures Quiet(o, s, a + b)
  {
    hide Run, Answer;
    var c := a + b;
    forall i | 0 <= i < |c| && c[i].Fail? ensures !Answer(o, Run(o, s, c[..i]), c[i]) {
      if i < |a| {
        assert c[..i] == a[..i] && a[i] == c[i];
      } else {
        assert c[..i] == a + b[..i - |a|] && c[i] == b[i - |a|];
        RunConcat(o, s, a, b[..i - |a|]);
      }
    }
  }
}
