/** internal/cache/status_cache.go under concurrency.  A call is cut where it takes and
    drops the lock or reads the clock outside it; the pieces of any number of calls
    interleave freely.  Reading drops the read lock before it decides and locks anew to
    delete; storing reads the clock before it locks. */
module CacheLocks {
  import opened Wrappers
  import opened Bits
  import opened Messages
  import opened Cache

  // Where a call stands.
  datatype Pc =
    | Read(key: GoString, item: Option<Entry>)
    | Evicting(key: GoString, seen: Entry)
    | FallbackRead(key: GoString, item: Option<Entry>, protocol: int32, options: FallbackOptions)
    | Discarding(key: GoString)
    | Setting(key: GoString, entry: Entry)

  // `sets` lists what was stored, in the order the write lock was taken.
  datatype State = State(entries: Table, now: int, calls: map<nat, Pc>, sets: seq<(GoString, Entry)>)

  datatype Action =
    | Tick(now: int)
    | StartGet(call: nat, key: GoString)
    | DecideGet(call: nat)
    | EvictGet(call: nat)
    | StartFallback(call: nat, key: GoString, protocol: int32, options: FallbackOptions)
    | DecideFallback(call: nat)
    | DiscardFallback(call: nat)
    | StartSet(call: nat, key: GoString, data: seq<byte>, ttl: int, fallbackTTL: int)
    | CommitSet(call: nat)

  const INITIAL := State(map[], 1, map[], [])

  function At(s: State, c: nat, pc: Pc): State {
    s.(calls := s.calls[c := pc])
  }

  function Done(s: State, c: nat): State {
    s.(calls := s.calls - {c})
  }

  function Lookup(m: Table, k: GoString): Option<Entry> {
    if k in m then Some(m[k]) else None
  }

  predicate Fresh(item: Option<Entry>, now: int) {
    item.Some? && now < item.value.freshUntil
  }

  predicate Usable(item: Option<Entry>, now: int) {
    item.Some? && now <= item.value.staleUntil && item.value.motd != []
  }

  predicate Enabled(s: State, a: Action) {
    match a
    case Tick(now) => now >= s.now
    case StartGet(c, _) => c !in s.calls
    case StartFallback(c, _, _, _) => c !in s.calls
    case StartSet(c, _, _, ttl, _) => c !in s.calls && ttl > 0
    case DecideGet(c) => c in s.calls && s.calls[c].Read?
    case EvictGet(c) => c in s.calls && s.calls[c].Evicting?
    case DecideFallback(c) => c in s.calls && s.calls[c].FallbackRead?
    case DiscardFallback(c) => c in s.calls && s.calls[c].Discarding?
    case CommitSet(c) => c in s.calls && s.calls[c].Setting?
  }

  function Next(json: Json, s: State, a: Action): State
    requires Enabled(s, a)
  {
    match a
    case Tick(now) => s.(now := now)
    case StartGet(c, k) => At(s, c, Read(k, Lookup(s.entries, k)))
    case DecideGet(c) =>
      var pc := s.calls[c];
      if pc.item.None? || Fresh(pc.item, s.now) then Done(s, c) else At(s, c, Evicting(pc.key, pc.item.value))
    case EvictGet(c) =>
      var pc := s.calls[c];
      Done(if s.now > pc.seen.staleUntil then s.(entries := s.entries - {pc.key}) else s, c)
    case StartFallback(c, k, protocol, options) =>
      At(s, c, FallbackRead(k, Lookup(s.entries, k), protocol, options))
    case DecideFallback(c) =>
      var pc := s.calls[c];
      if pc.item.None? || Usable(pc.item, s.now) then Done(s, c) else At(s, c, Discarding(pc.key))
    case DiscardFallback(c) => Done(s.(entries := s.entries - {s.calls[c].key}), c)
    case StartSet(c, k, data, ttl, fallbackTTL) =>
      At(s, c, Setting(k, MakeEntry(json, data, ttl, fallbackTTL, s.now)))
    case CommitSet(c) =>
      var pc := s.calls[c];
      Done(s.(entries := s.entries[pc.key := pc.entry], sets := s.sets + [(pc.key, pc.entry)]), c)
  }

  // What a call returns at the step that ends it with data.
  function Reply(json: Json, s: State, a: Action): Option<seq<byte>>
    requires Enabled(s, a)
  {
    match a
    case DecideGet(c) =>
      var pc := s.calls[c];
      if Fresh(pc.item, s.now) then Some(pc.item.value.data) else None
    case DecideFallback(c) =>
      var pc := s.calls[c];
      if Usable(pc.item, s.now) then BuildFallback(json, pc.item.value.motd, pc.protocol, pc.options) else None
    case _ => None
  }

  // The state after more steps, if every one of them is enabled.
  function From(json: Json, s: State, more: seq<Action>): Option<State> {
    if more == [] then Some(s)
    else match From(json, s, more[..|more| - 1])
      case None => None
      case Some(t) => if Enabled(t, more[|more| - 1]) then Some(Next(json, t, more[|more| - 1])) else None
  }

  // The state after a run.
  function After(json: Json, run: seq<Action>): Option<State> {
    From(json, INITIAL, run)
  }

  // The last thing stored under a key.
  function Latest(sets: seq<(GoString, Entry)>, k: GoString): Option<Entry> {
    if sets == [] then None
    else if sets[|sets| - 1].0 == k then Some(sets[|sets| - 1].1)
    else Latest(sets[..|sets| - 1], k)
  }

  lemma LatestAppend(sets: seq<(GoString, Entry)>, k: GoString, e: Entry, j: GoString)
    ensures Latest(sets + [(k, e)], j) == if j == k then Some(e) else Latest(sets, j)
  {
    assert (sets + [(k, e)])[..|sets|] == sets;
  }

  // No run resurrects or mislabels anything: what is stored under a key is always the
  // entry of the latest Set for that very key.
  lemma {:induction false} StoredIsLatest(json: Json, run: seq<Action>, k: GoString)
    requires After(json, run).Some? && k in After(json, run).value.entries
    ensures Latest(After(json, run).value.sets, k) == Some(After(json, run).value.entries[k])
  {
    if run != [] {
      var before, a := run[..|run| - 1], run[|run| - 1];
      var s := After(json, before).value;
      if a.CommitSet? {
        LatestAppend(s.sets, s.calls[a.call].key, s.calls[a.call].entry, k);
      }
      if k in s.entries {
        StoredIsLatest(json, before, k);
      }
    }
  }

  predicate ActsFor(a: Action, c: nat) {
    !a.Tick? && a.call == c
  }

  // Step `m` of the run is where call `c` read the cache; it has done nothing since.
  ghost predicate ReadAt(json: Json, run: seq<Action>, c: nat, a: Action, m: nat) {
    && m < |run| && run[m] == a && After(json, run[..m]).Some?
    && forall i :: m < i < |run| ==> !ActsFor(run[i], c)
  }

  lemma {:induction false} ReadOrigin(json: Json, run: seq<Action>, c: nat) returns (m: nat)
    requires After(json, run).Some? && c in After(json, run).value.calls
    requires var pc := After(json, run).value.calls[c]; pc.Read? || pc.FallbackRead?
    ensures var pc := After(json, run).value.calls[c];
      && ReadAt(json, run, c,
                if pc.Read? then StartGet(c, pc.key) else StartFallback(c, pc.key, pc.protocol, pc.options), m)
      && pc.item == Lookup(After(json, run[..m]).value.entries, pc.key)
      && After(json, run[..m]).value.now <= After(json, run).value.now
  {
    var n := |run| - 1;
    var before := run[..n];
    if ActsFor(run[n], c) {
      m := n;
    } else {
      m := ReadOrigin(json, before, c);
      assert before[..m] == run[..m];
      assert forall i :: m < i < n ==> run[i] == before[i];
    }
  }

  // The entry was the latest Set for `k` when the cache was read at step `m`.
  ghost predicate LatestAt(json: Json, run: seq<Action>, m: nat, k: GoString, e: Entry) {
    && m <= |run| && After(json, run[..m]).Some?
    && Latest(After(json, run[..m]).value.sets, k) == Some(e)
  }

  // Every hit linearizes at its read-lock step: the data is that of the latest Set for
  // the key at that moment, in lock order, and had not expired then.
  lemma HitLinearizes(json: Json, run: seq<Action>, c: nat) returns (m: nat, k: GoString, e: Entry)
    requires After(json, run).Some? && Enabled(After(json, run).value, DecideGet(c))
    requires Reply(json, After(json, run).value, DecideGet(c)).Some?
    ensures ReadAt(json, run, c, StartGet(c, k), m) && LatestAt(json, run, m, k, e)
    ensures Reply(json, After(json, run).value, DecideGet(c)) == Some(e.data)
    ensures After(json, run[..m]).value.now < e.freshUntil
  {
    var pc := After(json, run).value.calls[c];
    m := ReadOrigin(json, run, c);
    k, e := pc.key, pc.item.value;
    StoredIsLatest(json, run[..m], k);
  }

  // A fallback likewise: it is built from the description of the latest Set for the key
  // when the cache was read, not yet stale then.
  lemma FallbackLinearizes(json: Json, run: seq<Action>, c: nat)
    returns (m: nat, k: GoString, e: Entry, protocol: int32, options: FallbackOptions)
    requires After(json, run).Some? && Enabled(After(json, run).value, DecideFallback(c))
    requires Reply(json, After(json, run).value, DecideFallback(c)).Some?
    ensures ReadAt(json, run, c, StartFallback(c, k, protocol, options), m) && LatestAt(json, run, m, k, e)
    ensures Reply(json, After(json, run).value, DecideFallback(c)) == BuildFallback(json, e.motd, protocol, options)
    ensures After(json, run[..m]).value.now <= e.staleUntil
  {
    var pc := After(json, run).value.calls[c];
    m := ReadOrigin(json, run, c);
    k, e, protocol, options := pc.key, pc.item.value, pc.protocol, pc.options;
    StoredIsLatest(json, run[..m], k);
  }

  // What a run can do is lose an entry: a Get that saw the stale entry deletes the fresh
  // one another call stored in the meantime.
  function LosingRun(k: GoString, data: seq<byte>): seq<Action> {
    [StartSet(0, k, data, 1, 0), CommitSet(0), Tick(10), StartGet(1, k), DecideGet(1),
     StartSet(2, k, data, 5, 0), CommitSet(2), EvictGet(1)]
  }

  lemma NewerEntryLost(json: Json, k: GoString, data: seq<byte>)
    ensures var s := After(json, LosingRun(k, data));
      && s.Some? && k !in s.value.entries
      && Latest(s.value.sets, k).Some? && Fresh(Latest(s.value.sets, k), s.value.now)
  {
    var run := LosingRun(k, data);
    var e, f := MakeEntry(json, data, 1, 0, 1), MakeEntry(json, data, 5, 0, 10);
    assert e.staleUntil < 10 < f.freshUntil;
    hide MakeEntry, After, Latest;
    StaleEntrySeen(json, k, data, e);
    var s5 := State(map[k := e], 10, map[1 := Evicting(k, e)], [(k, e)]);
    Unfold(json, run, 5, s5, s5.(calls := map[1 := Evicting(k, e), 2 := Setting(k, f)]));
    var s7 := State(map[k := f], 10, map[1 := Evicting(k, e)], [(k, e), (k, f)]);
    assert s7.sets == s5.sets + [(k, f)];
    Unfold(json, run, 6, s5.(calls := map[1 := Evicting(k, e), 2 := Setting(k, f)]), s7);
    Unfold(json, run, 7, s7, s7.(entries := map[], calls := map[]));
    assert run[..8] == run;
    LatestAppend(s5.sets, k, f, k);
  }

  lemma StaleEntrySeen(json: Json, k: GoString, data: seq<byte>, e: Entry)
    requires e == MakeEntry(json, data, 1, 0, 1)
    ensures After(json, LosingRun(k, data)[..5])
         == Some(State(map[k := e], 10, map[1 := Evicting(k, e)], [(k, e)]))
  {
    var run := LosingRun(k, data);
    assert e.freshUntil < 10;
    OldEntryStored(json, k, data, e);
    hide MakeEntry, After;
    var s := State(map[k := e], 10, map[], [(k, e)]);
    Unfold(json, run, 3, s, s.(calls := map[1 := Read(k, Some(e))]));
    Unfold(json, run, 4, s.(calls := map[1 := Read(k, Some(e))]), s.(calls := map[1 := Evicting(k, e)]));
  }

  lemma OldEntryStored(json: Json, k: GoString, data: seq<byte>, e: Entry)
    requires e == MakeEntry(json, data, 1, 0, 1)
    ensures After(json, LosingRun(k, data)[..3]) == Some(State(map[k := e], 10, map[], [(k, e)]))
  {
    var run := LosingRun(k, data);
    assert After(json, run[..0]) == Some(INITIAL);
    hide MakeEntry, After;
    Unfold(json, run, 0, INITIAL, INITIAL.(calls := map[0 := Setting(k, e)]));
    var s := State(map[k := e], 1, map[], [(k, e)]);
    Unfold(json, run, 1, INITIAL.(calls := map[0 := Setting(k, e)]), s);
    Unfold(json, run, 2, s, s.(now := 10));
  }

  lemma Unfold(json: Json, run: seq<Action>, n: nat, s: State, t: State)
    requires n < |run| && After(json, run[..n]) == Some(s)
    requires Enabled(s, run[n]) && t == Next(json, s, run[n])
    ensures After(json, run[..n + 1]) == Some(t)
  {
    assert run[..n + 1][..n] == run[..n];
  }

  // ---------------------------------------------- the pieces of a call, run back to back

  lemma GetAlone(json: Json, s: State, c: nat, k: GoString, at: int, evictAt: int)
    requires c !in s.calls && s.now <= at <= evictAt
    ensures var r := Next(json, Next(json, s, StartGet(c, k)), Tick(at));
      var d := Next(json, r, DecideGet(c));
      && Reply(json, r, DecideGet(c)) == Answer(json, s.entries, Get(k, at, evictAt))
      && Step(json, s.entries, Get(k, at, evictAt))
         == if c in d.calls then Next(json, Next(json, d, Tick(evictAt)), EvictGet(c)).entries else d.entries
  {
  }

  lemma FallbackAlone(json: Json, s: State, c: nat, k: GoString, at: int, protocol: int32, options: FallbackOptions)
    requires c !in s.calls && s.now <= at
    ensures var r := Next(json, Next(json, s, StartFallback(c, k, protocol, options)), Tick(at));
      var d := Next(json, r, DecideFallback(c));
      && Reply(json, r, DecideFallback(c)) == Answer(json, s.entries, Fallback(k, at, protocol, options))
      && Step(json, s.entries, Fallback(k, at, protocol, options))
         == if c in d.calls then Next(json, d, DiscardFallback(c)).entries else d.entries
  {
    if k !in s.entries {
      assert s.entries - {k} == s.entries;
    }
  }

  lemma SetAlone(json: Json, s: State, c: nat, k: GoString, data: seq<byte>, ttl: int, fallbackTTL: int)
    requires c !in s.calls && ttl > 0
    ensures Next(json, Next(json, s, StartSet(c, k, data, ttl, fallbackTTL)), CommitSet(c)).entries
         == Step(json, s.entries, Set(k, s.now, data, ttl, fallbackTTL))
  {
    hide MakeEntry;
  }

  // ------------------------------------------------------------- when an entry is lost

  predicate StoresAt(s: State, a: Action, k: GoString) {
    a.CommitSet? && a.call in s.calls && s.calls[a.call].Setting? && s.calls[a.call].key == k
  }

  // The steps that delete: a Get that finds what it saw stale by now, and a fallback.
  predicate DeletesAt(s: State, a: Action, k: GoString) {
    || (a.EvictGet? && a.call in s.calls && s.calls[a.call].Evicting? && s.calls[a.call].key == k
        && s.now > s.calls[a.call].seen.staleUntil)
    || (a.DiscardFallback? && a.call in s.calls && s.calls[a.call].Discarding? && s.calls[a.call].key == k)
  }

  ghost predicate NoStore(json: Json, s: State, more: seq<Action>, k: GoString) {
    forall i :: 0 <= i < |more| && From(json, s, more[..i]).Some? ==>
      !StoresAt(From(json, s, more[..i]).value, more[i], k)
  }

  ghost predicate Deleted(json: Json, s: State, more: seq<Action>, k: GoString, i: nat) {
    i < |more| && From(json, s, more[..i]).Some? && DeletesAt(From(json, s, more[..i]).value, more[i], k)
  }

  lemma NoStorePrefix(json: Json, s: State, more: seq<Action>, k: GoString)
    requires more != [] && NoStore(json, s, more, k)
    ensures NoStore(json, s, more[..|more| - 1], k)
    ensures From(json, s, more).Some? ==> From(json, s, more[..|more| - 1]).Some?
  {
    hide StoresAt;
    var before := more[..|more| - 1];
    forall i | 0 <= i < |before| && From(json, s, before[..i]).Some?
      ensures !StoresAt(From(json, s, before[..i]).value, before[i], k)
    {
      assert before[..i] == more[..i];
    }
  }

  // What a stored entry meets until its key is stored again: it is gone if and only if
  // one of the deleting steps was taken; else it is unchanged.
  lemma {:induction false} LostIff(json: Json, s: State, more: seq<Action>, k: GoString)
    requires k in s.entries && From(json, s, more).Some? && NoStore(json, s, more, k)
    ensures k !in From(json, s, more).value.entries <==> exists i: nat :: Deleted(json, s, more, k, i)
    ensures k in From(json, s, more).value.entries ==> From(json, s, more).value.entries[k] == s.entries[k]
  {
    hide Next;
    if more != [] {
      var n := |more| - 1;
      var before := more[..n];
      NoStorePrefix(json, s, more, k);
      LostIff(json, s, before, k);
      var t := From(json, s, before).value;
      StepLoses(json, t, more[n], k);
      forall i: nat | i < n ensures Deleted(json, s, more, k, i) <==> Deleted(json, s, before, k, i) {
        assert before[..i] == more[..i];
      }
      assert Deleted(json, s, more, k, n) <==> DeletesAt(t, more[n], k);
      if i: nat :| Deleted(json, s, before, k, i) {
        assert Deleted(json, s, more, k, i);
      }
      if i: nat :| Deleted(json, s, more, k, i) {
        assert i < n ==> Deleted(json, s, before, k, i);
      }
    }
  }

  lemma StepLoses(json: Json, t: State, a: Action, k: GoString)
    requires Enabled(t, a) && !StoresAt(t, a, k)
    ensures k in Next(json, t, a).entries <==> k in t.entries && !DeletesAt(t, a, k)
    ensures k in Next(json, t, a).entries ==> Next(json, t, a).entries[k] == t.entries[k]
  {
  }

  // A call under way that can still delete `e`, stored under `k` and not yet stale: one
  // that read an older entry, and a fallback that read one with no description.
  predicate Threat(pc: Pc, k: GoString, e: Entry) {
    match pc
    case Read(j, item) =>
      j == k && item.Some? && item.value.freshUntil <= e.staleUntil && item.value.staleUntil < e.staleUntil
    case Evicting(j, seen) => j == k && seen.staleUntil < e.staleUntil
    case FallbackRead(j, item, _, _) =>
      j == k && item.Some? && (item.value.staleUntil < e.staleUntil || item.value.motd == [])
    case Discarding(j) => j == k
    case Setting(_, _) => false
  }

  ghost predicate Unthreatened(s: State, k: GoString, e: Entry) {
    e.motd != [] && forall c :: c in s.calls ==> !Threat(s.calls[c], k, e)
  }

  // Whatever happens next, the entry stays until it is stale or its key is stored again.
  ghost predicate Safe(json: Json, s: State, k: GoString, e: Entry) {
    forall more: seq<Action> :: NotOver(json, s, more, k, e) ==> k in From(json, s, more).value.entries
  }

  ghost predicate NotOver(json: Json, s: State, more: seq<Action>, k: GoString, e: Entry) {
    From(json, s, more).Some? && NoStore(json, s, more, k) && From(json, s, more).value.now <= e.staleUntil
  }

  lemma CalmStep(json: Json, t: State, a: Action, k: GoString, e: Entry)
    requires k in t.entries && t.entries[k] == e && Unthreatened(t, k, e)
    requires Enabled(t, a) && !StoresAt(t, a, k) && t.now <= Next(json, t, a).now <= e.staleUntil
    ensures k in Next(json, t, a).entries && Next(json, t, a).entries[k] == e
    ensures Unthreatened(Next(json, t, a), k, e)
  {
    StepLoses(json, t, a, k);
  }

  lemma {:induction false} Stays(json: Json, s: State, more: seq<Action>, k: GoString, e: Entry)
    requires k in s.entries && s.entries[k] == e && Unthreatened(s, k, e)
    requires NotOver(json, s, more, k, e)
    ensures s.now <= From(json, s, more).value.now
    ensures k in From(json, s, more).value.entries && From(json, s, more).value.entries[k] == e
    ensures Unthreatened(From(json, s, more).value, k, e)
  {
    hide Next, Unthreatened;
    if more != [] {
      var n := |more| - 1;
      NoStorePrefix(json, s, more, k);
      var t := From(json, s, more[..n]).value;
      NeverBack(json, t, more[n]);
      Stays(json, s, more[..n], k, e);
      CalmStep(json, t, more[n], k, e);
    }
  }

  lemma NeverBack(json: Json, t: State, a: Action)
    requires Enabled(t, a)
    ensures t.now <= Next(json, t, a).now
  {
  }

  // Some continuation loses the entry before its time.
  ghost predicate Doomed(json: Json, s: State, k: GoString, e: Entry) {
    exists more: seq<Action> :: NotOver(json, s, more, k, e) && k !in From(json, s, more).value.entries
  }

  lemma {:induction false} FirstStep(json: Json, s: State, a: Action, more: seq<Action>)
    requires Enabled(s, a)
    ensures From(json, s, [a] + more) == From(json, Next(json, s, a), more)
  {
    hide Next;
    var all := [a] + more;
    if more == [] {
      assert all == [a] && all[..0] == [];
    } else {
      var n := |more| - 1;
      FirstStep(json, s, a, more[..n]);
      assert all[..n + 1] == [a] + more[..n];
    }
  }

  lemma NoStoreFirst(json: Json, s: State, a: Action, more: seq<Action>, k: GoString)
    requires Enabled(s, a) && !StoresAt(s, a, k) && NoStore(json, Next(json, s, a), more, k)
    ensures NoStore(json, s, [a] + more, k)
  {
    hide Next, StoresAt;
    var all := [a] + more;
    forall i | 0 <= i < |all| && From(json, s, all[..i]).Some?
      ensures !StoresAt(From(json, s, all[..i]).value, all[i], k)
    {
      if i > 0 {
        FirstStep(json, s, a, more[..i - 1]);
        assert all[..i] == [a] + more[..i - 1];
      } else {
        assert all[..0] == [];
      }
    }
  }

  lemma DoomedBefore(json: Json, s: State, a: Action, k: GoString, e: Entry)
    requires Enabled(s, a) && !StoresAt(s, a, k) && Doomed(json, Next(json, s, a), k, e)
    ensures Doomed(json, s, k, e)
  {
    hide Next, From, NoStore, StoresAt;
    var more :| NotOver(json, Next(json, s, a), more, k, e) && k !in From(json, Next(json, s, a), more).value.entries;
    FirstStep(json, s, a, more);
    NoStoreFirst(json, s, a, more, k);
    assert NotOver(json, s, [a] + more, k, e);
  }

  lemma Gone(json: Json, s: State, k: GoString, e: Entry)
    requires k !in s.entries && s.now <= e.staleUntil
    ensures Doomed(json, s, k, e)
  {
    assert NotOver(json, s, [], k, e);
  }

  lemma DiscardDooms(json: Json, s: State, c: nat, k: GoString, e: Entry)
    requires c in s.calls && s.calls[c] == Discarding(k) && s.now <= e.staleUntil
    ensures Doomed(json, s, k, e)
  {
    hide Doomed;
    Gone(json, Next(json, s, DiscardFallback(c)), k, e);
    DoomedBefore(json, s, DiscardFallback(c), k, e);
  }

  lemma EvictDooms(json: Json, s: State, c: nat, seen: Entry, k: GoString, e: Entry)
    requires c in s.calls && s.calls[c] == Evicting(k, seen) && seen.staleUntil < s.now <= e.staleUntil
    ensures Doomed(json, s, k, e)
  {
    hide Doomed;
    Gone(json, Next(json, s, EvictGet(c)), k, e);
    DoomedBefore(json, s, EvictGet(c), k, e);
  }

  // At the last moment before the entry is stale every threat can strike.
  lemma ThreatDooms(json: Json, s: State, c: nat, k: GoString, e: Entry)
    requires c in s.calls && Threat(s.calls[c], k, e) && s.now == e.staleUntil
    ensures Doomed(json, s, k, e)
  {
    hide Doomed;
    match s.calls[c]
    case Read(_, item) =>
      EvictDooms(json, Next(json, s, DecideGet(c)), c, item.value, k, e);
      DoomedBefore(json, s, DecideGet(c), k, e);
    case Evicting(_, seen) =>
      EvictDooms(json, s, c, seen, k, e);
    case FallbackRead(_, item, _, _) =>
      DiscardDooms(json, Next(json, s, DecideFallback(c)), c, k, e);
      DoomedBefore(json, s, DecideFallback(c), k, e);
    case Discarding(_) =>
      DiscardDooms(json, s, c, k, e);
  }

  lemma UndescribedDooms(json: Json, s: State, c: nat, k: GoString, e: Entry, options: FallbackOptions)
    requires c !in s.calls && k in s.entries && s.entries[k] == e && e.motd == [] && s.now == e.staleUntil
    ensures Doomed(json, s, k, e)
  {
    hide Doomed;
    var start := StartFallback(c, k, 0, options);
    ThreatDooms(json, Next(json, s, start), c, k, e);
    DoomedBefore(json, s, start, k, e);
  }

  lemma UnusedCall(calls: map<nat, Pc>) returns (c: nat)
    ensures c !in calls
  {
    c := Above(calls.Keys);
  }

  lemma Above(used: set<nat>) returns (c: nat)
    ensures forall x :: x in used ==> x < c
  {
    c := 0;
    var left := used;
    while left != {}
      invariant left <= used && forall x :: x in used && x !in left ==> x < c
      decreases left
    {
      var x :| x in left;
      left := left - {x};
      c := if x < c then c else x + 1;
    }
  }

  // Exactly when an entry that is not yet stale is safe, in every state and over every
  // continuation: if it has a description and no call under way read an older entry of
  // its key, or one without a description, and has yet to delete it.
  lemma SafeIff(json: Json, s: State, k: GoString, options: FallbackOptions)
    requires k in s.entries && s.now <= s.entries[k].staleUntil
    ensures Safe(json, s, k, s.entries[k]) <==> Unthreatened(s, k, s.entries[k])
  {
    hide From, Next, NoStore;
    var e := s.entries[k];
    if Unthreatened(s, k, e) {
      forall more: seq<Action> | NotOver(json, s, more, k, e) ensures k in From(json, s, more).value.entries {
        Stays(json, s, more, k, e);
      }
    } else {
      ThreatenedDoomed(json, s, k, options);
    }
  }

  lemma ThreatenedDoomed(json: Json, s: State, k: GoString, options: FallbackOptions)
    requires k in s.entries && s.now <= s.entries[k].staleUntil && !Unthreatened(s, k, s.entries[k])
    ensures Doomed(json, s, k, s.entries[k])
  {
    hide Doomed, Threat;
    var e := s.entries[k];
    var late := s.(now := e.staleUntil);
    if e.motd == [] {
      var c := UnusedCall(s.calls);
      UndescribedDooms(json, late, c, k, e, options);
    } else {
      var c :| c in s.calls && Threat(s.calls[c], k, e);
      ThreatDooms(json, late, c, k, e);
    }
    DoomedBefore(json, s, Tick(e.staleUntil), k, e);
  }

  // ------------------------------------------------------------------------ provenance

  // Step `i` of the run started the Set that made entry `e` under `k`.
  ghost predicate MadeAt(json: Json, run: seq<Action>, k: GoString, e: Entry, i: nat) {
    && i < |run| && run[i].StartSet? && run[i].key == k && After(json, run[..i]).Some?
    && e == MakeEntry(json, run[i].data, run[i].ttl, run[i].fallbackTTL, After(json, run[..i]).value.now)
  }

  lemma {:induction false} SetOrigin(json: Json, run: seq<Action>, k: GoString, e: Entry) returns (i: nat)
    requires After(json, run).Some?
    requires (k, e) in After(json, run).value.sets
      || exists c :: c in After(json, run).value.calls && After(json, run).value.calls[c] == Setting(k, e)
    ensures MadeAt(json, run, k, e, i)
  {
    hide MakeEntry;
    var n := |run| - 1;
    var before, a := run[..n], run[n];
    var s := After(json, before).value;
    if a.StartSet? && a.key == k && e == MakeEntry(json, a.data, a.ttl, a.fallbackTTL, s.now) {
      i := n;
    } else {
      i := SetOrigin(json, before, k, e);
      assert before[..i] == run[..i];
    }
  }

  lemma {:induction false} LatestStored(sets: seq<(GoString, Entry)>, k: GoString)
    ensures Latest(sets, k).Some? ==> (k, Latest(sets, k).value) in sets
  {
    if sets != [] && sets[|sets| - 1].0 != k {
      LatestStored(sets[..|sets| - 1], k);
    } else if sets != [] {
      assert sets[|sets| - 1] == (k, sets[|sets| - 1].1);
    }
  }

  // The bytes of a hit are exactly those some earlier Set was called with under the same
  // key, and were read less than one TTL after that call read the clock.
  lemma HitProvenance(json: Json, run: seq<Action>, c: nat) returns (i: nat, m: nat)
    requires After(json, run).Some? && Enabled(After(json, run).value, DecideGet(c))
    requires Reply(json, After(json, run).value, DecideGet(c)).Some?
    ensures i < m < |run| && run[i].StartSet? && run[m].StartGet? && run[m].call == c
    ensures run[i].key == run[m].key
    ensures Reply(json, After(json, run).value, DecideGet(c)) == Some(run[i].data)
    ensures After(json, run[..i]).Some? && After(json, run[..m]).Some?
    ensures After(json, run[..m]).value.now < After(json, run[..i]).value.now + run[i].ttl
  {
    var k, e;
    m, k, e := HitLinearizes(json, run, c);
    LatestStored(After(json, run[..m]).value.sets, k);
    i := SetOrigin(json, run[..m], k, e);
    assert run[..m][..i] == run[..i];
  }
}
