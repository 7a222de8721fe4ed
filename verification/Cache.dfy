/** internal/cache/status_cache.go: a map of status responses with two deadlines each and
    lazy eviction, run one operation at a time.

    The JSON library is two functions handed in from outside: the description of a status
    document (empty if there is none) and the text of a fallback document, if it can be
    built. */
module Cache {
  import opened Wrappers
  import opened Bits
  import opened Packets
  import opened Messages
  import U = Utf8

  const MAX_PACKET_LENGTH: int := 0x1f_ffff

  datatype FallbackOptions = FallbackOptions(versionName: GoString, playersMax: int)

  datatype Json = Json(
    description: GoString -> seq<byte>,
    fallback: (int32, seq<byte>, FallbackOptions) -> Option<GoString>)

  datatype Entry = Entry(data: seq<byte>, motd: seq<byte>, freshUntil: int, staleUntil: int)

  type Table = map<GoString, Entry>

  function ExtractMOTD(json: Json, data: seq<byte>): seq<byte> {
    match DecodePacket(data, MAX_PACKET_LENGTH)
    case Bad(_, _) => []
    case Got(p) =>
      match ParseStatusJSON(p)
      case None => []
      case Some(text) => json.description(text)
  }

  function MakeEntry(json: Json, data: seq<byte>, ttl: int, fallbackTTL: int, now: int): Entry {
    Entry(data, ExtractMOTD(json, data), now + ttl, now + ttl + if fallbackTTL > 0 then fallbackTTL else 0)
  }

  function BuildFallback(json: Json, motd: seq<byte>, protocol: int32, options: FallbackOptions): Option<seq<byte>> {
    match json.fallback(protocol, motd, options)
    case None => None
    case Some(text) => Some(BuildStatusResponse(text).raw)
  }

  // One operation, with the clock readings it makes: GetFresh reads the clock once to
  // decide and, on its way to evict, once more under the lock.
  datatype Op =
    | Get(key: GoString, at: int, evictAt: int)
    | Fallback(key: GoString, at: int, protocol: int32, options: FallbackOptions)
    | Set(key: GoString, at: int, data: seq<byte>, ttl: int, fallbackTTL: int)

  function End(op: Op): int {
    if op.Get? then op.evictAt else op.at
  }

  predicate FreshAt(m: Table, k: GoString, t: int) {
    k in m && t < m[k].freshUntil
  }

  predicate UsableAt(m: Table, k: GoString, t: int) {
    k in m && t <= m[k].staleUntil && m[k].motd != []
  }

  function Answer(json: Json, m: Table, op: Op): Option<seq<byte>> {
    match op
    case Get(k, t, _) => if FreshAt(m, k, t) then Some(m[k].data) else None
    case Fallback(k, t, protocol, options) =>
      if UsableAt(m, k, t) then BuildFallback(json, m[k].motd, protocol, options) else None
    case Set(_, _, _, _, _) => None
  }

  // The table a Set leaves; the never-evicting reference does nothing else.
  function AfterSet(json: Json, m: Table, op: Op): Table {
    if op.Set? && op.ttl > 0
    then m[op.key := MakeEntry(json, op.data, op.ttl, op.fallbackTTL, op.at)]
    else m
  }

  function Step(json: Json, m: Table, op: Op): Table {
    match op
    case Get(k, t, u) => if k in m && !FreshAt(m, k, t) && u > m[k].staleUntil then m - {k} else m
    case Fallback(k, t, _, _) => if UsableAt(m, k, t) then m else m - {k}
    case Set(_, _, _, _, _) => AfterSet(json, m, op)
  }

  class StatusCache {
    const json: Json
    var entries: Table

    constructor (json: Json)
      ensures this.json == json && entries == map[]
    {
      this.json, entries := json, map[];
    }

    method GetFresh(key: GoString, at: int, evictAt: int) returns (data: Option<seq<byte>>)
      modifies this`entries
      ensures data == Answer(json, old(entries), Get(key, at, evictAt))
      ensures entries == Step(json, old(entries), Get(key, at, evictAt))
    {
      var ok := key in entries;
      if !ok || !(at < entries[key].freshUntil) {
        if ok {
          var item := entries[key];
          if evictAt > item.staleUntil {
            entries := entries - {key};
          }
        }
        return None;
      }
      return Some(entries[key].data);
    }

    method SetWithFallback(key: GoString, data: seq<byte>, ttl: int, fallbackTTL: int, now: int)
      modifies this`entries
      ensures entries == Step(json, old(entries), Set(key, now, data, ttl, fallbackTTL))
    {
      if ttl <= 0 {
        return;
      }
      var motd := ExtractMOTD(json, data);
      var staleUntil := now + ttl;
      if fallbackTTL > 0 {
        staleUntil := staleUntil + fallbackTTL;
      }
      entries := entries[key := Entry(data, motd, now + ttl, staleUntil)];
    }

    method GetFallbackWithOptions(key: GoString, protocol: int32, options: FallbackOptions, now: int)
      returns (data: Option<seq<byte>>)
      modifies this`entries
      ensures data == Answer(json, old(entries), Fallback(key, now, protocol, options))
      ensures entries == Step(json, old(entries), Fallback(key, now, protocol, options))
    {
      var ok := key in entries;
      if !ok || now > entries[key].staleUntil || |entries[key].motd| == 0 {
        entries := entries - {key};
        return None;
      }
      return BuildFallback(json, entries[key].motd, protocol, options);
    }
  }

  // ------------------------------------------------ lazy eviction against no eviction

  function Run(json: Json, ops: seq<Op>): Table {
    if ops == [] then map[] else Step(json, Run(json, ops[..|ops| - 1]), ops[|ops| - 1])
  }

  function Reference(json: Json, ops: seq<Op>): Table {
    if ops == [] then map[] else AfterSet(json, Reference(json, ops[..|ops| - 1]), ops[|ops| - 1])
  }

  ghost predicate Ordered(ops: seq<Op>) {
    && (forall i :: 0 <= i < |ops| ==> ops[i].at <= End(ops[i]))
    && (forall i :: 0 <= i < |ops| - 1 ==> End(ops[i]) <= ops[i + 1].at)
  }

  // The keys a Get has missed with no Set since.
  function MissedAfter(json: Json, m: Table, missed: set<GoString>, op: Op): set<GoString> {
    match op
    case Get(k, _, _) => if Answer(json, m, op).None? then missed + {k} else missed
    case Set(k, _, _, _, _) => missed - {k}
    case Fallback(_, _, _, _) => missed
  }

  function Missed(json: Json, ops: seq<Op>): set<GoString> {
    if ops == [] then {}
    else
      var before := ops[..|ops| - 1];
      MissedAfter(json, Run(json, before), Missed(json, before), ops[|ops| - 1])
  }

  // The handler's order: a fallback is asked for only after a miss, no Set in between.
  ghost predicate HandlerOrder(json: Json, ops: seq<Op>) {
    forall i :: 0 <= i < |ops| && ops[i].Fallback? ==> ops[i].key in Missed(json, ops[..i])
  }

  // What relates the two tables at time `now`.
  ghost predicate Related(m: Table, r: Table, missed: set<GoString>, now: int) {
    && (forall k :: k in m ==> k in r && m[k] == r[k])
    && (forall k :: k in r ==> r[k].freshUntil <= r[k].staleUntil)
    && (forall k :: k in r && k !in m ==> r[k].freshUntil <= now && (r[k].staleUntil < now || r[k].motd == []))
    && (forall k :: k in r && k in missed ==> r[k].freshUntil <= now)
  }

  lemma {:induction false} StaysRelated(json: Json, ops: seq<Op>)
    requires ops != [] && Ordered(ops) && HandlerOrder(json, ops)
    ensures Related(Run(json, ops), Reference(json, ops), Missed(json, ops), End(ops[|ops| - 1]))
  {
    var n := |ops| - 1;
    var before, op := ops[..n], ops[n];
    if n > 0 {
      HandlerOrderPrefix(json, ops, n);
      StaysRelated(json, before);
      assert End(ops[n - 1]) <= op.at;
    }
    var now := if n > 0 then End(ops[n - 1]) else op.at;
    RelatedStep(json, Run(json, before), Reference(json, before), Missed(json, before), now, op);
  }

  lemma HandlerOrderPrefix(json: Json, ops: seq<Op>, n: nat)
    requires n <= |ops| && HandlerOrder(json, ops)
    ensures HandlerOrder(json, ops[..n])
  {
    forall i | 0 <= i < n && ops[..n][i].Fallback? ensures ops[..n][i].key in Missed(json, ops[..n][..i]) {
      assert ops[..n][..i] == ops[..i];
    }
  }

  lemma RelatedStep(json: Json, m: Table, r: Table, missed: set<GoString>, now: int, op: Op)
    requires Related(m, r, missed, now) && now <= op.at <= End(op)
    requires op.Fallback? ==> op.key in missed
    ensures Answer(json, m, op) == Answer(json, r, op)
    ensures Related(Step(json, m, op), AfterSet(json, r, op), MissedAfter(json, m, missed, op), End(op))
  {
    match op
    case Set(_, _, _, _, _) =>
      RelatedSet(json, m, r, missed, now, op);
    case Get(k, t, u) =>
      assert FreshAt(m, k, t) <==> FreshAt(r, k, t);
    case Fallback(k, t, _, _) =>
      assert UsableAt(m, k, t) <==> UsableAt(r, k, t);
  }

  lemma RelatedSet(json: Json, m: Table, r: Table, missed: set<GoString>, now: int, op: Op)
    requires Related(m, r, missed, now) && now <= op.at && op.Set?
    ensures Related(AfterSet(json, m, op), AfterSet(json, r, op), missed - {op.key}, op.at)
  {
  }

  // In the handler's order, no answer of the cache betrays that it deletes anything.
  lemma EvictionUnobservable(json: Json, ops: seq<Op>, op: Op)
    requires Ordered(ops + [op]) && HandlerOrder(json, ops + [op])
    ensures Answer(json, Run(json, ops), op) == Answer(json, Reference(json, ops), op)
  {
    var all, n := ops + [op], |ops|;
    assert all[..n] == ops && all[n] == op;
    HandlerOrderPrefix(json, all, n);
    if n > 0 {
      assert Ordered(ops) by {
        assert forall i :: 0 <= i < n ==> ops[i] == all[i];
      }
      StaysRelated(json, ops);
      assert all[n - 1] == ops[n - 1] && End(all[n - 1]) <= all[n].at;
      RelatedStep(json, Run(json, ops), Reference(json, ops), Missed(json, ops), End(ops[n - 1]), op);
    }
  }

  // Out of that order it can be seen: a fallback asked for while a response without a
  // description is still fresh deletes it, and the next Get misses.
  lemma OrderMatters(json: Json, k: GoString, data: seq<byte>, options: FallbackOptions)
    requires ExtractMOTD(json, data) == []
    ensures var ops := [Set(k, 1, data, 10, 0), Fallback(k, 2, 0, options)];
      && Answer(json, Run(json, ops), Get(k, 3, 3)) == None
      && Answer(json, Reference(json, ops), Get(k, 3, 3)) == Some(data)
  {
    var ops := [Set(k, 1, data, 10, 0), Fallback(k, 2, 0, options)];
    assert ops[..1] == [Set(k, 1, data, 10, 0)] && ops[..1][..0] == [];
  }

  // ------------------------------------------------------ exactly when it can be seen

  // What a fallback must not find: an entry that is still fresh but has no description.
  predicate Harmless(m: Table, op: Op) {
    op.Fallback? && FreshAt(m, op.key, op.at) ==> m[op.key].motd != []
  }

  ghost predicate AllHarmless(json: Json, ops: seq<Op>) {
    forall i :: 0 <= i < |ops| ==> Harmless(Run(json, ops[..i]), ops[i])
  }

  lemma SameAnswer(json: Json, m: Table, r: Table, now: int, op: Op)
    requires Related(m, r, {}, now) && now <= op.at
    ensures Answer(json, m, op) == Answer(json, r, op)
  {
    match op
    case Set(_, _, _, _, _) =>
    case Get(k, t, u) =>
      assert FreshAt(m, k, t) <==> FreshAt(r, k, t);
    case Fallback(k, t, _, _) =>
      assert UsableAt(m, k, t) <==> UsableAt(r, k, t);
  }

  lemma HarmlessStep(json: Json, m: Table, r: Table, now: int, op: Op)
    requires Related(m, r, {}, now) && now <= op.at <= End(op) && Harmless(m, op)
    ensures Related(Step(json, m, op), AfterSet(json, r, op), {}, End(op))
  {
    if op.Set? {
      RelatedSet(json, m, r, {}, now, op);
    }
  }

  lemma OrderedPrefix(ops: seq<Op>, n: nat)
    requires n <= |ops| && Ordered(ops)
    ensures Ordered(ops[..n])
  {
  }

  lemma {:induction false} HarmlessRelated(json: Json, ops: seq<Op>, op: Op)
    requires Ordered(ops + [op]) && AllHarmless(json, ops)
    ensures Related(Run(json, ops), Reference(json, ops), {}, op.at)
  {
    hide Step, AfterSet, Harmless, Related;
    if ops == [] {
      NothingRelated(op.at);
    } else {
      var n := |ops| - 1;
      var before, all := ops[..n], ops + [op];
      assert all[n] == ops[n] && all[n + 1] == op;
      OrderedPrefix(all, n + 1);
      assert all[..n + 1] == ops == before + [ops[n]];
      forall i | 0 <= i < n ensures Harmless(Run(json, before[..i]), before[i]) {
        assert before[..i] == ops[..i];
      }
      HarmlessRelated(json, before, ops[n]);
      HarmlessStep(json, Run(json, before), Reference(json, before), ops[n].at, ops[n]);
      RelatedLater(Run(json, ops), Reference(json, ops), End(ops[n]), op.at);
    }
  }

  lemma NothingRelated(now: int)
    ensures Related(map[], map[], {}, now)
  {
  }

  lemma RelatedLater(m: Table, r: Table, now: int, later: int)
    requires Related(m, r, {}, now) && now <= later
    ensures Related(m, r, {}, later)
  {
  }

  // Nothing asked after the first `n` operations tells the two tables apart.
  ghost predicate Unseen(json: Json, ops: seq<Op>, n: nat, op: Op)
    requires n <= |ops|
  {
    Ordered(ops[..n] + [op]) ==> Answer(json, Run(json, ops[..n]), op) == Answer(json, Reference(json, ops[..n]), op)
  }

  lemma HarmlessUnseen(json: Json, ops: seq<Op>, n: nat, op: Op)
    requires n <= |ops| && AllHarmless(json, ops[..n])
    ensures Unseen(json, ops, n, op)
  {
    hide Step, AfterSet, Answer;
    var before := ops[..n];
    if Ordered(before + [op]) {
      HarmlessRelated(json, before, op);
      SameAnswer(json, Run(json, before), Reference(json, before), op.at, op);
    }
  }

  // The question that tells them apart once a fallback has found what it must not.
  lemma HarmSeen(json: Json, ops: seq<Op>, n: nat)
    requires n < |ops| && Ordered(ops) && AllHarmless(json, ops[..n])
    requires !Harmless(Run(json, ops[..n]), ops[n])
    ensures !Unseen(json, ops, n + 1, Get(ops[n].key, ops[n].at, ops[n].at))
  {
    var f, before := ops[n], ops[..n];
    var get := Get(f.key, f.at, f.at);
    OrderedPrefix(ops, n + 1);
    assert ops[..n + 1] == before + [f] && ops[..n + 1][..n] == before;
    HarmlessRelated(json, before, f);
    OrderedMore(before, f, get);
  }

  lemma OrderedMore(ops: seq<Op>, f: Op, op: Op)
    requires Ordered(ops + [f]) && End(f) <= op.at <= End(op)
    ensures Ordered(ops + [f] + [op])
  {
    var all, n := ops + [f] + [op], |ops|;
    assert forall i :: 0 <= i <= n ==> all[i] == (ops + [f])[i];
    assert all[n] == f && (ops + [f])[n] == f && all[n + 1] == op;
  }

  // Over a run in any order, no later question can tell the cache from a map that never
  // deletes if and only if no fallback of the run finds an entry that is fresh and has no
  // description.
  lemma EvictionUnseenIff(json: Json, ops: seq<Op>)
    requires Ordered(ops)
    ensures AllHarmless(json, ops) <==>
      forall n: nat, op: Op :: n <= |ops| ==> Unseen(json, ops, n, op)
  {
    hide Ordered, Run, Harmless, Unseen;
    if AllHarmless(json, ops) {
      forall n: nat, op: Op | n <= |ops| ensures Unseen(json, ops, n, op) {
        HarmlessPrefix(json, ops, n);
        HarmlessUnseen(json, ops, n, op);
      }
    } else {
      assert ops[..|ops|] == ops;
      var n := FirstHarm(json, ops, |ops|);
      HarmSeen(json, ops, n);
    }
  }

  // The handler's order is one way to be harmless: what was missed is not fresh.
  lemma HandlerOrderHarmless(json: Json, ops: seq<Op>)
    requires Ordered(ops) && HandlerOrder(json, ops)
    ensures AllHarmless(json, ops)
  {
    hide Run, Reference, Missed;
    forall i | 0 <= i < |ops| ensures Harmless(Run(json, ops[..i]), ops[i]) {
      if ops[i].Fallback? && i > 0 {
        HandlerOrderPrefix(json, ops, i);
        OrderedPrefix(ops, i);
        StaysRelated(json, ops[..i]);
        assert End(ops[i - 1]) <= ops[i].at && ops[..i][i - 1] == ops[i - 1];
      } else if i == 0 {
        NothingYet(json, ops[..0]);
      }
    }
  }

  lemma NothingYet(json: Json, ops: seq<Op>)
    requires ops == []
    ensures Run(json, ops) == map[]
  {
  }

  lemma HarmlessPrefix(json: Json, ops: seq<Op>, n: nat)
    requires n <= |ops| && AllHarmless(json, ops)
    ensures AllHarmless(json, ops[..n])
  {
    hide Harmless, Run;
    forall i | 0 <= i < n ensures Harmless(Run(json, ops[..n][..i]), ops[..n][i]) {
      assert ops[..n][..i] == ops[..i];
    }
  }

  lemma {:induction false} FirstHarm(json: Json, ops: seq<Op>, top: nat) returns (n: nat)
    requires top <= |ops| && !AllHarmless(json, ops[..top])
    ensures n < |ops| && AllHarmless(json, ops[..n]) && !Harmless(Run(json, ops[..n]), ops[n])
    decreases top
  {
    hide Harmless, Run;
    if AllHarmless(json, ops[..top - 1]) {
      n := top - 1;
      forall i | 0 <= i < n ensures Harmless(Run(json, ops[..top][..i]), ops[..top][i]) {
        assert ops[..top][..i] == ops[..n][..i];
      }
      assert ops[..top][..n] == ops[..n];
    } else {
      n := FirstHarm(json, ops, top - 1);
    }
  }

  // Operation `i` is the last that stored anything under the key before `j`.
  ghost predicate LastSet(ops: seq<Op>, k: GoString, i: nat, j: nat) {
    && i < j <= |ops| && ops[i].Set? && ops[i].key == k && ops[i].ttl > 0
    && forall m :: i < m < j && ops[m].Set? && ops[m].key == k ==> ops[m].ttl <= 0
  }

  // The map that never deletes holds what was stored last.
  lemma {:induction false} ReferenceIsLastSet(json: Json, ops: seq<Op>, k: GoString, i: nat, j: nat)
    requires LastSet(ops, k, i, j)
    ensures k in Reference(json, ops[..j])
    ensures Reference(json, ops[..j])[k] == MakeEntry(json, ops[i].data, ops[i].ttl, ops[i].fallbackTTL, ops[i].at)
  {
    hide MakeEntry;
    assert ops[..j][..j - 1] == ops[..j - 1];
    if i < j - 1 {
      ReferenceIsLastSet(json, ops, k, i, j - 1);
    }
  }

  lemma {:induction false} ReferenceOrigin(json: Json, ops: seq<Op>, k: GoString, j: nat) returns (i: nat)
    requires j <= |ops| && k in Reference(json, ops[..j])
    ensures LastSet(ops, k, i, j)
  {
    hide MakeEntry;
    assert ops[..j][..j - 1] == ops[..j - 1];
    if ops[j - 1].Set? && ops[j - 1].key == k && ops[j - 1].ttl > 0 {
      i := j - 1;
    } else {
      i := ReferenceOrigin(json, ops, k, j - 1);
    }
  }

  // ------------------------------------------------------ what is answered, and until when

  // A run in the handlers' order, or in any other that never shows its evictions.
  ghost predicate WellBehaved(json: Json, ops: seq<Op>) {
    Ordered(ops) && (HandlerOrder(json, ops) || AllHarmless(json, ops))
  }

  lemma ReferenceAnswers(json: Json, ops: seq<Op>, j: nat)
    requires WellBehaved(json, ops) && j < |ops|
    ensures Answer(json, Run(json, ops[..j]), ops[j]) == Answer(json, Reference(json, ops[..j]), ops[j])
  {
    hide Run, Reference, Answer, Ordered, HandlerOrder, Harmless;
    if HandlerOrder(json, ops) {
      HandlerOrderHarmless(json, ops);
    }
    HarmlessPrefix(json, ops, j);
    OrderedPrefix(ops, j + 1);
    assert ops[..j + 1] == ops[..j] + [ops[j]];
    HarmlessRelated(json, ops[..j], ops[j]);
    SameAnswer(json, Run(json, ops[..j]), Reference(json, ops[..j]), ops[j].at, ops[j]);
  }

  // What a status response holds, as the cache reads it.
  lemma TextExtracted(json: Json, text: GoString)
    requires U.Valid(text) && U.Units(text) <= 32767 && text != []
    ensures ExtractMOTD(json, NewPacket(0, EncodeString(text)).raw) == json.description(text)
  {
    hide U.Valid, U.Units, DecodePacket, ParseStatusJSON, EncodeString;
    U.BytesPerUnit(text);
    StatusRoundTrip(text);
    var p := NewPacket(0, EncodeString(text));
    assert p.raw + [] == p.raw && p == BuildStatusResponse(text);
    DecodeNewPacket(0, EncodeString(text), MAX_PACKET_LENGTH, []);
  }

  // A Get is answered with what was stored last under its key, before its TTL is over.
  lemma GetExactly(json: Json, ops: seq<Op>, i: nat, j: nat)
    requires WellBehaved(json, ops) && j < |ops| && ops[j].Get?
    requires LastSet(ops, ops[j].key, i, j)
    ensures Answer(json, Run(json, ops[..j]), ops[j])
      == if ops[j].at < ops[i].at + ops[i].ttl then Some(ops[i].data) else None
  {
    hide Run, Reference, WellBehaved, LastSet, ExtractMOTD;
    ReferenceAnswers(json, ops, j);
    ReferenceIsLastSet(json, ops, ops[j].key, i, j);
  }

  // A Fallback is answered from the description in the response stored last under its
  // key, if it has one, until its TTL and, if that is positive, its fallback TTL after it
  // are over.
  lemma FallbackExactly(json: Json, ops: seq<Op>, i: nat, j: nat, text: GoString)
    requires WellBehaved(json, ops) && j < |ops| && ops[j].Fallback?
    requires LastSet(ops, ops[j].key, i, j)
    requires U.Valid(text) && U.Units(text) <= 32767 && text != []
    requires ops[i].data == NewPacket(0, EncodeString(text)).raw
    ensures var lasting := if ops[i].fallbackTTL > 0 then ops[i].fallbackTTL else 0;
      var built := json.fallback(ops[j].protocol, json.description(text), ops[j].options);
      Answer(json, Run(json, ops[..j]), ops[j])
        == if json.description(text) != [] && ops[j].at <= ops[i].at + ops[i].ttl + lasting && built.Some?
           then Some(NewPacket(0, EncodeString(built.value)).raw) else None
  {
    hide Run, Reference, WellBehaved, LastSet, ExtractMOTD, NewPacket, EncodeString, U.Valid, U.Units;
    ReferenceAnswers(json, ops, j);
    ReferenceIsLastSet(json, ops, ops[j].key, i, j);
    TextExtracted(json, text);
  }

  // There is no fallback behind anything else that was stored.
  lemma NoTextNoFallback(json: Json, ops: seq<Op>, i: nat, j: nat)
    requires WellBehaved(json, ops) && j < |ops| && ops[j].Fallback?
    requires LastSet(ops, ops[j].key, i, j)
    requires var o := DecodePacket(ops[i].data, 0x1f_ffff);
      o.Bad? || o.p.id != 0 || DecodeString(o.p.data, 32767).NoText?
    ensures Answer(json, Run(json, ops[..j]), ops[j]) == None
  {
    hide Run, Reference, WellBehaved, LastSet, DecodePacket, DecodeString;
    ReferenceAnswers(json, ops, j);
    ReferenceIsLastSet(json, ops, ops[j].key, i, j);
  }

  // Nor any answer if nothing was stored under the key, or only for no time at all.
  lemma NothingStored(json: Json, ops: seq<Op>, j: nat)
    requires WellBehaved(json, ops) && j < |ops|
    requires forall m :: 0 <= m < j && ops[m].Set? && ops[m].key == ops[j].key ==> ops[m].ttl <= 0
    ensures Answer(json, Run(json, ops[..j]), ops[j]) == None
  {
    hide Run, Reference, WellBehaved;
    ReferenceAnswers(json, ops, j);
    if ops[j].key in Reference(json, ops[..j]) {
      var i := ReferenceOrigin(json, ops, ops[j].key, j);
    }
  }

  // The response stored last before `j` under its key, by operation `i`, is still fresh
  // at `j` and has no description.
  ghost predicate Undescribed(json: Json, ops: seq<Op>, i: nat, j: nat)
    requires j < |ops|
  {
    && LastSet(ops, ops[j].key, i, j)
    && ExtractMOTD(json, ops[i].data) == [] && ops[j].at < ops[i].at + ops[i].ttl
  }

  lemma HarmAt(json: Json, ops: seq<Op>, j: nat)
    requires Ordered(ops) && j < |ops| && ops[j].Fallback? && AllHarmless(json, ops[..j])
    ensures !Harmless(Run(json, ops[..j]), ops[j]) <==> exists i: nat :: Undescribed(json, ops, i, j)
  {
    hide Run, Reference, AllHarmless, ExtractMOTD, LastSet;
    var k, t := ops[j].key, ops[j].at;
    OrderedPrefix(ops, j + 1);
    assert ops[..j + 1] == ops[..j] + [ops[j]];
    HarmlessRelated(json, ops[..j], ops[j]);
    var m, r := Run(json, ops[..j]), Reference(json, ops[..j]);
    assert FreshAt(m, k, t) <==> FreshAt(r, k, t);
    if i: nat :| Undescribed(json, ops, i, j) {
      ReferenceIsLastSet(json, ops, k, i, j);
    }
    if FreshAt(r, k, t) {
      var i := ReferenceOrigin(json, ops, k, j);
      ReferenceIsLastSet(json, ops, k, i, j);
      assert r[k].motd == [] ==> Undescribed(json, ops, i, j);
    }
  }

  // So whether the run is harmless can be read off its operations.
  ghost predicate Exposed(json: Json, ops: seq<Op>, j: nat) {
    j < |ops| && ops[j].Fallback? && exists i: nat :: Undescribed(json, ops, i, j)
  }

  lemma HarmlessIffUnexposed(json: Json, ops: seq<Op>)
    requires Ordered(ops)
    ensures AllHarmless(json, ops) <==> forall j: nat :: !Exposed(json, ops, j)
  {
    hide Ordered, Run, Harmless, Undescribed;
    if AllHarmless(json, ops) {
      forall j: nat ensures !Exposed(json, ops, j) {
        if j < |ops| && ops[j].Fallback? {
          HarmlessPrefix(json, ops, j);
          HarmAt(json, ops, j);
        }
      }
    } else {
      assert ops[..|ops|] == ops;
      var j := FirstHarm(json, ops, |ops|);
      FallbacksHarm(Run(json, ops[..j]), ops[j]);
      HarmAt(json, ops, j);
      assert Exposed(json, ops, j);
    }
  }

  // After a harmless run a Get that misses finds nothing stored that is still fresh.
  lemma MissFindsNothingFresh(json: Json, ops: seq<Op>, l: nat, i: nat)
    requires Ordered(ops) && i < |ops| && ops[i].Get? && AllHarmless(json, ops[..i])
    requires Answer(json, Run(json, ops[..i]), ops[i]) == None && LastSet(ops, ops[i].key, l, i)
    ensures ops[l].at + ops[l].ttl <= ops[i].at
  {
    hide Run, Reference, AllHarmless, ExtractMOTD, LastSet;
    OrderedPrefix(ops, i + 1);
    assert ops[..i + 1] == ops[..i] + [ops[i]];
    HarmlessRelated(json, ops[..i], ops[i]);
    SameAnswer(json, Run(json, ops[..i]), Reference(json, ops[..i]), ops[i].at, ops[i]);
    ReferenceIsLastSet(json, ops, ops[i].key, l, i);
  }

  lemma FallbacksHarm(m: Table, op: Op)
    requires !Harmless(m, op)
    ensures op.Fallback?
  {
  }

  // What is stored was made by a Set of the run, for that very key.
  lemma {:induction false} EntryOrigin(json: Json, ops: seq<Op>, k: GoString) returns (j: nat)
    requires k in Run(json, ops)
    ensures j < |ops| && ops[j].Set? && ops[j].key == k && ops[j].ttl > 0
    ensures Run(json, ops)[k] == MakeEntry(json, ops[j].data, ops[j].ttl, ops[j].fallbackTTL, ops[j].at)
  {
    hide MakeEntry;
    var n := |ops| - 1;
    if ops[n].Set? && ops[n].key == k && ops[n].ttl > 0 {
      j := n;
    } else {
      j := EntryOrigin(json, ops[..n], k);
    }
  }

  // Exactly what is evicted: by a Get what is neither fresh when looked up nor within its
  // later deadline when looked at again, by a Fallback what is past that deadline or has no
  // description.
  lemma EvictsExactly(json: Json, m: Table, op: Op, k: GoString)
    requires k in m && !op.Set?
    ensures k !in Step(json, m, op) <==>
      && op.key == k
      && (op.Get? ==> m[k].freshUntil <= op.at && m[k].staleUntil < op.evictAt)
      && (op.Fallback? ==> m[k].staleUntil < op.at || m[k].motd == [])
    ensures forall x :: x in Step(json, m, op) ==> x in m && Step(json, m, op)[x] == m[x]
    ensures forall x :: x in m && x != op.key ==> x in Step(json, m, op)
  {
  }

  // What GetFresh evicts can serve nothing any more, neither fresh nor as a fallback.
  lemma GetEvictsDeadOnly(json: Json, m: Table, k: GoString, at: int, evictAt: int, later: int)
    requires at <= evictAt <= later
    requires k in m && m[k].freshUntil <= m[k].staleUntil
    requires k !in Step(json, m, Get(k, at, evictAt))
    ensures !FreshAt(m, k, later) && !UsableAt(m, k, later)
  {
  }
}
