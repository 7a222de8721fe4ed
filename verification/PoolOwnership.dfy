/** internal/proxy/dialer.go over the pool: any number of status dials, warm-ups and
    background refills interleave with each other and with Close.  Get, NeedsConn, Put
    and Close are atomic, for they hold the pool's lock; a refill checks, dials and puts
    in separate steps, so its check may be stale by the time it puts. */
module PoolOwnership {
  import opened Wrappers
  import P = Pool

  type Addr = P.Addr
  type Conn = P.Conn

  // Where a goroutine of the dialer stands.  `result` is the connection a DialStatus will
  // return once its deferred refill is over.
  datatype Pc =
    | Dialling(backend: Addr)
    | Checking(backend: Addr)
    | Refilling(backend: Addr)
    | Putting(conn: Conn)
    | Over

  datatype Task = Task(result: Option<Conn>, pc: Pc)

  datatype State = State(pool: P.State, tasks: seq<Task>, dialled: seq<Conn>, handed: seq<Conn>, now: int)

  datatype Action =
    | Tick(now: int)
    | DialStatus(backend: Addr)
    | StartRefill(backend: Addr)
    | Dial(task: nat, ok: bool)
    | Check(task: nat)
    | Put(task: nat)
    | ClosePool(order: seq<Addr>)

  const INITIAL := State(P.EMPTY, [], [], [], 0)

  ghost predicate Enabled(s: State, a: Action) {
    match a
    case Tick(now) => now >= s.now
    case DialStatus(_) => true
    case StartRefill(_) => true
    case Dial(i, _) => i < |s.tasks| && (s.tasks[i].pc.Dialling? || s.tasks[i].pc.Refilling?)
    case Check(i) => i < |s.tasks| && s.tasks[i].pc.Checking?
    case Put(i) => i < |s.tasks| && s.tasks[i].pc.Putting?
    case ClosePool(order) => P.Enumerates(order, s.pool.idle.Keys)
  }

  function Spawn(s: State, t: Task): State {
    s.(tasks := s.tasks + [t])
  }

  function At(s: State, i: nat, t: Task): State
    requires i < |s.tasks|
  {
    s.(tasks := s.tasks[i := t])
  }

  // The goroutine ends; what it holds for its caller is handed out.
  function Finish(s: State, i: nat): State
    requires i < |s.tasks|
  {
    At(s, i, Task(None, Over)).(handed := s.handed + Held(s.tasks[i].result))
  }

  function Held(c: Option<Conn>): seq<Conn> {
    if c.Some? then [c.value] else []
  }

  function Next(o: P.Options, s: State, a: Action): State
    requires Enabled(s, a)
  {
    match a
    case Tick(now) => s.(now := now)
    case DialStatus(b) =>
      var t := s.(pool := P.AfterGet(o, s.pool, b, s.now));
      var hit := P.GetResult(o, s.pool, b, s.now);
      if hit.Some? then Spawn(t.(handed := t.handed + [hit.value]), Task(None, Checking(b)))
      else Spawn(t, Task(None, Dialling(b)))
    case StartRefill(b) => Spawn(s, Task(None, Checking(b)))
    case Dial(i, ok) =>
      var t := s.tasks[i];
      var c := P.Conn(t.pc.backend, |s.dialled|);
      var d := if ok then s.(dialled := s.dialled + [c]) else s;
      if t.pc.Dialling? then At(d, i, Task(if ok then Some(c) else None, Checking(t.pc.backend)))
      else if ok then At(d, i, t.(pc := Putting(c)))
      else Finish(d, i)
    case Check(i) =>
      var t := s.tasks[i];
      var d := s.(pool := P.AfterNeeds(o, s.pool, t.pc.backend, s.now));
      if P.NeedsResult(o, s.pool, t.pc.backend, s.now) then At(d, i, t.(pc := Refilling(t.pc.backend)))
      else Finish(d, i)
    case Put(i) =>
      var c := s.tasks[i].pc.conn;
      Finish(s.(pool := P.AfterPut(o, s.pool, c.backend, c, s.now)), i)
    case ClosePool(order) => s.(pool := P.AfterClose(s.pool, order))
  }

  ghost function After(o: P.Options, run: seq<Action>): Option<State> {
    if run == [] then Some(INITIAL)
    else match After(o, run[..|run| - 1])
      case None => None
      case Some(s) => if Enabled(s, run[|run| - 1]) then Some(Next(o, s, run[|run| - 1])) else None
  }

  // ------------------------------------------------------------------------- ownership

  function Count(cs: seq<Conn>, c: Conn): nat {
    multiset(cs)[c]
  }

  function InFlight(t: Task): seq<Conn> {
    Held(t.result) + if t.pc.Putting? then [t.pc.conn] else []
  }

  function FlightCount(ts: seq<Task>, c: Conn): nat {
    if ts == [] then 0 else FlightCount(ts[..|ts| - 1], c) + Count(InFlight(ts[|ts| - 1]), c)
  }

  function IdleCount(p: P.State, c: Conn): nat {
    Count(P.Conns(P.IdleOf(p, c.backend)), c)
  }

  // In how many places a connection is: in flight, idle, handed out, or closed.
  function Places(s: State, c: Conn): nat {
    FlightCount(s.tasks, c) + IdleCount(s.pool, c) + Count(s.handed, c) + Count(s.pool.closings, c)
  }

  // A connection is idle only under the backend it was dialled to, no list is longer than
  // allowed, and a closed pool is empty.
  ghost predicate Tidy(o: P.Options, p: P.State) {
    && (forall b, i :: b in p.idle && 0 <= i < |p.idle[b]| ==> p.idle[b][i].conn.backend == b)
    && (forall b :: b in p.idle ==> |p.idle[b]| <= o.maxIdle)
    && (p.closed ==> p.idle == map[])
  }

  ghost predicate Owned(o: P.Options, s: State) {
    && Tidy(o, s.pool)
    && (forall i :: 0 <= i < |s.dialled| ==> s.dialled[i].id == i)
    && (forall c :: Places(s, c) == if c in s.dialled then 1 else 0)
  }

  lemma CountAppend(a: seq<Conn>, b: seq<Conn>, c: Conn)
    ensures Count(a + b, c) == Count(a, c) + Count(b, c)
  {
  }

  lemma {:induction false} FlightUpdate(ts: seq<Task>, i: nat, t: Task, c: Conn)
    requires i < |ts|
    ensures FlightCount(ts[i := t], c) + Count(InFlight(ts[i]), c) == FlightCount(ts, c) + Count(InFlight(t), c)
  {
    hide InFlight, Count;
    var n, us := |ts| - 1, ts[i := t];
    if i == n {
      assert us[..n] == ts[..n] && us[n] == t;
    } else {
      assert us[..n] == ts[..n][i := t] && us[n] == ts[n];
      FlightUpdate(ts[..n], i, t, c);
    }
  }

  // The lists a pop or a filter splits its input into.
  lemma {:induction false} PopCounts(o: P.Options, items: seq<P.Pooled>, now: int, c: Conn)
    ensures var (rest, hit, gone) := P.Pop(o, items, now);
      Count(P.Conns(items), c) == Count(P.Conns(rest), c) + Count(Held(hit), c) + Count(gone, c)
  {
    if items != [] {
      var front, last := items[..|items| - 1], items[|items| - 1];
      assert P.Conns(items) == P.Conns(front) + [last.conn];
      PopCounts(o, front, now, c);
    }
  }

  lemma {:induction false} FilterCounts(o: P.Options, items: seq<P.Pooled>, now: int, c: Conn)
    ensures Count(P.Conns(items), c)
         == Count(P.Conns(P.Kept(o, items, now)), c) + Count(P.Dropped(o, items, now), c)
  {
    if items != [] {
      var front, last := items[..|items| - 1], items[|items| - 1];
      assert P.Conns(items) == P.Conns(front) + [last.conn];
      FilterCounts(o, front, now, c);
      var kept := P.Kept(o, front, now);
      assert P.Conns(kept + [last]) == P.Conns(kept) + [last.conn];
      assert kept + [] == kept && P.Dropped(o, front, now) + [] == P.Dropped(o, front, now);
    }
  }

  lemma {:induction false} ListingCounts(o: P.Options, p: P.State, order: seq<Addr>, c: Conn)
    requires Tidy(o, p)
    requires forall i, j :: 0 <= i < j < |order| ==> order[i] != order[j]
    ensures Count(P.Listing(p.idle, order), c) == if c.backend in order then IdleCount(p, c) else 0
  {
    if order != [] {
      var n := |order| - 1;
      var b := order[n];
      ListingCounts(o, p, order[..n], c);
      assert c.backend in order <==> c.backend in order[..n] || c.backend == b;
      if b in p.idle && c.backend != b {
        assert c !in P.Conns(p.idle[b]);
      }
    }
  }

  // Each pool operation moves connections between its lists, its result and `closings`.
  lemma GetConserves(o: P.Options, p: P.State, b: Addr, now: int, c: Conn)
    requires o.maxIdle > 0 && Tidy(o, p)
    ensures var q := P.AfterGet(o, p, b, now);
      && Tidy(o, q)
      && IdleCount(p, c) + Count(p.closings, c)
         == IdleCount(q, c) + Count(q.closings, c) + Count(Held(P.GetResult(o, p, b, now)), c)
  {
    hide Tidy;
    var items := P.IdleOf(p, b);
    if !p.closed {
      var (rest, hit, gone) := P.Pop(o, items, now);
      TidyItems(o, p, b);
      P.PopPrefix(o, items, now);
      TidyReplace(o, p, b, rest, p.closings + gone);
      PopCounts(o, items, now, c);
      CountAppend(p.closings, gone, c);
      Elsewhere(o, p, b, c);
    }
  }

  lemma NeedsConserves(o: P.Options, p: P.State, b: Addr, now: int, c: Conn)
    requires Tidy(o, p) && o.maxIdle > 0
    ensures var q := P.AfterNeeds(o, p, b, now);
      Tidy(o, q) && IdleCount(p, c) + Count(p.closings, c) == IdleCount(q, c) + Count(q.closings, c)
  {
    hide Tidy;
    var items := P.IdleOf(p, b);
    if !p.closed {
      TidyItems(o, p, b);
      KeptFrom(o, items, now);
      TidyReplace(o, p, b, P.Kept(o, items, now), p.closings + P.Dropped(o, items, now));
      FilterCounts(o, items, now, c);
      CountAppend(p.closings, P.Dropped(o, items, now), c);
      Elsewhere(o, p, b, c);
    }
  }

  lemma TidyItems(o: P.Options, p: P.State, b: Addr)
    requires o.maxIdle > 0 && Tidy(o, p)
    ensures |P.IdleOf(p, b)| <= o.maxIdle
    ensures forall x :: x in P.IdleOf(p, b) ==> x.conn.backend == b
    ensures p.closed ==> P.IdleOf(p, b) == []
  {
  }

  lemma TidyReplace(o: P.Options, p: P.State, b: Addr, items: seq<P.Pooled>, gone: seq<Conn>)
    requires Tidy(o, p) && !p.closed && |items| <= o.maxIdle
    requires forall x :: x in items ==> x.conn.backend == b
    ensures Tidy(o, p.(idle := p.idle[b := items], closings := gone))
  {
  }

  lemma TidySameIdle(o: P.Options, p: P.State, gone: seq<Conn>)
    requires Tidy(o, p)
    ensures Tidy(o, p.(closings := gone))
  {
  }

  lemma {:induction false} KeptFrom(o: P.Options, items: seq<P.Pooled>, now: int)
    ensures |P.Kept(o, items, now)| <= |items|
    ensures forall x :: x in P.Kept(o, items, now) ==> x in items
  {
    if items != [] {
      KeptFrom(o, items[..|items| - 1], now);
    }
  }

  // Put is where the bound is kept: it closes the connection when the list is full or
  // the pool was closed since the refill checked.
  lemma PutConserves(o: P.Options, p: P.State, put: Conn, now: int, c: Conn)
    requires Tidy(o, p) && o.maxIdle > 0
    ensures var q := P.AfterPut(o, p, put.backend, put, now);
      && Tidy(o, q)
      && IdleCount(q, c) + Count(q.closings, c)
         == IdleCount(p, c) + Count(p.closings, c) + if c == put then 1 else 0
  {
    hide Tidy;
    var items := P.IdleOf(p, put.backend);
    TidyItems(o, p, put.backend);
    if !p.closed && |items| < o.maxIdle {
      TidyReplace(o, p, put.backend, items + [P.Pooled(put, now)], p.closings);
    }
    TidySameIdle(o, p, p.closings + [put]);
    CountAppend(p.closings, [put], c);
    assert P.Conns(items + [P.Pooled(put, now)]) == P.Conns(items) + [put];
    CountAppend(P.Conns(items), [put], c);
  }

  lemma CloseConserves(o: P.Options, p: P.State, order: seq<Addr>, c: Conn)
    requires Tidy(o, p) && P.Enumerates(order, p.idle.Keys)
    ensures var q := P.AfterClose(p, order);
      Tidy(o, q) && q.closed && IdleCount(p, c) + Count(p.closings, c) == IdleCount(q, c) + Count(q.closings, c)
  {
    ListingCounts(o, p, order, c);
    CountAppend(p.closings, P.Listing(p.idle, order), c);
  }

  lemma Elsewhere(o: P.Options, p: P.State, b: Addr, c: Conn)
    requires Tidy(o, p)
    ensures c.backend != b ==> Count(P.Conns(P.IdleOf(p, b)), c) == 0
  {
    if c.backend != b {
      assert c !in P.Conns(P.IdleOf(p, b));
    }
  }

  // The connection a step dials, if it dials one.
  function Fresh(s: State, a: Action): seq<Conn>
    requires a.Dial? ==> a.task < |s.tasks| && (s.tasks[a.task].pc.Dialling? || s.tasks[a.task].pc.Refilling?)
  {
    if a.Dial? && a.ok then [P.Conn(s.tasks[a.task].pc.backend, |s.dialled|)] else []
  }

  lemma FlightSpawn(ts: seq<Task>, t: Task, c: Conn)
    ensures FlightCount(ts + [t], c) == FlightCount(ts, c) + Count(InFlight(t), c)
  {
    assert (ts + [t])[..|ts|] == ts;
  }

  lemma FinishPlaces(s: State, i: nat, c: Conn)
    requires i < |s.tasks|
    ensures Places(Finish(s, i), c) + Count(InFlight(s.tasks[i]), c)
         == Places(s, c) + Count(Held(s.tasks[i].result), c)
  {
    FlightUpdate(s.tasks, i, Task(None, Over), c);
    CountAppend(s.handed, Held(s.tasks[i].result), c);
  }

  // A DialStatus that has yet to dial holds no connection.
  ghost predicate EmptyHanded(s: State) {
    forall i :: 0 <= i < |s.tasks| && s.tasks[i].pc.Dialling? ==> s.tasks[i].result == None
  }

  lemma StatusPlaces(o: P.Options, s: State, b: Addr, c: Conn)
    requires o.maxIdle > 0 && Tidy(o, s.pool)
    ensures Tidy(o, Next(o, s, DialStatus(b)).pool)
    ensures Places(Next(o, s, DialStatus(b)), c) == Places(s, c)
  {
    hide P.AfterGet, P.GetResult, Tidy, IdleCount, FlightCount;
    GetConserves(o, s.pool, b, s.now, c);
    var hit := P.GetResult(o, s.pool, b, s.now);
    CountAppend(s.handed, Held(hit), c);
    FlightSpawn(s.tasks, Task(None, Checking(b)), c);
    FlightSpawn(s.tasks, Task(None, Dialling(b)), c);
  }

  lemma CheckPlaces(o: P.Options, s: State, i: nat, c: Conn)
    requires o.maxIdle > 0 && Tidy(o, s.pool) && Enabled(s, Check(i))
    ensures Tidy(o, Next(o, s, Check(i)).pool)
    ensures Places(Next(o, s, Check(i)), c) == Places(s, c)
  {
    hide P.AfterNeeds, Tidy, IdleCount, P.NeedsResult, FlightCount, Count;
    var t := s.tasks[i];
    var b := t.pc.backend;
    NeedsConserves(o, s.pool, b, s.now, c);
    FlightUpdate(s.tasks, i, t.(pc := Refilling(b)), c);
    FinishPlaces(s.(pool := P.AfterNeeds(o, s.pool, b, s.now)), i, c);
    assert InFlight(t) == Held(t.result);
    assert InFlight(t.(pc := Refilling(b))) == Held(t.result);
  }

  lemma PutPlaces(o: P.Options, s: State, i: nat, c: Conn)
    requires o.maxIdle > 0 && Tidy(o, s.pool) && Enabled(s, Put(i))
    ensures Tidy(o, Next(o, s, Put(i)).pool)
    ensures Places(Next(o, s, Put(i)), c) == Places(s, c)
  {
    var put := s.tasks[i].pc.conn;
    PutConserves(o, s.pool, put, s.now, c);
    FinishPlaces(s.(pool := P.AfterPut(o, s.pool, put.backend, put, s.now)), i, c);
    CountAppend(Held(s.tasks[i].result), [put], c);
  }

  lemma FirstDialPlaces(o: P.Options, s: State, i: nat, ok: bool, c: Conn)
    requires Enabled(s, Dial(i, ok)) && s.tasks[i] == Task(None, Dialling(s.tasks[i].pc.backend))
    ensures Next(o, s, Dial(i, ok)).pool == s.pool
    ensures Places(Next(o, s, Dial(i, ok)), c) == Places(s, c) + Count(Fresh(s, Dial(i, ok)), c)
  {
    var b := s.tasks[i].pc.backend;
    var t := Task(if ok then Some(P.Conn(b, |s.dialled|)) else None, Checking(b));
    FlightUpdate(s.tasks, i, t, c);
    assert InFlight(t) == Fresh(s, Dial(i, ok)) && InFlight(s.tasks[i]) == [];
  }

  lemma RefillDialPlaces(o: P.Options, s: State, i: nat, ok: bool, c: Conn)
    requires Enabled(s, Dial(i, ok)) && s.tasks[i].pc.Refilling?
    ensures Next(o, s, Dial(i, ok)).pool == s.pool
    ensures Places(Next(o, s, Dial(i, ok)), c) == Places(s, c) + Count(Fresh(s, Dial(i, ok)), c)
  {
    var t := s.tasks[i];
    if ok {
      var made := P.Conn(t.pc.backend, |s.dialled|);
      FlightUpdate(s.tasks, i, t.(pc := Putting(made)), c);
      CountAppend(Held(t.result), [made], c);
      assert InFlight(t) == Held(t.result);
    } else {
      FinishPlaces(s, i, c);
      assert InFlight(t) == Held(t.result);
    }
  }

  // No step makes a connection vanish or appear twice: only a successful dial adds one,
  // in one place.
  lemma StepPlaces(o: P.Options, s: State, a: Action, c: Conn)
    requires o.maxIdle > 0 && Tidy(o, s.pool) && EmptyHanded(s) && Enabled(s, a)
    ensures Tidy(o, Next(o, s, a).pool)
    ensures Places(Next(o, s, a), c) == Places(s, c) + Count(Fresh(s, a), c)
  {
    hide Places, Tidy;
    match a
    case Tick(_) =>
      IdlePlaces(s, c);
    case DialStatus(b) => StatusPlaces(o, s, b, c);
    case StartRefill(b) =>
      SpawnPlaces(s, b, c);
    case Dial(i, ok) =>
      if s.tasks[i].pc.Dialling? {
        FirstDialPlaces(o, s, i, ok, c);
      } else {
        RefillDialPlaces(o, s, i, ok, c);
      }
    case Check(i) => CheckPlaces(o, s, i, c);
    case Put(i) => PutPlaces(o, s, i, c);
    case ClosePool(order) => ClosePlaces(o, s, order, c);
  }

  lemma IdlePlaces(s: State, c: Conn)
    ensures forall now :: Places(s.(now := now), c) == Places(s, c)
  {
  }

  lemma SpawnPlaces(s: State, b: Addr, c: Conn)
    ensures Places(Spawn(s, Task(None, Checking(b))), c) == Places(s, c)
  {
    FlightSpawn(s.tasks, Task(None, Checking(b)), c);
  }

  lemma ClosePlaces(o: P.Options, s: State, order: seq<Addr>, c: Conn)
    requires Tidy(o, s.pool) && Enabled(s, ClosePool(order))
    ensures Tidy(o, Next(o, s, ClosePool(order)).pool)
    ensures Places(Next(o, s, ClosePool(order)), c) == Places(s, c)
  {
    CloseConserves(o, s.pool, order, c);
  }

  lemma EmptyHandedStep(o: P.Options, s: State, a: Action)
    requires EmptyHanded(s) && Enabled(s, a)
    ensures EmptyHanded(Next(o, s, a))
  {
  }

  // ------------------------------------------------------------------------ main results

  lemma {:induction false} AlwaysOwned(o: P.Options, run: seq<Action>)
    requires o.maxIdle > 0 && After(o, run).Some?
    ensures Owned(o, After(o, run).value) && EmptyHanded(After(o, run).value)
  {
    if run != [] {
      var s, a := After(o, run[..|run| - 1]).value, run[|run| - 1];
      AlwaysOwned(o, run[..|run| - 1]);
      OwnedStep(o, s, a);
    } else {
      assert forall c :: Places(INITIAL, c) == 0;
    }
  }

  lemma OwnedStep(o: P.Options, s: State, a: Action)
    requires o.maxIdle > 0 && Owned(o, s) && EmptyHanded(s) && Enabled(s, a)
    ensures Owned(o, Next(o, s, a)) && EmptyHanded(Next(o, s, a))
  {
    hide Next, Places, Tidy;
    var t := Next(o, s, a);
    StepPlaces(o, s, a, P.Conn([], 0));
    EmptyHandedStep(o, s, a);
    DialledStep(o, s, a);
    forall c ensures Places(t, c) == if c in t.dialled then 1 else 0 {
      StepPlaces(o, s, a, c);
      FreshIsNew(s, a, c);
    }
  }

  lemma DialledStep(o: P.Options, s: State, a: Action)
    requires Enabled(s, a)
    ensures Next(o, s, a).dialled == s.dialled + Fresh(s, a)
  {
  }

  lemma FreshIsNew(s: State, a: Action, c: Conn)
    requires a.Dial? ==> a.task < |s.tasks| && (s.tasks[a.task].pc.Dialling? || s.tasks[a.task].pc.Refilling?)
    requires forall i :: 0 <= i < |s.dialled| ==> s.dialled[i].id == i
    ensures Count(Fresh(s, a), c) == if c in Fresh(s, a) then 1 else 0
    ensures c in Fresh(s, a) ==> c !in s.dialled
  {
  }

  // In every reachable state of every interleaving, each dialled connection is in exactly
  // one place: in flight, idle, handed out once, or closed once; nothing else is anywhere.
  lemma OnePlaceEach(o: P.Options, run: seq<Action>, c: Conn)
    requires o.maxIdle > 0 && After(o, run).Some?
    ensures Places(After(o, run).value, c) == if c in After(o, run).value.dialled then 1 else 0
  {
    AlwaysOwned(o, run);
  }

  // The stale check of a refill never pushes a list over the limit.
  lemma NeverTooManyIdle(o: P.Options, run: seq<Action>, b: Addr)
    requires o.maxIdle > 0 && After(o, run).Some?
    ensures |P.IdleOf(After(o, run).value.pool, b)| <= o.maxIdle
  {
    AlwaysOwned(o, run);
  }

  // Once the pool is closed nothing is idle, whatever refills are still under way.
  lemma {:induction false} NothingIdleAfterClose(o: P.Options, run: seq<Action>, k: nat, b: Addr)
    requires o.maxIdle > 0 && After(o, run).Some?
    requires k < |run| && run[k].ClosePool?
    ensures After(o, run).value.pool.closed && P.IdleOf(After(o, run).value.pool, b) == []
  {
    var n := |run| - 1;
    AlwaysOwned(o, run);
    AlwaysOwned(o, run[..n]);
    if k < n {
      NothingIdleAfterClose(o, run[..n], k, b);
    }
  }

  // ----------------------------------------------------------- what the steps are there for

  // A refill on its own, on an open pool with room, whose dial succeeds, adds exactly one
  // connection, the one it dialled, to those that are not too old.
  lemma RefillAlone(o: P.Options, s: State, b: Addr)
    requires o.maxIdle > 0 && !s.pool.closed && |P.Young(o, s.pool, b, s.now)| < o.maxIdle
    ensures var i, c := |s.tasks|, P.Conn(b, |s.dialled|);
      var s1 := Next(o, s, StartRefill(b));
      && Enabled(s1, Check(i)) && Enabled(Next(o, s1, Check(i)), Dial(i, true))
      && var s3 := Next(o, Next(o, s1, Check(i)), Dial(i, true));
      && Enabled(s3, Put(i)) && s3.dialled == s.dialled + [c]
      && var t := Next(o, s3, Put(i));
      && b in t.pool.idle && |t.pool.idle[b]| == |P.Young(o, s.pool, b, s.now)| + 1
      && t.pool.idle[b][|t.pool.idle[b]| - 1] == P.Pooled(c, s.now)
      && t.handed == s.handed
  {
    var i, c := |s.tasks|, P.Conn(b, |s.dialled|);
    P.NeedsExactly(o, s.pool, b, s.now);
    var p := P.AfterNeeds(o, s.pool, b, s.now);
    P.PutExactly(o, p, b, c, s.now);
    hide P.NeedsResult, P.AfterPut, P.Young;
    var s1 := Next(o, s, StartRefill(b));
    var s2 := Next(o, s1, Check(i));
    assert s2.tasks[i].pc == Refilling(b) && s2.pool == p;
  }

  // Without room, or on a closed pool, it dials nothing: it is over after its check.
  lemma RefillWithoutRoom(o: P.Options, s: State, b: Addr, ok: bool)
    requires o.maxIdle > 0 && (s.pool.closed || |P.Young(o, s.pool, b, s.now)| >= o.maxIdle)
    ensures var i := |s.tasks|;
      var s1 := Next(o, s, StartRefill(b));
      && Enabled(s1, Check(i))
      && var s2 := Next(o, s1, Check(i));
      && !Enabled(s2, Dial(i, ok)) && !Enabled(s2, Put(i)) && s2.dialled == s.dialled
  {
    P.NeedsExactly(o, s.pool, b, s.now);
  }

  // A status dial takes the connection added last if it is not too old, and starts a
  // refill; else it dials.
  lemma DialStatusTakes(o: P.Options, s: State, b: Addr)
    requires b in s.pool.idle ==> P.Sorted(s.pool.idle[b], s.now)
    ensures var t, n := Next(o, s, DialStatus(b)), |s.tasks|;
      && |t.tasks| == n + 1
      && if !s.pool.closed && b in s.pool.idle && s.pool.idle[b] != []
            && s.now - s.pool.idle[b][|s.pool.idle[b]| - 1].addedAt <= o.idleTimeout
         then t.handed == s.handed + [s.pool.idle[b][|s.pool.idle[b]| - 1].conn] && t.tasks[n].pc == Checking(b)
         else t.handed == s.handed && t.tasks[n].pc == Dialling(b)
  {
    P.GetExactly(o, s.pool, b, s.now);
  }
}
