/** internal/pool/pool.go: a bounded stack of idle connections per backend.  The lists are
    slices over arrays that NeedsConn filters in place. */
module Pool {
  import opened Wrappers
  import opened Bits

  type Addr = seq<byte>

  // A dialled connection: which backend it was dialled to, and which dial it came from.
  datatype Conn = Conn(backend: Addr, id: nat)

  datatype Pooled = Pooled(conn: Conn, addedAt: int)

  datatype Options = Options(maxIdle: int, idleTimeout: int)

  function WithDefaults(o: Options): (r: Options)
    ensures r.maxIdle > 0 && r.idleTimeout > 0
  {
    Options(if o.maxIdle <= 0 then 1 else o.maxIdle,
            if o.idleTimeout <= 0 then 30 * 1_000_000_000 else o.idleTimeout)
  }

  // The pool as a value: the idle lists, and every Close it has called on a connection.
  datatype State = State(idle: map<Addr, seq<Pooled>>, closed: bool, closings: seq<Conn>)

  predicate Expired(o: Options, item: Pooled, now: int) {
    now - item.addedAt > o.idleTimeout
  }

  function IdleOf(s: State, b: Addr): seq<Pooled> {
    if b in s.idle then s.idle[b] else []
  }

  function Conns(items: seq<Pooled>): (cs: seq<Conn>)
    ensures |cs| == |items|
    ensures forall i :: 0 <= i < |cs| ==> cs[i] == items[i].conn
  {
    seq(|items|, i requires 0 <= i < |items| => items[i].conn)
  }

  // Popping from the end until an unexpired connection turns up: what stays, what is
  // returned, what was closed.
  function Pop(o: Options, items: seq<Pooled>, now: int): (seq<Pooled>, Option<Conn>, seq<Conn>) {
    if items == [] then ([], None, [])
    else
      var last := items[|items| - 1];
      if !Expired(o, last, now) then (items[..|items| - 1], Some(last.conn), [])
      else
        var (rest, conn, gone) := Pop(o, items[..|items| - 1], now);
        (rest, conn, [last.conn] + gone)
  }

  function Kept(o: Options, items: seq<Pooled>, now: int): seq<Pooled> {
    if items == [] then []
    else
      Kept(o, items[..|items| - 1], now)
      + if Expired(o, items[|items| - 1], now) then [] else [items[|items| - 1]]
  }

  function Dropped(o: Options, items: seq<Pooled>, now: int): seq<Conn> {
    if items == [] then []
    else
      Dropped(o, items[..|items| - 1], now)
      + if Expired(o, items[|items| - 1], now) then [items[|items| - 1].conn] else []
  }

  function AfterGet(o: Options, s: State, b: Addr, now: int): State {
    if s.closed || IdleOf(s, b) == [] then s
    else
      var (rest, _, gone) := Pop(o, IdleOf(s, b), now);
      s.(idle := s.idle[b := rest], closings := s.closings + gone)
  }

  function GetResult(o: Options, s: State, b: Addr, now: int): Option<Conn> {
    if s.closed then None else Pop(o, IdleOf(s, b), now).1
  }

  function AfterNeeds(o: Options, s: State, b: Addr, now: int): State {
    if s.closed then s
    else
      s.(idle := s.idle[b := Kept(o, IdleOf(s, b), now)],
         closings := s.closings + Dropped(o, IdleOf(s, b), now))
  }

  predicate NeedsResult(o: Options, s: State, b: Addr, now: int) {
    !s.closed && |Kept(o, IdleOf(s, b), now)| < o.maxIdle
  }

  function AfterPut(o: Options, s: State, b: Addr, c: Conn, now: int): State {
    if s.closed || |IdleOf(s, b)| >= o.maxIdle then s.(closings := s.closings + [c])
    else s.(idle := s.idle[b := IdleOf(s, b) + [Pooled(c, now)]])
  }

  // Close walks the backends in whatever order the map iteration takes.
  function Listing(idle: map<Addr, seq<Pooled>>, order: seq<Addr>): seq<Conn> {
    if order == [] then []
    else
      var b := order[|order| - 1];
      Listing(idle, order[..|order| - 1]) + if b in idle then Conns(idle[b]) else []
  }

  ghost predicate Enumerates(order: seq<Addr>, keys: set<Addr>) {
    && (forall b :: b in order <==> b in keys)
    && (forall i, j :: 0 <= i < j < |order| ==> order[i] != order[j])
  }

  function AfterClose(s: State, order: seq<Addr>): State {
    if s.closed then s else State(map[], true, s.closings + Listing(s.idle, order))
  }

  // A Go slice: the first `len` elements of a backing array.
  datatype Slice = Slice(arr: array<Pooled>, len: nat)

  class Pool {
    const options: Options
    var idle: map<Addr, Slice>
    var closed: bool
    var closings: seq<Conn>

    ghost function Arrays(): set<array<Pooled>>
      reads this
    {
      set b | b in idle :: idle[b].arr
    }

    // No two backends share a backing array.
    ghost predicate Valid()
      reads this
    {
      && (forall b :: b in idle ==> idle[b].len <= idle[b].arr.Length)
      && (forall a, b :: a in idle && b in idle && a != b ==> idle[a].arr != idle[b].arr)
    }

    ghost function Abs(): State
      requires Valid()
      reads this, Arrays()
    {
      State(map b | b in idle :: idle[b].arr[..idle[b].len], closed, closings)
    }

    constructor (options: Options)
      ensures Valid() && fresh(Arrays())
      ensures this.options == WithDefaults(options) && Abs() == State(map[], false, [])
    {
      this.options := WithDefaults(options);
      idle, closed, closings := map[], false, [];
    }

    // Replacing one backend's slice changes that backend's list and no other.
    twostate lemma ReplacedValid(b: Addr, new s: Slice)
      requires old(Valid()) && idle == old(idle)[b := s]
      requires s.len <= s.arr.Length
      requires forall a :: a in old(idle) && a != b ==> s.arr != old(idle)[a].arr
      ensures Valid()
    {
    }

    twostate lemma Replaced(b: Addr, new s: Slice)
      requires old(Valid()) && idle == old(idle)[b := s]
      requires s.len <= s.arr.Length
      requires forall a :: a in old(idle) && a != b ==> s.arr != old(idle)[a].arr
      requires forall a :: a in old(idle) && a != b ==> unchanged(old(idle)[a].arr)
      ensures Valid()
      ensures Abs().idle == old(Abs()).idle[b := s.arr[..s.len]]
    {
      ReplacedValid(b, s);
      forall a | a in old(idle) && a != b
        ensures idle[a].arr[..idle[a].len] == old(idle[a].arr[..idle[a].len])
      {
        Untouched(old(idle)[a]);
      }
    }

    twostate lemma Untouched(s: Slice)
      requires s.len <= s.arr.Length && unchanged(s.arr)
      ensures s.arr[..s.len] == old(s.arr[..s.len])
    {
    }

    method Get(backend: Addr, now: int) returns (conn: Option<Conn>)
      requires Valid()
      modifies this
      ensures Valid() && Arrays() <= old(Arrays())
      ensures Abs() == AfterGet(options, old(Abs()), backend, now)
      ensures conn == GetResult(options, old(Abs()), backend, now)
    {
      hide Pop;
      PopNothing(options, now);
      if closed {
        return None;
      }
      var conns := ListOf(backend);
      if conns.len == 0 {
        return None;
      }
      var n, gone;
      n, conn, gone := PopUnexpired(options, conns, now);
      closings := closings + gone;
      idle := idle[backend := Slice(conns.arr, n)];
      Replaced(backend, Slice(conns.arr, n));
    }

    method NeedsConn(backend: Addr, now: int) returns (needs: bool)
      requires Valid()
      modifies this, Arrays()
      ensures Valid() && fresh(Arrays() - old(Arrays()))
      ensures Abs() == AfterNeeds(options, old(Abs()), backend, now)
      ensures needs == NeedsResult(options, old(Abs()), backend, now)
    {
      hide Kept, Dropped;
      if closed {
        return false;
      }
      var conns := ListOf(backend);
      var kept, dropped := FilterInPlace(options, conns.arr, conns.len, now);
      closings := closings + dropped;
      idle := idle[backend := Slice(conns.arr, kept)];
      Replaced(backend, Slice(conns.arr, kept));
      return kept < options.maxIdle;
    }

    method Put(backend: Addr, conn: Conn, now: int)
      requires Valid()
      modifies this, Arrays()
      ensures Valid() && fresh(Arrays() - old(Arrays()))
      ensures Abs() == AfterPut(options, old(Abs()), backend, conn, now)
    {
      if closed {
        CloseConn(conn);
        return;
      }
      var conns := ListOf(backend);
      if conns.len >= options.maxIdle {
        CloseConn(conn);
        return;
      }
      Push(backend, conns, Pooled(conn, now));
    }

    // `_ = conn.Close()`.
    method CloseConn(conn: Conn)
      requires Valid()
      modifies this`closings
      ensures Valid() && Abs() == old(Abs()).(closings := old(Abs()).closings + [conn])
    {
      closings := closings + [conn];
    }

    // The end of Put: `p.idle[backend] = append(conns, item)`.
    method Push(backend: Addr, conns: Slice, item: Pooled)
      requires Valid() && conns.len <= conns.arr.Length
      requires conns.arr[..conns.len] == IdleOf(Abs(), backend)
      requires forall a :: a in idle && a != backend ==> idle[a].arr != conns.arr
      modifies this`idle, conns.arr
      ensures Valid() && backend in idle && Arrays() <= old(Arrays()) + {idle[backend].arr}
      ensures idle[backend].arr == conns.arr || fresh(idle[backend].arr)
      ensures Abs() == old(Abs()).(idle := old(Abs()).idle[backend := IdleOf(old(Abs()), backend) + [item]])
    {
      var longer := Append(conns, item);
      idle := idle[backend := longer];
      Replaced(backend, longer);
    }

    // `p.idle[backend]`, the nil slice if there is none.
    method ListOf(backend: Addr) returns (s: Slice)
      requires Valid()
      ensures s.len <= s.arr.Length && s.arr[..s.len] == IdleOf(Abs(), backend)
      ensures if backend in idle then s == idle[backend] else fresh(s.arr)
    {
      if backend in idle {
        return idle[backend];
      }
      var none := new Pooled[0];
      return Slice(none, 0);
    }

    method Close() returns (ghost order: seq<Addr>)
      requires Valid()
      modifies this
      ensures Valid() && fresh(Arrays() - old(Arrays()))
      ensures Enumerates(order, old(Abs()).idle.Keys)
      ensures Abs() == AfterClose(old(Abs()), order)
    {
      if closed {
        order := SomeOrder(Abs().idle.Keys);
        return;
      }
      ghost var was := Abs();
      closed := true;
      assert Abs().idle == was.idle;
      order := CloseAll();
      assert Abs().idle == map[];
    }

    // The loop of Close: it walks the map in any order, closing and deleting as it goes.
    method CloseAll() returns (ghost order: seq<Addr>)
      requires Valid()
      modifies this`idle, this`closings
      ensures idle == map[] && Valid() && Enumerates(order, old(Abs()).idle.Keys)
      ensures closings == old(closings) + Listing(old(Abs()).idle, order)
    {
      hide Listing;
      ghost var was := Abs();
      ghost var done := {};
      order := [];
      ListingNone(was.idle);
      while idle.Keys != {}
        invariant forall b :: b in idle ==> b in old(idle) && idle[b] == old(idle)[b]
        invariant Enumerates(order, done) && done + idle.Keys == old(idle).Keys && done !! idle.Keys
        invariant closings == was.closings + Listing(was.idle, order)
        decreases idle.Keys
      {
        var b :| b in idle.Keys;
        var conns := ConnsIn(idle[b]);
        ListingMore(was.idle, order, b);
        EnumeratesMore(order, done, b);
        assert conns == Conns(was.idle[b]);
        assert closings + conns == was.closings + Listing(was.idle, order + [b]);
        closings := closings + conns;
        idle := idle - {b};
        order, done := order + [b], done + {b};
      }
    }
  }

  lemma PopNothing(o: Options, now: int)
    ensures Pop(o, [], now) == ([], None, [])
  {
  }

  lemma ListingNone(idle: map<Addr, seq<Pooled>>)
    ensures Listing(idle, []) == []
  {
  }

  lemma ListingMore(idle: map<Addr, seq<Pooled>>, order: seq<Addr>, b: Addr)
    requires b in idle
    ensures Listing(idle, order + [b]) == Listing(idle, order) + Conns(idle[b])
  {
    assert (order + [b])[..|order|] == order;
  }

  lemma EnumeratesMore(order: seq<Addr>, keys: set<Addr>, b: Addr)
    requires Enumerates(order, keys) && b !in keys
    ensures Enumerates(order + [b], keys + {b})
  {
  }

  // Get's loop over one backend's list.
  method PopUnexpired(o: Options, s: Slice, now: int) returns (n: nat, conn: Option<Conn>, gone: seq<Conn>)
    requires s.len <= s.arr.Length
    ensures n <= s.len && (s.arr[..n], conn, gone) == Pop(o, s.arr[..s.len], now)
  {
    ghost var all := s.arr[..s.len];
    n, gone := s.len, [];
    assert all[..n] == all && gone + Pop(o, all, now).2 == Pop(o, all, now).2;
    while n > 0
      invariant n <= s.len
      invariant Pop(o, all, now)
        == (Pop(o, all[..n], now).0, Pop(o, all[..n], now).1, gone + Pop(o, all[..n], now).2)
    {
      n := n - 1;
      var item := s.arr[n];
      assert all[..n + 1][..n] == all[..n] == s.arr[..n];
      if !Expired(o, item, now) {
        assert gone + [] == gone;
        return n, Some(item.conn), gone;
      }
      assert gone + ([item.conn] + Pop(o, all[..n], now).2) == (gone + [item.conn]) + Pop(o, all[..n], now).2;
      gone := gone + [item.conn];
    }
    assert gone + [] == gone;
    conn := None;
  }

  // `kept := conns[:0]` shares the array it filters: every survivor is written at or
  // before the place it was just read from.
  method FilterInPlace(o: Options, arr: array<Pooled>, n: nat, now: int)
    returns (kept: nat, dropped: seq<Conn>)
    requires n <= arr.Length
    modifies arr
    ensures kept <= n && arr[..kept] == Kept(o, old(arr[..n]), now)
    ensures dropped == Dropped(o, old(arr[..n]), now)
  {
    ghost var all := arr[..n];
    kept, dropped := 0, [];
    var i := 0;
    while i < n
      invariant kept <= i <= n
      invariant arr[..kept] == Kept(o, all[..i], now)
      invariant dropped == Dropped(o, all[..i], now)
      invariant forall j :: i <= j < n ==> arr[j] == all[j]
    {
      var item := arr[i];
      assert all[..i + 1][..i] == all[..i];
      ghost var front := arr[..kept];
      if !Expired(o, item, now) {
        arr[kept] := item;
        kept := kept + 1;
        assert arr[..kept] == front + [item];
      } else {
        dropped := dropped + [item.conn];
      }
      i := i + 1;
    }
    assert all[..n] == all;
  }

  // `append` writes into spare capacity if there is any, else moves to a larger array.
  method Append(s: Slice, item: Pooled) returns (r: Slice)
    requires s.len <= s.arr.Length
    modifies s.arr
    ensures r.len == s.len + 1 <= r.arr.Length && r.arr[..r.len] == old(s.arr[..s.len]) + [item]
    ensures r.arr == s.arr || fresh(r.arr)
  {
    var arr := s.arr;
    if s.len == arr.Length {
      var spare :| spare >= 0;
      arr := new Pooled[s.len + 1 + spare](_ => item);
      forall i | 0 <= i < s.len {
        arr[i] := s.arr[i];
      }
      assert arr[..s.len] == s.arr[..s.len];
    }
    arr[s.len] := item;
    r := Slice(arr, s.len + 1);
  }

  method ConnsIn(s: Slice) returns (conns: seq<Conn>)
    requires s.len <= s.arr.Length
    ensures conns == Conns(s.arr[..s.len])
  {
    conns := [];
    for i := 0 to s.len
      invariant conns == Conns(s.arr[..s.len])[..i]
    {
      conns := conns + [s.arr[i].conn];
    }
  }

  // The keys of a finite map can be listed, each once.
  lemma SomeOrder(keys: set<Addr>) returns (order: seq<Addr>)
    ensures Enumerates(order, keys)
  {
    order := [];
    var todo := keys;
    while todo != {}
      invariant todo <= keys && Enumerates(order, keys - todo)
      decreases todo
    {
      var b :| b in todo;
      todo := todo - {b};
      order := order + [b];
    }
  }

  // ----------------------------------------------------------------- order in the lists

  // The lists are filled at the end under the lock, so their times never decrease.
  ghost predicate Sorted(items: seq<Pooled>, now: int) {
    && (forall i, j :: 0 <= i < j < |items| ==> items[i].addedAt <= items[j].addedAt)
    && (forall i :: 0 <= i < |items| ==> items[i].addedAt <= now)
  }

  datatype Op =
    | Get(backend: Addr, now: int)
    | Needs(backend: Addr, now: int)
    | Put(conn: Conn, now: int)
    | Close(order: seq<Addr>, now: int)

  function Step(o: Options, s: State, op: Op): State {
    match op
    case Get(b, now) => AfterGet(o, s, b, now)
    case Needs(b, now) => AfterNeeds(o, s, b, now)
    case Put(c, now) => AfterPut(o, s, c.backend, c, now)
    case Close(order, _) => AfterClose(s, order)
  }

  const EMPTY := State(map[], false, [])

  function Run(o: Options, ops: seq<Op>): State {
    if ops == [] then EMPTY else Step(o, Run(o, ops[..|ops| - 1]), ops[|ops| - 1])
  }

  ghost predicate InTime(ops: seq<Op>, now: int) {
    && (forall i, j :: 0 <= i < j < |ops| ==> ops[i].now <= ops[j].now)
    && (forall i :: 0 <= i < |ops| ==> ops[i].now <= now)
  }

  lemma {:induction false} PopPrefix(o: Options, items: seq<Pooled>, now: int)
    ensures Pop(o, items, now).0 <= items
  {
    if items != [] {
      PopPrefix(o, items[..|items| - 1], now);
    }
  }

  lemma {:induction false} KeptSorted(o: Options, items: seq<Pooled>, t: int, now: int)
    requires Sorted(items, now)
    ensures Sorted(Kept(o, items, t), now) && |Kept(o, items, t)| <= |items|
    ensures forall x :: x in Kept(o, items, t) ==> x in items
  {
    if items != [] {
      var front, last := items[..|items| - 1], items[|items| - 1];
      KeptSorted(o, front, t, now);
      assert forall x :: x in Kept(o, front, t) ==> x.addedAt <= last.addedAt;
    }
  }

  lemma NothingSorted(now: int)
    ensures Sorted([], now)
  {
  }

  lemma StillSorted(items: seq<Pooled>, t: int, now: int)
    requires Sorted(items, t) && t <= now
    ensures Sorted(items, now)
  {
  }

  lemma GetSorted(o: Options, s: State, a: Addr, t: int, now: int, b: Addr)
    requires Sorted(IdleOf(s, b), t) && t <= now
    ensures Sorted(IdleOf(AfterGet(o, s, a, t), b), now)
  {
    PopPrefix(o, IdleOf(s, a), t);
  }

  lemma NeedsSorted(o: Options, s: State, a: Addr, t: int, now: int, b: Addr)
    requires Sorted(IdleOf(s, b), t) && t <= now
    ensures Sorted(IdleOf(AfterNeeds(o, s, a, t), b), now)
  {
    if a == b {
      KeptSorted(o, IdleOf(s, a), t, now);
    }
  }

  lemma PutSorted(o: Options, s: State, c: Conn, t: int, now: int, b: Addr)
    requires Sorted(IdleOf(s, b), t) && t <= now
    ensures Sorted(IdleOf(AfterPut(o, s, c.backend, c, t), b), now)
  {
  }

  lemma {:induction false} AlwaysSorted(o: Options, ops: seq<Op>, now: int, b: Addr)
    requires InTime(ops, now)
    ensures Sorted(IdleOf(Run(o, ops), b), now)
  {
    hide AfterGet, AfterNeeds, AfterPut, Sorted;
    if ops == [] {
      NothingSorted(now);
    } else {
      var n := |ops| - 1;
      var s, op := Run(o, ops[..n]), ops[n];
      AlwaysSorted(o, ops[..n], op.now, b);
      match op
      case Get(a, t) => GetSorted(o, s, a, t, now, b);
      case Needs(a, t) => NeedsSorted(o, s, a, t, now, b);
      case Put(c, t) => PutSorted(o, s, c, t, now, b);
      case Close(_, t) =>
        NothingSorted(now);
        StillSorted(IdleOf(s, b), t, now);
    }
  }

  function Reversed(cs: seq<Conn>): seq<Conn> {
    if cs == [] then [] else [cs[|cs| - 1]] + Reversed(cs[..|cs| - 1])
  }

  // Get therefore returns the newest connection, unexpired, or finds all of them expired
  // and closes every one.
  lemma {:induction false} GetAllOrNothing(o: Options, items: seq<Pooled>, now: int)
    requires Sorted(items, now)
    ensures Pop(o, items, now) ==
      if items != [] && now - items[|items| - 1].addedAt <= o.idleTimeout
      then (items[..|items| - 1], Some(items[|items| - 1].conn), [])
      else ([], None, Reversed(Conns(items)))
  {
    if items != [] && Expired(o, items[|items| - 1], now) {
      var front := items[..|items| - 1];
      GetAllOrNothing(o, front, now);
      assert Conns(items)[..|items| - 1] == Conns(front);
    }
  }

  // The number of connections at the front of a list that have expired.
  function Stale(o: Options, items: seq<Pooled>, now: int): (k: nat)
    ensures k <= |items|
  {
    if items == [] || !Expired(o, items[0], now) then 0 else 1 + Stale(o, items[1..], now)
  }

  lemma {:induction false} StaleSplits(o: Options, items: seq<Pooled>, now: int)
    requires Sorted(items, now)
    ensures forall i :: 0 <= i < |items| ==> (now - items[i].addedAt > o.idleTimeout <==> i < Stale(o, items, now))
  {
    if items != [] && Expired(o, items[0], now) {
      StaleSplits(o, items[1..], now);
      assert forall i :: 1 <= i < |items| ==> items[i] == items[1..][i - 1];
    }
  }

  lemma {:induction false} KeptIsSuffix(o: Options, items: seq<Pooled>, now: int, k: nat)
    requires k <= |items|
    requires forall i :: 0 <= i < |items| ==> (Expired(o, items[i], now) <==> i < k)
    ensures Kept(o, items, now) == items[k..]
  {
    hide Expired;
    if items != [] {
      var n := |items| - 1;
      var front := items[..n];
      if k <= n {
        KeptIsSuffix(o, front, now, k);
        assert items[k..] == front[k..] + [items[n]];
      } else {
        KeptIsSuffix(o, front, now, n);
        assert front[n..] == [];
      }
    }
  }

  lemma {:induction false} DroppedIsPrefix(o: Options, items: seq<Pooled>, now: int, k: nat)
    requires k <= |items|
    requires forall i :: 0 <= i < |items| ==> (Expired(o, items[i], now) <==> i < k)
    ensures Dropped(o, items, now) == Conns(items[..k])
  {
    hide Expired;
    if items != [] {
      var n := |items| - 1;
      var front := items[..n];
      if k <= n {
        DroppedIsPrefix(o, front, now, k);
        assert front[..k] == items[..k];
      } else {
        DroppedIsPrefix(o, front, now, n);
        assert front[..n] == front;
        assert Conns(items[..k]) == Conns(front) + [items[n].conn];
      }
    }
  }

  // NeedsConn leaves exactly the suffix that is not older than the timeout, and closes each
  // of the others once.
  lemma FilterKeepsSuffix(o: Options, items: seq<Pooled>, now: int)
    requires Sorted(items, now)
    ensures var k := Stale(o, items, now);
      && Kept(o, items, now) == items[k..] && Dropped(o, items, now) == Conns(items[..k])
      && (forall i :: 0 <= i < |items| ==> (now - items[i].addedAt > o.idleTimeout <==> i < k))
  {
    StaleSplits(o, items, now);
    KeptIsSuffix(o, items, now, Stale(o, items, now));
    DroppedIsPrefix(o, items, now, Stale(o, items, now));
  }

  // ------------------------------------------------- what the operations come to, in full

  // The places in a backend's list of the connections not older than the timeout.
  function Young(o: Options, s: State, b: Addr, now: int): set<nat> {
    if b !in s.idle then {}
    else set i: nat | i < |s.idle[b]| && now - s.idle[b][i].addedAt <= o.idleTimeout
  }

  // The same places in a list on its own.
  function YoungIn(o: Options, items: seq<Pooled>, now: int): set<nat> {
    set i: nat | i < |items| && now - items[i].addedAt <= o.idleTimeout
  }

  lemma YoungMore(o: Options, items: seq<Pooled>, now: int)
    requires items != []
    ensures var n := |items| - 1;
      |YoungIn(o, items, now)|
        == |YoungIn(o, items[..n], now)| + if now - items[n].addedAt <= o.idleTimeout then 1 else 0
  {
    var n := |items| - 1;
    var before := YoungIn(o, items[..n], now);
    if now - items[n].addedAt <= o.idleTimeout {
      assert YoungIn(o, items, now) == before + {n};
    } else {
      assert YoungIn(o, items, now) == before;
    }
  }

  lemma {:induction false} KeptCount(o: Options, items: seq<Pooled>, now: int)
    ensures |Kept(o, items, now)| == |YoungIn(o, items, now)|
  {
    if items == [] {
      assert YoungIn(o, items, now) == {};
    } else {
      KeptCount(o, items[..|items| - 1], now);
      YoungMore(o, items, now);
    }
  }

  lemma {:induction false} KeptAreYoung(o: Options, items: seq<Pooled>, x: Pooled, now: int)
    ensures x in Kept(o, items, now) <==> x in items && now - x.addedAt <= o.idleTimeout
  {
    if items != [] {
      var n := |items| - 1;
      KeptAreYoung(o, items[..n], x, now);
      assert items == items[..n] + [items[n]];
    }
  }

  // A backend needs a connection exactly if the pool is open and fewer than MaxIdle of its
  // idle connections are not older than the timeout.
  lemma NeedsExactly(o: Options, s: State, b: Addr, now: int)
    requires o.maxIdle > 0
    ensures NeedsResult(o, s, b, now) <==> !s.closed && |Young(o, s, b, now)| < o.maxIdle
    ensures s.closed ==> AfterNeeds(o, s, b, now) == s
    ensures !s.closed ==> |IdleOf(AfterNeeds(o, s, b, now), b)| == |Young(o, s, b, now)|
    ensures !s.closed ==> forall x :: x in IdleOf(AfterNeeds(o, s, b, now), b) <==>
      b in s.idle && x in s.idle[b] && now - x.addedAt <= o.idleTimeout
    ensures forall a :: a != b ==> IdleOf(AfterNeeds(o, s, b, now), a) == IdleOf(s, a)
  {
    var items := IdleOf(s, b);
    KeptCount(o, items, now);
    assert YoungIn(o, items, now) == Young(o, s, b, now);
    forall x ensures x in Kept(o, items, now) <==> x in items && now - x.addedAt <= o.idleTimeout {
      KeptAreYoung(o, items, x, now);
    }
  }

  // Get on an open pool hands out the connection added last, if there is one and it is not
  // older than the timeout; else it closes all the backend has and hands out none.  On a
  // closed pool it does nothing.
  lemma GetExactly(o: Options, s: State, b: Addr, now: int)
    requires b in s.idle ==> Sorted(s.idle[b], now)
    ensures s.closed ==> GetResult(o, s, b, now) == None && AfterGet(o, s, b, now) == s
    ensures !s.closed && b in s.idle && s.idle[b] != [] ==>
      var items, n := s.idle[b], |s.idle[b]| - 1;
      if now - items[n].addedAt <= o.idleTimeout then
        && GetResult(o, s, b, now) == Some(items[n].conn)
        && AfterGet(o, s, b, now) == s.(idle := s.idle[b := items[..n]], closings := s.closings + [])
      else
        && GetResult(o, s, b, now) == None
        && AfterGet(o, s, b, now) == s.(idle := s.idle[b := []], closings := s.closings + Reversed(Conns(items)))
    ensures !s.closed && (b !in s.idle || s.idle[b] == []) ==>
      GetResult(o, s, b, now) == None && AfterGet(o, s, b, now) == s
  {
    if b in s.idle {
      GetAllOrNothing(o, s.idle[b], now);
    }
  }

  // Put keeps the connection, as the newest, while the pool is open and there is room;
  // else it closes it.
  lemma PutExactly(o: Options, s: State, b: Addr, c: Conn, now: int)
    requires o.maxIdle > 0
    ensures !s.closed && (b in s.idle ==> |s.idle[b]| < o.maxIdle) ==>
      AfterPut(o, s, b, c, now)
        == s.(idle := s.idle[b := (if b in s.idle then s.idle[b] else []) + [Pooled(c, now)]])
    ensures s.closed || (b in s.idle && |s.idle[b]| >= o.maxIdle) ==>
      AfterPut(o, s, b, c, now) == s.(closings := s.closings + [c])
  {
  }

  // What New makes of its options.
  lemma DefaultsAre(o: Options)
    ensures o.maxIdle > 0 ==> WithDefaults(o).maxIdle == o.maxIdle
    ensures o.maxIdle <= 0 ==> WithDefaults(o).maxIdle == 1
    ensures o.idleTimeout > 0 ==> WithDefaults(o).idleTimeout == o.idleTimeout
    ensures o.idleTimeout <= 0 ==> WithDefaults(o).idleTimeout == 30_000_000_000
  {
  }
}
