/** The cache key of internal/proxy/server.go: "addr|host|protocol" with the normalized
    host and the protocol version in decimal. */
module StatusKey {
  import opened Wrappers
  import opened Bits
  import opened Packets
  import opened Messages
  import Router
  import L = CacheLocks
  import Cache

  const BAR: byte := 124
  const MINUS: byte := 45
  const ZERO: byte := 48

  function Digits(n: nat): (s: GoString)
    ensures s != [] && (|s| == 1 <==> n < 10)
  {
    if n < 10 then [ZERO + n] else Digits(n / 10) + [ZERO + n % 10]
  }

  // The verb %d.
  function Decimal(v: int32): GoString {
    if v < 0 then [MINUS] + Digits(-(v as int)) else Digits(v)
  }

  function Key(addr: GoString, host: GoString, protocol: int32): GoString {
    addr + [BAR] + Router.NormalizeHost(host) + [BAR] + Decimal(protocol)
  }

  lemma {:induction false} DigitsOnly(n: nat)
    ensures forall i :: 0 <= i < |Digits(n)| ==> ZERO <= Digits(n)[i] < ZERO + 10
  {
    if n >= 10 {
      DigitsOnly(n / 10);
    }
  }

  lemma {:induction false} DigitsInjective(m: nat, n: nat)
    requires Digits(m) == Digits(n)
    ensures m == n
  {
    var s, t := Digits(m), Digits(n);
    assert s[|s| - 1] == t[|t| - 1];
    if m >= 10 && n >= 10 {
      assert s[..|s| - 1] == Digits(m / 10) && t[..|t| - 1] == Digits(n / 10);
      DigitsInjective(m / 10, n / 10);
    }
  }

  lemma DecimalInjective(a: int32, b: int32)
    requires Decimal(a) == Decimal(b)
    ensures a == b
  {
    var x, y: nat := if a < 0 then -(a as int) else a, if b < 0 then -(b as int) else b;
    DigitsOnly(x);
    DigitsOnly(y);
    assert (Decimal(a)[0] == MINUS <==> a < 0) && (Decimal(b)[0] == MINUS <==> b < 0);
    assert a < 0 ==> Decimal(a)[1..] == Digits(x) && Decimal(b)[1..] == Digits(y);
    DigitsInjective(x, y);
  }

  lemma DecimalNoBar(v: int32)
    ensures BAR !in Decimal(v)
  {
    var x: nat := if v < 0 then -(v as int) else v;
    DigitsOnly(x);
    assert forall i :: 0 <= i < |Decimal(v)| ==>
      Decimal(v)[i] == MINUS || Decimal(v)[i] in Digits(x);
  }

  // The first bar ends the address, the last one starts the protocol: splitting there is
  // unambiguous although the host may contain bars itself.
  lemma FirstBar(a: GoString, s: GoString)
    requires BAR !in a
    ensures Router.Index(a + [BAR] + s, BAR) == |a|
  {
    var u := a + [BAR] + s;
    hide Router.Index;
    assert u[|a|] == BAR && forall i :: 0 <= i < |a| ==> u[i] == a[i];
  }

  lemma LastBar(s: GoString, a: GoString)
    requires BAR !in a
    ensures Router.LastIndex(s + [BAR] + a, BAR) == |s|
  {
    var u := s + [BAR] + a;
    hide Router.LastIndex;
    forall i | |s| < i < |u| ensures u[i] != BAR {
      assert u[i] == a[i - |s| - 1];
    }
    var i := Router.LastIndex(u, BAR);
    assert u[|s|] == BAR && i == |s|;
  }

  lemma SplitFirst(a: GoString, s: GoString, b: GoString, t: GoString)
    requires BAR !in a && BAR !in b && a + [BAR] + s == b + [BAR] + t
    ensures a == b && s == t
  {
    FirstBar(a, s);
    FirstBar(b, t);
    var u, v := a + [BAR] + s, b + [BAR] + t;
    assert u[..|a|] == a && v[..|b|] == b && u[|a| + 1..] == s && v[|b| + 1..] == t;
  }

  lemma SplitLast(s: GoString, a: GoString, t: GoString, b: GoString)
    requires BAR !in a && BAR !in b && s + [BAR] + a == t + [BAR] + b
    ensures s == t && a == b
  {
    LastBar(s, a);
    LastBar(t, b);
    var u, v := s + [BAR] + a, t + [BAR] + b;
    assert u[..|s|] == s && v[..|t|] == t && u[|s| + 1..] == a && v[|t| + 1..] == b;
  }

  lemma KeyInjective(a: GoString, h: GoString, p: int32, b: GoString, g: GoString, q: int32)
    requires BAR !in a && BAR !in b && Key(a, h, p) == Key(b, g, q)
    ensures a == b && Router.NormalizeHost(h) == Router.NormalizeHost(g) && p == q
  {
    hide Router.NormalizeHost, Decimal;
    var x, y := Router.NormalizeHost(h), Router.NormalizeHost(g);
    assert Key(a, h, p) == a + [BAR] + (x + [BAR] + Decimal(p));
    assert Key(b, g, q) == b + [BAR] + (y + [BAR] + Decimal(q));
    SplitFirst(a, x + [BAR] + Decimal(p), b, y + [BAR] + Decimal(q));
    DecimalNoBar(p);
    DecimalNoBar(q);
    SplitLast(x, Decimal(p), y, Decimal(q));
    DecimalInjective(p, q);
  }

  // The request on whose behalf the cache is called, and what its backend sends.
  datatype Caller = Caller(addr: GoString, host: GoString, protocol: int32, fromBackend: seq<byte>)

  function KeyOf(who: Caller): GoString {
    Key(who.addr, who.host, who.protocol)
  }

  // The response `who` stores is the packet it read raw from its backend.
  ghost predicate FromBackend(who: Caller, data: seq<byte>, maxLen: int) {
    var o := DecodePacket(who.fromBackend, maxLen);
    o.Got? && o.p.id == STATUS_RESPONSE_ID && o.p.raw == data
  }

  // Step `i` is on behalf of `who(i)`: every Get and Set is called as the handler calls it.
  ghost predicate ByHandlers(run: seq<L.Action>, who: nat -> Caller, maxLen: int, ttl: int) {
    forall i: nat :: i < |run| ==>
      && BAR !in who(i).addr
      && (run[i].StartGet? ==> run[i].key == KeyOf(who(i)))
      && (run[i].StartSet? ==>
            run[i].key == KeyOf(who(i)) && run[i].ttl == ttl && FromBackend(who(i), run[i].data, maxLen))
  }

  // In any interleaving of the handlers' calls, the bytes of a hit are a response that was
  // read raw from the same backend, for the same normalized host and protocol, and stored
  // less than one TTL before.
  lemma HitSameOrigin(json: Cache.Json, run: seq<L.Action>, c: nat, who: nat -> Caller, maxLen: int, ttl: int)
    returns (i: nat, m: nat)
    requires L.After(json, run).Some? && L.Enabled(L.After(json, run).value, L.DecideGet(c))
    requires L.Reply(json, L.After(json, run).value, L.DecideGet(c)).Some?
    requires ByHandlers(run, who, maxLen, ttl)
    ensures i < m < |run| && run[i].StartSet? && run[m].StartGet? && run[m].call == c
    ensures FromBackend(who(i), L.Reply(json, L.After(json, run).value, L.DecideGet(c)).value, maxLen)
    ensures who(i).addr == who(m).addr && who(i).protocol == who(m).protocol
    ensures Router.NormalizeHost(who(i).host) == Router.NormalizeHost(who(m).host)
    ensures L.After(json, run[..i]).Some? && L.After(json, run[..m]).Some?
    ensures L.After(json, run[..m]).value.now < L.After(json, run[..i]).value.now + ttl
  {
    hide Key, Router.NormalizeHost, L.After, L.Reply, FromBackend;
    i, m := L.HitProvenance(json, run, c);
    KeyInjective(who(i).addr, who(i).host, who(i).protocol, who(m).addr, who(m).host, who(m).protocol);
  }
}
