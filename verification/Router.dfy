/** internal/mcproto/handshake.go (NormalizeHost), internal/proxy/router.go, and the
    duplicate-host check of internal/config/config.go. */
module Router {
  import opened Wrappers
  import opened Bits
  import opened Text

  type GoString = seq<byte>

  const NUL: byte := 0
  const DOT: byte := 46
  const COLON: byte := 58
  const OPEN: byte := 91
  const CLOSE: byte := 93

  // --------------------------------------------------------------------- host names

  // strings.IndexByte and strings.LastIndexByte, with the length standing for "none".
  function Index(s: GoString, b: byte): (i: nat)
    ensures i <= |s| && (i < |s| ==> s[i] == b)
    ensures forall k :: 0 <= k < i ==> s[k] != b
  {
    if s == [] || s[0] == b then 0 else 1 + Index(s[1..], b)
  }

  function LastIndex(s: GoString, b: byte): (i: int)
    ensures -1 <= i < |s| && (i >= 0 ==> s[i] == b)
    ensures forall k :: i < k < |s| ==> s[k] != b
  {
    if s == [] then -1 else if s[|s| - 1] == b then |s| - 1 else LastIndex(s[..|s| - 1], b)
  }

  // The host of a "host:port" text, as net.SplitHostPort finds it, if the text is one.
  function SplitHost(s: GoString): Option<GoString> {
    var i := LastIndex(s, COLON);
    if i < 0 then None
    else if s[0] == OPEN then
      var end := Index(s, CLOSE);
      if end + 1 != i then None
      else if OPEN in s[1..] || CLOSE in s[end + 1..] then None
      else Some(s[1..end])
    else if COLON in s[..i] || OPEN in s || CLOSE in s then None
    else Some(s[..i])
  }

  function TrimSuffix(s: GoString, b: byte): GoString {
    if s != [] && s[|s| - 1] == b then s[..|s| - 1] else s
  }

  function CutNul(s: GoString): GoString {
    s[..Index(s, NUL)]
  }

  function StripPort(s: GoString): GoString {
    match SplitHost(s)
    case Some(host) => host
    case None => if |s| >= 2 && s[0] == OPEN && s[|s| - 1] == CLOSE then s[1..|s| - 1] else s
  }

  function NormalizeHost(host: GoString): GoString {
    ToLower(TrimSuffix(StripPort(CutNul(TrimSpace(host))), DOT))
  }

  predicate NameByte(b: byte) {
    48 <= b <= 57 || 65 <= b <= 90 || 97 <= b <= 122 || b == 45 || b == 95 || b == DOT
  }

  predicate PortByte(b: byte) {
    48 <= b <= 57 || 65 <= b <= 90 || 97 <= b <= 122 || b == 45
  }

  // An ASCII DNS name not ending in a dot.
  predicate DnsName(n: GoString) {
    n != [] && (forall b <- n :: NameByte(b)) && n[|n| - 1] != DOT
  }

  predicate Spaces(s: GoString) {
    forall b <- s :: IsSpace(b)
  }

  // What clients and mod loaders put around a name: a trailing dot, a port, a suffix
  // behind a NUL byte, white space outside.
  datatype Spelling = Spelling(
    before: GoString, name: GoString, dot: bool, port: Option<GoString>, suffix: Option<GoString>, after: GoString)

  predicate WellFormed(d: Spelling) {
    && Spaces(d.before) && Spaces(d.after) && DnsName(d.name)
    && (d.port.Some? ==> forall b <- d.port.value :: PortByte(b))
  }

  function Core(d: Spelling): GoString {
    d.name + (if d.dot then [DOT] else []) + (if d.port.Some? then [COLON] + d.port.value else [])
  }

  function Spell(d: Spelling): GoString {
    d.before + (Core(d) + (if d.suffix.Some? then [NUL] + d.suffix.value else [])) + d.after
  }

  lemma {:induction false} TrimLeftSpaces(a: GoString, s: GoString)
    requires Spaces(a) && s != [] && !IsSpace(s[0])
    ensures TrimLeft(a + s) == s
  {
    if a == [] {
      assert a + s == s;
    } else {
      assert a[0] in a && (a + s)[1..] == a[1..] + s;
      TrimLeftSpaces(a[1..], s);
    }
  }

  // Trimming on the right stops at a byte that is no space.
  lemma {:induction false} TrimRightKeeps(s: GoString, t: GoString)
    requires s != [] && !IsSpace(s[|s| - 1])
    ensures s <= TrimRight(s + t) && (Spaces(t) ==> TrimRight(s + t) == s)
  {
    if t == [] {
      assert s + t == s;
    } else {
      var u := s + t;
      assert u[..|u| - 1] == s + t[..|t| - 1] && u[|u| - 1] == t[|t| - 1];
      TrimRightKeeps(s, t[..|t| - 1]);
      if Spaces(t) {
        assert t[|t| - 1] in t;
      }
    }
  }

  lemma CoreBytes(d: Spelling)
    requires WellFormed(d)
    ensures forall i :: 0 <= i < |Core(d)| ==> NameByte(Core(d)[i]) || PortByte(Core(d)[i]) || Core(d)[i] == COLON
    ensures Core(d) != [] && !IsSpace(Core(d)[0]) && !IsSpace(Core(d)[|Core(d)| - 1])
  {
    var c, n := Core(d), d.name;
    var m := |n| + if d.dot then 1 else 0;
    forall i | 0 <= i < |c| ensures NameByte(c[i]) || PortByte(c[i]) || c[i] == COLON {
      if i < |n| {
        assert c[i] == n[i] && n[i] in n;
      } else if i >= m + 1 {
        assert c[i] == d.port.value[i - m - 1] && d.port.value[i - m - 1] in d.port.value;
      }
    }
    assert NameByte(c[0]) by { assert c[0] == n[0] && n[0] in n; }
  }

  // What trimming the outer spaces leaves: the core, and behind it nothing or a NUL byte.
  lemma TrimmedSpelling(d: Spelling) returns (keep: GoString)
    requires WellFormed(d)
    ensures keep == Core(d) + if d.suffix.Some? then [NUL] else []
    ensures keep <= TrimSpace(Spell(d))
    ensures d.suffix.None? ==> TrimSpace(Spell(d)) == keep
  {
    var c := Core(d);
    CoreBytes(d);
    var rest := if d.suffix.Some? then d.suffix.value + d.after else d.after;
    keep := c + if d.suffix.Some? then [NUL] else [];
    assert Spell(d) == d.before + (keep + rest);
    TrimLeftSpaces(d.before, keep + rest);
    TrimRightKeeps(keep, rest);
  }

  lemma CutIsCore(d: Spelling)
    requires WellFormed(d)
    ensures CutNul(TrimSpace(Spell(d))) == Core(d)
  {
    var keep := TrimmedSpelling(d);
    var c, u := Core(d), TrimSpace(Spell(d));
    CoreBytes(d);
    assert forall i :: 0 <= i < |c| ==> u[i] == keep[i] == c[i] && u[i] != NUL;
    if d.suffix.Some? {
      assert u[|c|] == keep[|c|] == NUL;
    }
    var i := Index(u, NUL);
    assert i == |c|;
  }

  // Bytes of names and ports are none of those SplitHostPort looks for.
  predicate Plain(s: GoString) {
    forall i :: 0 <= i < |s| ==> s[i] != COLON && s[i] != OPEN && s[i] != CLOSE
  }

  lemma SplitPlain(host: GoString, port: GoString)
    requires Plain(host) && host != [] && Plain(port)
    ensures StripPort(host + [COLON] + port) == host
  {
    var c, m := host + [COLON] + port, |host|;
    assert c[m] == COLON && forall k :: m < k < |c| ==> c[k] == port[k - m - 1];
    assert forall k :: 0 <= k < m ==> c[k] == host[k];
    var i := LastIndex(c, COLON);
    assert i == m && c[..m] == host;
    assert forall k :: 0 <= k < |c| ==> c[k] != OPEN && c[k] != CLOSE;
    assert SplitHost(c) == Some(host);
  }

  lemma StripPlain(host: GoString)
    requires Plain(host) && host != []
    ensures StripPort(host) == host
  {
    var i := LastIndex(host, COLON);
    assert i == -1;
  }

  lemma StripIsName(d: Spelling)
    requires WellFormed(d)
    ensures TrimSuffix(StripPort(Core(d)), DOT) == d.name
  {
    hide StripPort;
    var n := d.name;
    var host := n + if d.dot then [DOT] else [];
    assert Plain(host) by {
      assert forall i :: 0 <= i < |n| ==> n[i] in n && NameByte(n[i]);
    }
    if d.port.Some? {
      var p := d.port.value;
      assert Plain(p) by {
        assert forall i :: 0 <= i < |p| ==> p[i] in p && PortByte(p[i]);
      }
      SplitPlain(host, p);
      assert Core(d) == host + [COLON] + p;
    } else {
      StripPlain(host);
      assert Core(d) == host;
    }
  }

  // Every decorated spelling of a DNS name normalizes to the lower-case name.
  lemma SpellingsNormalize(d: Spelling)
    requires WellFormed(d)
    ensures NormalizeHost(Spell(d)) == ToLower(d.name)
  {
    CutIsCore(d);
    StripIsName(d);
  }

  // That is a fixed point, so normalizing once more, as the router does, is harmless.
  lemma NormalizedIsFixed(d: Spelling)
    requires WellFormed(d)
    ensures NormalizeHost(NormalizeHost(Spell(d))) == NormalizeHost(Spell(d))
  {
    hide NormalizeHost, ToLower, Spell;
    SpellingsNormalize(d);
    LowerName(d.name);
    PlainName(ToLower(d.name));
  }

  lemma LowerName(n: GoString)
    requires DnsName(n)
    ensures DnsName(ToLower(n)) && ToLower(ToLower(n)) == ToLower(n)
  {
    var t := ToLower(n);
    forall i | 0 <= i < |t| ensures NameByte(t[i]) && (t[i] == DOT <==> n[i] == DOT) {
      assert n[i] in n;
    }
  }

  lemma PlainName(n: GoString)
    requires DnsName(n)
    ensures NormalizeHost(n) == ToLower(n)
  {
    var plain := Spelling([], n, false, None, None, []);
    assert Spell(plain) == n;
    SpellingsNormalize(plain);
  }

  lemma IndexIs(s: GoString, b: byte, i: nat)
    requires i < |s| && s[i] == b && forall k :: 0 <= k < i ==> s[k] != b
    ensures Index(s, b) == i
  {
  }

  lemma LastIndexIs(s: GoString, b: byte, i: nat)
    requires i < |s| && s[i] == b && forall k :: i < k < |s| ==> s[k] != b
    ensures LastIndex(s, b) == i
  {
  }

  lemma NotBehind(s: GoString, from: nat, c: byte)
    requires from <= |s| && forall i :: from <= i < |s| ==> s[i] != c
    ensures c !in s[from..]
  {
  }

  // Any host without colons and brackets, the empty one too, loses the port behind it.
  lemma HostPort(host: GoString, port: GoString)
    requires Plain(host) && Plain(port)
    ensures StripPort(host + [COLON] + port) == host
  {
    hide Index, LastIndex;
    var s, m := host + [COLON] + port, |host|;
    assert s[..m] == host && s[m] == COLON;
    forall i | 0 <= i < |s| && i != m ensures s[i] != COLON && s[i] != OPEN && s[i] != CLOSE {
      assert s[i] == if i < m then host[i] else port[i - m - 1];
    }
    LastIndexIs(s, COLON, m);
    assert COLON !in s[..m] && OPEN !in s && CLOSE !in s;
  }

  // A bracketed address loses its brackets, and a port behind them.
  lemma BracketedHost(host: GoString, port: GoString)
    requires OPEN !in host && CLOSE !in host && Plain(port)
    ensures StripPort([OPEN] + host + [CLOSE] + [COLON] + port) == host
  {
    hide Index, LastIndex;
    var b, m := [OPEN] + host + [CLOSE] + [COLON] + port, |host| + 1;
    assert b[1..m] == host && b[m] == CLOSE && b[m + 1] == COLON;
    forall i | 1 <= i < m ensures b[i] != CLOSE && b[i] != OPEN {
      assert b[i] == host[i - 1] && host[i - 1] in host;
    }
    forall i | m + 1 < i < |b| ensures b[i] != COLON && b[i] != OPEN && b[i] != CLOSE {
      assert b[i] == port[i - m - 2];
    }
    IndexIs(b, CLOSE, m);
    LastIndexIs(b, COLON, m + 1);
    NotBehind(b, 1, OPEN);
    NotBehind(b, m + 1, CLOSE);
  }

  lemma BareBrackets(host: GoString)
    requires CLOSE !in host
    ensures StripPort([OPEN] + host + [CLOSE]) == host
  {
    hide Index;
    var a, m := [OPEN] + host + [CLOSE], |host| + 1;
    assert a[1..m] == host && a[m] == CLOSE;
    forall i | 1 <= i < m ensures a[i] != CLOSE {
      assert a[i] == host[i - 1] && host[i - 1] in host;
    }
    IndexIs(a, CLOSE, m);
    assert LastIndex(a, COLON) < |a|;
  }

  // ------------------------------------------------------------------------ letter case

  predicate NoLetter(c: byte) {
    !(65 <= c <= 90) && !(97 <= c <= 122)
  }

  lemma FoldAt(a: GoString, b: GoString, c: byte)
    requires SameLetters(a, b) && NoLetter(c)
    ensures forall i :: 0 <= i < |a| ==> (a[i] == c <==> b[i] == c)
    ensures c in a <==> c in b
    ensures Index(a, c) == Index(b, c) && LastIndex(a, c) == LastIndex(b, c)
  {
    forall i | 0 <= i < |a| ensures a[i] == c <==> b[i] == c {
      assert SameLetter(a[i], b[i]);
    }
    var i, j := Index(a, c), Index(b, c);
    var k, l := LastIndex(a, c), LastIndex(b, c);
    assert i < |a| ==> b[i] == c && a[i] in a && b[i] in b;
    assert j < |b| ==> a[j] == c;
    assert k >= 0 ==> b[k] == c;
    assert l >= 0 ==> a[l] == c;
  }

  lemma FoldSlice(a: GoString, b: GoString, i: nat, j: nat)
    requires SameLetters(a, b) && i <= j <= |a|
    ensures SameLetters(a[i..j], b[i..j])
  {
    forall k | 0 <= k < j - i ensures SameLetter(a[i..j][k], b[i..j][k]) {
      assert SameLetter(a[i + k], b[i + k]);
    }
  }

  lemma FoldFront(a: GoString, b: GoString, i: nat, c: byte)
    requires SameLetters(a, b) && i <= |a| && NoLetter(c)
    ensures i <= |b| && SameLetters(a[..i], b[..i])
    ensures c in a[..i] <==> c in b[..i]
  {
    hide Index, LastIndex;
    FoldSlice(a, b, 0, i);
    assert a[..i] == a[0..i] && b[..i] == b[0..i];
    FoldAt(a[..i], b[..i], c);
  }

  lemma FoldTail(a: GoString, b: GoString, i: nat, c: byte)
    requires SameLetters(a, b) && i <= |a| && NoLetter(c)
    ensures |b| == |a| && (c in a[i..] <==> c in b[i..])
  {
    hide Index, LastIndex;
    FoldSlice(a, b, i, |a|);
    assert a[i..] == a[i..|a|] && b[i..] == b[i..|a|];
    FoldAt(a[i..], b[i..], c);
  }

  lemma SplitHostFolds(a: GoString, b: GoString)
    requires SameLetters(a, b)
    ensures SplitHost(a).Some? <==> SplitHost(b).Some?
    ensures SplitHost(a).Some? ==> SameLetters(SplitHost(a).value, SplitHost(b).value)
  {
    hide SameLetters, Index, LastIndex;
    assert |a| == |b| by { FoldSize(a, b); }
    FoldAt(a, b, COLON);
    FoldAt(a, b, OPEN);
    FoldAt(a, b, CLOSE);
    var i := LastIndex(a, COLON);
    if i >= 0 {
      FoldFront(a, b, i, COLON);
      FoldTail(a, b, 1, OPEN);
      var end := Index(a, CLOSE);
      if end + 1 == i && a[0] == OPEN {
        FoldTail(a, b, end + 1, CLOSE);
        assert end >= 1 by { BracketFirst(a); }
        FoldSlice(a, b, 1, end);
      }
    }
  }

  lemma FoldSize(a: GoString, b: GoString)
    requires SameLetters(a, b)
    ensures |a| == |b|
  {
  }

  lemma BracketFirst(a: GoString)
    requires a != [] && a[0] == OPEN
    ensures Index(a, CLOSE) >= 1
  {
  }

  lemma StripPortFolds(a: GoString, b: GoString)
    requires SameLetters(a, b)
    ensures SameLetters(StripPort(a), StripPort(b))
  {
    hide SameLetters, SplitHost;
    FoldSize(a, b);
    SplitHostFolds(a, b);
    FoldAt(a, b, OPEN);
    FoldAt(a, b, CLOSE);
    if |a| >= 2 {
      FoldSlice(a, b, 1, |a| - 1);
    }
  }

  // Hosts that differ in letter case only normalize to the same, and to no capitals.
  lemma HostCaseFolds(a: GoString, b: GoString)
    requires SameLetters(a, b)
    ensures NormalizeHost(a) == NormalizeHost(b) && NoCapitals(NormalizeHost(a))
  {
    hide SameLetters, NoCapitals, StripPort, TrimSpace, ToLower, Index;
    TrimSpaceFolds(a, b);
    var s, t := TrimSpace(a), TrimSpace(b);
    FoldAt(s, t, NUL);
    FoldSize(s, t);
    FoldSlice(s, t, 0, Index(s, NUL));
    assert CutNul(s) == s[0..Index(s, NUL)] && CutNul(t) == t[0..Index(s, NUL)];
    StripPortFolds(CutNul(s), CutNul(t));
    var x, y := StripPort(CutNul(s)), StripPort(CutNul(t));
    FoldAt(x, y, DOT);
    FoldSize(x, y);
    if x != [] {
      FoldSlice(x, y, 0, |x| - 1);
      assert x[0..|x| - 1] == x[..|x| - 1] && y[0..|x| - 1] == y[..|x| - 1];
    }
    CaseFolds(TrimSuffix(x, DOT), TrimSuffix(y, DOT));
    LowerBytes(TrimSuffix(x, DOT));
  }

  // Of a decorated DNS name every byte but the capitals is kept, and those become small.
  lemma SpellingBytes(d: Spelling)
    requires WellFormed(d)
    ensures var t := NormalizeHost(Spell(d));
      && |t| == |d.name|
      && forall i :: 0 <= i < |t| ==> t[i] == if 65 <= d.name[i] <= 90 then d.name[i] + 32 else d.name[i]
  {
    hide NormalizeHost, Spell;
    SpellingsNormalize(d);
    LowerBytes(d.name);
  }

  // In general it is not: of two trailing dots each pass takes one.
  lemma NotIdempotent()
    ensures NormalizeHost([97, DOT, DOT]) == [97, DOT]
    ensures NormalizeHost([97, DOT]) == [97]
  {
    var two: GoString, one: GoString := [97, DOT, DOT], [97, DOT];
    TrimSpaceFixed(two);
    TrimSpaceFixed(one);
    assert CutNul(two) == two && CutNul(one) == one;
    assert two[..2] == one && one[..1] == [97];
    assert ToLower(one) == one && ToLower([97]) == [97];
  }

  // Nothing is left on a normalized host for a pass to take: no outer space, port,
  // brackets, or trailing dot.  The first pass leaves no NUL.
  predicate Bare(n: GoString) {
    && Trimmed(n)
    && SplitHost(n).None? && !(|n| >= 2 && n[0] == OPEN && n[|n| - 1] == CLOSE)
    && (n == [] || n[|n| - 1] != DOT)
  }

  // What a pass leaves is never longer, and of the same length only if nothing was taken.
  lemma StripShorter(s: GoString)
    ensures |StripPort(s)| <= |s|
    ensures |StripPort(s)| == |s| <==> SplitHost(s).None? && !(|s| >= 2 && s[0] == OPEN && s[|s| - 1] == CLOSE)
  {
  }

  lemma StripSame(s: GoString)
    ensures |StripPort(s)| == |s| ==> StripPort(s) == s
  {
    StripShorter(s);
  }

  lemma TrimShorter(s: GoString)
    ensures |TrimSpace(s)| <= |s|
    ensures |TrimSpace(s)| == |s| <==> Trimmed(s)
    ensures Trimmed(s) ==> TrimSpace(s) == s
  {
    TrimLeftShape(s);
    TrimRightShape(TrimLeft(s));
    TrimSpaceTrims(s);
    if |TrimSpace(s)| == |s| {
      assert TrimSpace(s) == TrimLeft(s) == s;
    }
  }

  lemma CutShorter(s: GoString)
    ensures |CutNul(s)| <= |s|
    ensures |CutNul(s)| == |s| <==> NUL !in s
    ensures NUL !in s ==> CutNul(s) == s
  {
    var i := Index(s, NUL);
    assert i < |s| ==> s[i] in s;
    assert s[..|s|] == s;
  }

  lemma NoNulLeft(host: GoString)
    ensures NUL !in NormalizeHost(host)
  {
    hide SplitHost, TrimSpace;
    var c := CutNul(TrimSpace(host));
    assert forall i :: 0 <= i < |c| ==> c[i] != NUL;
    StripWithin(c);
    var t := TrimSuffix(StripPort(c), DOT);
    forall i | 0 <= i < |t| ensures ToLower(t)[i] != NUL {
      assert StripPort(c)[i] in StripPort(c) && t[i] != NUL;
    }
  }

  lemma StripWithin(s: GoString)
    ensures forall b <- StripPort(s) :: b in s
  {
  }

  lemma NormalizedSameSize(n: GoString)
    requires NUL !in n
    ensures |NormalizeHost(n)| == |n| <==> Bare(n)
  {
    hide StripPort, SplitHost, TrimSpace, ToLower, CutNul, Trimmed;
    var t := TrimSpace(n);
    var c := CutNul(t);
    TrimShorter(n);
    CutShorter(t);
    StripShorter(c);
    assert |NormalizeHost(n)| == |TrimSuffix(StripPort(c), DOT)| <= |c| <= |t| <= |n|;
    if Trimmed(n) {
      assert c == n;
      assert |StripPort(c)| == |c| ==> StripPort(c) == c by {
        StripSame(c);
      }
    }
  }

  // So the second pass of the router changes what the server's own pass left exactly if
  // that is not bare.
  lemma TwiceIffBare(host: GoString)
    ensures NormalizeHost(NormalizeHost(host)) == NormalizeHost(host) <==> Bare(NormalizeHost(host))
  {
    var n := NormalizeHost(host);
    assert ToLower(n) == n;
    NoNulLeft(host);
    NormalizedSameSize(n);
    if Bare(n) {
      TrimShorter(n);
      StripShorter(n);
      CutShorter(n);
    }
  }

  // ------------------------------------------------------------------------- routing

  datatype Backend = Backend(name: GoString, addr: GoString, statusCache: Option<bool>)

  datatype Route = Route(hosts: seq<GoString>, backend: Backend)

  function Normalized(hosts: seq<GoString>): (n: seq<GoString>)
    ensures |n| == |hosts|
    ensures forall i :: 0 <= i < |n| ==> n[i] == NormalizeHost(hosts[i])
  {
    seq(|hosts|, i requires 0 <= i < |hosts| => NormalizeHost(hosts[i]))
  }

  // All hosts of all routes, normalized, in order.
  function AllHosts(routes: seq<Route>): seq<GoString> {
    if routes == [] then [] else AllHosts(routes[..|routes| - 1]) + Normalized(routes[|routes| - 1].hosts)
  }

  ghost predicate Distinct(s: seq<GoString>) {
    forall h :: multiset(s)[h] <= 1
  }

  // What Validate demands of the hosts: none empty, none twice.
  ghost predicate Good(hosts: seq<GoString>) {
    [] !in hosts && Distinct(hosts)
  }

  ghost predicate Accepted(routes: seq<Route>) {
    Good(AllHosts(routes))
  }

  // The loop of Validate over the hosts.
  method ValidateHosts(routes: seq<Route>) returns (ok: bool)
    ensures ok <==> Accepted(routes)
  {
    hide Good, AllHosts;
    var seen: set<GoString> := {};
    ghost var all := [];
    NoHosts();
    for i := 0 to |routes|
      invariant all == AllHosts(routes[..i]) && Good(all)
      invariant forall h :: h in seen <==> h in all
    {
      var more;
      more, seen := ValidateRoute(routes[i].hosts, seen, all);
      AllHostsMore(routes, i);
      all := all + Normalized(routes[i].hosts);
      if !more {
        if Accepted(routes) {
          AcceptedPrefix(routes, i + 1);
        }
        return false;
      }
    }
    assert routes[..|routes|] == routes;
    return true;
  }

  lemma NoHosts()
    ensures AllHosts([]) == [] && Good([])
  {
  }

  lemma AllHostsMore(routes: seq<Route>, i: nat)
    requires i < |routes|
    ensures AllHosts(routes[..i + 1]) == AllHosts(routes[..i]) + Normalized(routes[i].hosts)
  {
    assert routes[..i + 1][..i] == routes[..i];
  }

  // One turn of that loop: the hosts of one route against those seen before.
  method ValidateRoute(hosts: seq<GoString>, seen0: set<GoString>, ghost all: seq<GoString>)
    returns (ok: bool, seen: set<GoString>)
    requires Good(all) && forall h :: h in seen0 <==> h in all
    ensures ok <==> Good(all + Normalized(hosts))
    ensures ok ==> forall h :: h in seen <==> h in all + Normalized(hosts)
  {
    hide NormalizeHost, Good;
    seen := seen0;
    ghost var names, now := Normalized(hosts), all;
    assert all + names[..0] == all;
    for i := 0 to |hosts|
      invariant now == all + names[..i] && Good(now)
      invariant forall h :: h in seen <==> h in now
    {
      var normalized := NormalizeHost(hosts[i]);
      GoodMore(now, normalized);
      now := now + [normalized];
      assert now == all + names[..i + 1];
      if normalized == [] || normalized in seen {
        assert all + names == now + names[i + 1..];
        BadPrefix(now, names[i + 1..]);
        return false, seen;
      }
      seen := seen + {normalized};
    }
    assert names[..|hosts|] == names;
    return true, seen;
  }

  lemma GoodMore(s: seq<GoString>, h: GoString)
    requires Good(s)
    ensures Good(s + [h]) <==> h != [] && h !in s
  {
    assert h in s ==> multiset(s + [h])[h] >= 2;
    assert h == [] ==> (s + [h])[|s|] == [];
  }

  lemma BadPrefix(s: seq<GoString>, t: seq<GoString>)
    ensures Good(s + t) ==> Good(s)
  {
    assert forall h :: multiset(s + t)[h] >= multiset(s)[h];
    assert [] in s ==> [] in s + t;
  }

  lemma SharedHost(s: seq<GoString>, t: seq<GoString>, h: GoString)
    requires h in s && h in t
    ensures !Good(s + t)
  {
    assert multiset(s + t)[h] == multiset(s)[h] + multiset(t)[h] >= 2;
  }

  lemma {:induction false} AllHostsConcat(a: seq<Route>, b: seq<Route>)
    ensures AllHosts(a + b) == AllHosts(a) + AllHosts(b)
  {
    hide NormalizeHost;
    if b == [] {
      assert a + b == a && AllHosts(a) + [] == AllHosts(a);
    } else {
      var n := |b| - 1;
      AllHostsConcat(a, b[..n]);
      assert (a + b)[..|a + b| - 1] == a + b[..n];
      assert (AllHosts(a) + AllHosts(b[..n])) + Normalized(b[n].hosts)
          == AllHosts(a) + (AllHosts(b[..n]) + Normalized(b[n].hosts));
    }
  }

  lemma AcceptedPrefix(routes: seq<Route>, n: nat)
    requires n <= |routes| && Accepted(routes)
    ensures Accepted(routes[..n])
  {
    assert routes == routes[..n] + routes[n..];
    AllHostsConcat(routes[..n], routes[n..]);
    BadPrefix(AllHosts(routes[..n]), AllHosts(routes[n..]));
  }

  // The table NewStaticRouter builds: later hosts overwrite earlier ones.
  function AddAll(t: map<GoString, Backend>, hosts: seq<GoString>, b: Backend): map<GoString, Backend> {
    if hosts == [] then t
    else
      var u := AddAll(t, hosts[..|hosts| - 1], b);
      var h := NormalizeHost(hosts[|hosts| - 1]);
      if h != [] then u[h := b] else u
  }

  function Table(routes: seq<Route>): map<GoString, Backend> {
    if routes == [] then map[]
    else AddAll(Table(routes[..|routes| - 1]), routes[|routes| - 1].hosts, routes[|routes| - 1].backend)
  }

  function Resolution(t: map<GoString, Backend>, def: Option<Backend>, host: GoString): Option<Backend> {
    var h := NormalizeHost(host);
    if h in t then Some(t[h]) else def
  }

  // A route takes over all its hosts, whoever had them, and no others.
  lemma LaterRouteWins(routes: seq<Route>, r: Route, h: GoString)
    ensures var t := Table(routes + [r]);
      if h != [] && h in Normalized(r.hosts) then h in t && t[h] == r.backend
      else (h in t <==> h in Table(routes)) && (h in t ==> t[h] == Table(routes)[h])
  {
    hide NormalizeHost;
    assert (routes + [r])[..|routes|] == routes;
    AddedHosts(Table(routes), r.hosts, r.backend, h);
  }

  lemma {:induction false} AddedHosts(t: map<GoString, Backend>, hosts: seq<GoString>, b: Backend, h: GoString)
    ensures var u := AddAll(t, hosts, b);
      if h != [] && h in Normalized(hosts) then h in u && u[h] == b
      else (h in u <==> h in t) && (h in u ==> u[h] == t[h])
  {
    hide NormalizeHost;
    if hosts != [] {
      var n := |hosts| - 1;
      AddedHosts(t, hosts[..n], b, h);
      assert Normalized(hosts) == Normalized(hosts[..n]) + [NormalizeHost(hosts[n])];
    }
  }

  // The inner loop of NewStaticRouter.
  method AddRoute(t0: map<GoString, Backend>, hosts: seq<GoString>, backend: Backend)
    returns (t: map<GoString, Backend>)
    ensures t == AddAll(t0, hosts, backend)
  {
    hide NormalizeHost;
    t := t0;
    for j := 0 to |hosts|
      invariant t == AddAll(t0, hosts[..j], backend)
    {
      var normalized := NormalizeHost(hosts[j]);
      if normalized != [] {
        t := t[normalized := backend];
      }
      assert hosts[..j + 1][..j] == hosts[..j];
    }
    assert hosts[..|hosts|] == hosts;
  }

  class StaticRouter {
    const def: Option<Backend>
    const routes: map<GoString, Backend>

    constructor (routes: seq<Route>, def: Option<Backend>)
      ensures this.def == def && this.routes == Table(routes)
    {
      var t: map<GoString, Backend> := map[];
      for i := 0 to |routes|
        invariant t == Table(routes[..i])
      {
        t := AddRoute(t, routes[i].hosts, routes[i].backend);
        assert routes[..i + 1][..i] == routes[..i];
      }
      assert routes[..|routes|] == routes;
      this.routes := t;
      this.def := def;
    }

    method Resolve(host: GoString) returns (b: Option<Backend>)
      ensures b == Resolution(routes, def, host)
    {
      var normalized := NormalizeHost(host);
      if normalized in routes {
        return Some(routes[normalized]);
      }
      return def;
    }
  }

  // --------------------------------------------------- the table against a linear scan

  predicate Serves(r: Route, h: GoString) {
    h in Normalized(r.hosts)
  }

  // The first route that lists the host, the reference for what routing should do.
  function Scan(routes: seq<Route>, h: GoString): Option<Backend> {
    if routes == [] then None
    else if Serves(routes[0], h) then Some(routes[0].backend)
    else Scan(routes[1..], h)
  }

  lemma {:induction false} AddAllLookup(t: map<GoString, Backend>, hosts: seq<GoString>, b: Backend, h: GoString)
    requires h != []
    ensures h in AddAll(t, hosts, b) <==> h in t || h in Normalized(hosts)
    ensures h in Normalized(hosts) ==> AddAll(t, hosts, b)[h] == b
    ensures h in t && h !in Normalized(hosts) ==> AddAll(t, hosts, b)[h] == t[h]
  {
    hide NormalizeHost;
    if hosts != [] {
      var n := |hosts| - 1;
      AddAllLookup(t, hosts[..n], b, h);
      assert Normalized(hosts) == Normalized(hosts[..n]) + [NormalizeHost(hosts[n])];
    }
  }

  // In an accepted configuration a host belongs to one route at most, so it does not
  // matter which of them is found.
  lemma {:induction false} TableLookup(routes: seq<Route>, h: GoString)
    requires Accepted(routes) && h != []
    ensures h in Table(routes) <==> h in AllHosts(routes)
    ensures forall r :: r in routes && Serves(r, h) ==> h in Table(routes) && Table(routes)[h] == r.backend
  {
    hide NormalizeHost, Good, Normalized;
    if routes != [] {
      var n := |routes| - 1;
      var front, last := routes[..n], routes[n];
      assert routes == front + [last];
      AcceptedPrefix(routes, n);
      TableLookup(front, h);
      AddAllLookup(Table(front), last.hosts, last.backend, h);
      forall r | r in front && Serves(r, h) ensures !Serves(last, h) {
        HostIn(front, r, h);
        if Serves(last, h) {
          SharedHost(AllHosts(front), Normalized(last.hosts), h);
        }
      }
    }
  }

  lemma {:induction false} HostIn(routes: seq<Route>, r: Route, h: GoString)
    requires r in routes && Serves(r, h)
    ensures h in AllHosts(routes)
  {
    hide Normalized, NormalizeHost;
    var n := |routes| - 1;
    if r != routes[n] {
      assert r in routes[..n];
      HostIn(routes[..n], r, h);
    } else {
      assert h in Normalized(routes[n].hosts);
    }
  }

  lemma {:induction false} ScanFinds(routes: seq<Route>, h: GoString)
    ensures Scan(routes, h) == None <==> h !in AllHosts(routes)
    ensures Scan(routes, h).Some? ==> exists r :: r in routes && Serves(r, h) && Scan(routes, h) == Some(r.backend)
  {
    if routes != [] {
      ScanFinds(routes[1..], h);
      assert routes == [routes[0]] + routes[1..];
      AllHostsConcat([routes[0]], routes[1..]);
      assert [routes[0]][..0] == [] && AllHosts([routes[0]]) == [] + Normalized(routes[0].hosts);
      if Serves(routes[0], h) {
        assert routes[0] in routes;
      } else if Scan(routes[1..], h).Some? {
        var r :| r in routes[1..] && Serves(r, h) && Scan(routes[1..], h) == Some(r.backend);
        assert r in routes;
      }
    }
  }

  // The map router agrees with the linear scan.
  lemma RouterIsScan(routes: seq<Route>, def: Option<Backend>, host: GoString)
    requires Accepted(routes)
    ensures Resolution(Table(routes), def, host)
      == var s := Scan(routes, NormalizeHost(host)); if s.Some? then s else def
  {
    var h := NormalizeHost(host);
    ScanFinds(routes, h);
    if h == [] {
      NoEmptyKey(routes);
    } else {
      TableLookup(routes, h);
    }
  }

  lemma {:induction false} NoEmptyKey(routes: seq<Route>)
    ensures [] !in Table(routes)
  {
    if routes != [] {
      NoEmptyKey(routes[..|routes| - 1]);
      NoEmptyKeyAdded(Table(routes[..|routes| - 1]), routes[|routes| - 1].hosts, routes[|routes| - 1].backend);
    }
  }

  lemma {:induction false} NoEmptyKeyAdded(t: map<GoString, Backend>, hosts: seq<GoString>, b: Backend)
    requires [] !in t
    ensures [] !in AddAll(t, hosts, b)
  {
    if hosts != [] {
      NoEmptyKeyAdded(t, hosts[..|hosts| - 1], b);
    }
  }

  // A configured DNS name, spelled in any letter case and decorated in any way, reaches
  // its own backend.
  lemma ConfiguredHostsReachable(routes: seq<Route>, def: Option<Backend>, r: Route, configured: GoString, d: Spelling)
    requires Accepted(routes) && r in routes && configured in r.hosts && DnsName(configured)
    requires WellFormed(d) && SameLetters(d.name, configured)
    ensures Resolution(Table(routes), def, Spell(d)) == Some(r.backend)
    ensures Resolution(Table(routes), def, NormalizeHost(Spell(d))) == Some(r.backend)
  {
    hide NormalizeHost, Resolution, Table, Accepted, SameLetters, ToLower;
    CaseFolds(d.name, configured);
    PlainName(configured);
    var i :| 0 <= i < |r.hosts| && r.hosts[i] == configured;
    assert Normalized(r.hosts)[i] == ToLower(d.name);
    NormalizedHostsReachable(routes, def, r, d);
  }

  lemma NormalizedHostsReachable(routes: seq<Route>, def: Option<Backend>, r: Route, d: Spelling)
    requires Accepted(routes) && r in routes && WellFormed(d) && ToLower(d.name) in Normalized(r.hosts)
    ensures Resolution(Table(routes), def, Spell(d)) == Some(r.backend)
    ensures Resolution(Table(routes), def, NormalizeHost(Spell(d))) == Some(r.backend)
  {
    SpellingsNormalize(d);
    NormalizedIsFixed(d);
    TableLookup(routes, ToLower(d.name));
    assert Serves(r, ToLower(d.name));
  }

  // ----------------------------------------------------------- the order of the routes

  lemma {:induction false} HostCounts(a: seq<Route>, b: seq<Route>, h: GoString)
    requires multiset(a) == multiset(b)
    ensures multiset(AllHosts(a))[h] == multiset(AllHosts(b))[h]
    decreases |a|
  {
    hide AllHosts;
    if a == [] {
      assert |multiset(b)| == 0;
    } else {
      var r, front := a[|a| - 1], a[..|a| - 1];
      assert a == front + [r];
      assert r in multiset(b);
      var k :| 0 <= k < |b| && b[k] == r;
      var b1, b2 := b[..k], b[k + 1..];
      assert b == b1 + [r] + b2;
      SamePermuted(front, b1, b2, r);
      HostCounts(front, b1 + b2, h);
      AllHostsConcat(b1, b2);
      AllHostsConcat(b1, [r]);
      AllHostsConcat(b1 + [r], b2);
      AllHostsConcat(front, [r]);
    }
  }

  lemma SamePermuted(front: seq<Route>, b1: seq<Route>, b2: seq<Route>, r: Route)
    requires multiset(front + [r]) == multiset(b1 + [r] + b2)
    ensures multiset(front) == multiset(b1 + b2)
  {
    assert multiset(front + [r]) == multiset(front) + multiset{r};
    assert multiset(b1 + [r] + b2) == multiset(b1 + b2) + multiset{r};
    assert multiset(front) == (multiset(front) + multiset{r}) - multiset{r};
    assert multiset(b1 + b2) == (multiset(b1 + b2) + multiset{r}) - multiset{r};
  }

  lemma PermutedAccepted(a: seq<Route>, b: seq<Route>)
    requires Accepted(a) && multiset(a) == multiset(b)
    ensures Accepted(b)
  {
    hide AllHosts;
    forall h ensures multiset(AllHosts(a))[h] == multiset(AllHosts(b))[h] {
      HostCounts(a, b, h);
    }
    assert multiset(AllHosts(a))[[]] == 0;
    assert multiset(AllHosts(b))[[]] == 0;
  }

  // Permuting the routes changes neither what Validate accepts nor where a host goes.
  lemma OrderIrrelevant(a: seq<Route>, b: seq<Route>, def: Option<Backend>, host: GoString)
    requires Accepted(a) && multiset(a) == multiset(b)
    ensures Accepted(b)
    ensures Resolution(Table(a), def, host) == Resolution(Table(b), def, host)
  {
    hide NormalizeHost, AllHosts, Table, Scan, Good, Normalized;
    var h := NormalizeHost(host);
    PermutedAccepted(a, b);
    HostCounts(a, b, h);
    if h == [] {
      NoEmptyKey(a);
      NoEmptyKey(b);
    } else {
      ScanFinds(a, h);
      TableLookup(a, h);
      TableLookup(b, h);
      assert h in AllHosts(a) <==> h in multiset(AllHosts(a));
      assert h in AllHosts(b) <==> h in multiset(AllHosts(b));
      if h in Table(a) {
        var r :| r in a && Serves(r, h) && Scan(a, h) == Some(r.backend);
        assert r in multiset(b);
      }
    }
  }
}
