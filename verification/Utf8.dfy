/** Go strings as byte sequences: UTF-8 (section 3 of RFC 3629) and the length of a
    string in UTF-16 code units (section 2.1 of RFC 2781), which is what the protocol's
    length limits count. */
module Utf8 {
  import opened Bits

  predicate Tail(b: byte) {
    0x80 <= b < 0xC0
  }

  // The size of the well-formed UTF-8 sequence at the front, 0 if there is none.
  function RuneSize(s: seq<byte>): (n: nat)
    requires s != []
    ensures n <= |s| && n <= 4
  {
    var b := s[0];
    if b < 0x80 then 1
    else if 0xC2 <= b < 0xE0 then
      if |s| >= 2 && Tail(s[1]) then 2 else 0
    else if 0xE0 <= b < 0xF0 then
      if |s| >= 3 && Tail(s[1]) && Tail(s[2]) && (b == 0xE0 ==> s[1] >= 0xA0) && (b == 0xED ==> s[1] < 0xA0)
      then 3 else 0
    else if 0xF0 <= b < 0xF5 then
      if |s| >= 4 && Tail(s[1]) && Tail(s[2]) && Tail(s[3])
         && (b == 0xF0 ==> s[1] >= 0x90) && (b == 0xF4 ==> s[1] < 0x90)
      then 4 else 0
    else 0
  }

  // utf8.Valid
  predicate Valid(s: seq<byte>) {
    s == [] || (RuneSize(s) > 0 && Valid(s[RuneSize(s)..]))
  }

  // The payload bits of one byte of a sequence.
  function Carried(s: seq<byte>, i: nat, mark: byte): nat
    requires i < |s| && mark <= s[i]
  {
    s[i] - mark
  }

  // The rune a `range` over a string yields at its front, and the bytes it takes: a
  // malformed byte counts as one replacement character.
  function RuneValue(s: seq<byte>): nat
    requires s != []
  {
    match RuneSize(s)
    case 1 => s[0]
    case 2 => Carried(s, 0, 0xC0) * 0x40 + Carried(s, 1, 0x80)
    case 3 => Carried(s, 0, 0xE0) * 0x1000 + Carried(s, 1, 0x80) * 0x40 + Carried(s, 2, 0x80)
    case 4 =>
      Carried(s, 0, 0xF0) * 0x4_0000 + Carried(s, 1, 0x80) * 0x1000 + Carried(s, 2, 0x80) * 0x40 + Carried(s, 3, 0x80)
    case _ => 0xFFFD
  }

  function RuneWidth(s: seq<byte>): (n: nat)
    requires s != []
    ensures 1 <= n <= |s|
  {
    if RuneSize(s) == 0 then 1 else RuneSize(s)
  }

  function Runes(s: seq<byte>): seq<nat> {
    if s == [] then [] else [RuneValue(s)] + Runes(s[RuneWidth(s)..])
  }

  function RuneUnits(r: nat): nat {
    if r > 0xFFFF then 2 else 1
  }

  function UnitSum(rs: seq<nat>): nat {
    if rs == [] then 0 else RuneUnits(rs[0]) + UnitSum(rs[1..])
  }

  // The length of a string in UTF-16 code units.
  function Units(s: seq<byte>): nat {
    UnitSum(Runes(s))
  }

  method Utf16CodeUnits(value: seq<byte>) returns (units: nat)
    ensures units == Units(value)
  {
    units := 0;
    var i := 0;
    while i < |value|
      invariant i <= |value|
      invariant units + Units(value[i..]) == Units(value)
    {
      var rest := value[i..];
      var r := RuneValue(rest);
      assert Runes(rest) == [r] + Runes(rest[RuneWidth(rest)..]);
      assert rest[RuneWidth(rest)..] == value[i + RuneWidth(rest)..];
      if r > 0xFFFF {
        units := units + 2;
      } else {
        units := units + 1;
      }
      i := i + RuneWidth(rest);
    }
  }

  // ------------------------------------------------------- the standard's own direction

  // Unicode scalar values, and their UTF-8 form by the table of RFC 3629.
  predicate Scalar(r: nat) {
    r < 0xD800 || 0xE000 <= r < 0x11_0000
  }

  function EncodeRune(r: nat): (s: seq<byte>)
    requires Scalar(r)
    ensures 1 <= |s| <= 4
  {
    var q := r / 0x40;
    var p := q / 0x40;
    if r < 0x80 then [r]
    else if r < 0x800 then [0xC0 + q, 0x80 + r % 0x40]
    else if r < 0x1_0000 then [0xE0 + p, 0x80 + q % 0x40, 0x80 + r % 0x40]
    else [0xF0 + p / 0x40, 0x80 + p % 0x40, 0x80 + q % 0x40, 0x80 + r % 0x40]
  }

  predicate Scalars(rs: seq<nat>) {
    forall r <- rs :: Scalar(r)
  }

  function EncodeRunes(rs: seq<nat>): seq<byte>
    requires Scalars(rs)
  {
    if rs == [] then [] else EncodeRune(rs[0]) + EncodeRunes(rs[1..])
  }

  lemma RuneSizeLocal(s: seq<byte>, rest: seq<byte>)
    requires s != [] && RuneSize(s) > 0
    ensures RuneSize(s + rest) == RuneSize(s) && RuneValue(s + rest) == RuneValue(s)
  {
  }

  lemma RuneRoundTrip(r: nat)
    requires Scalar(r)
    ensures RuneSize(EncodeRune(r)) == |EncodeRune(r)| && RuneValue(EncodeRune(r)) == r
  {
    var e := EncodeRune(r);
    if 0x80 <= r < 0x800 {
      assert e[0] < 0xE0 && RuneSize(e) == 2;
    } else if 0x800 <= r < 0x1_0000 {
      assert e[0] < 0xF0 && RuneSize(e) == 3;
    } else if 0x1_0000 <= r {
      FourByteRune(r, e);
    }
  }

  lemma FourByteRune(r: nat, e: seq<byte>)
    requires Scalar(r) && r >= 0x1_0000 && e == EncodeRune(r)
    ensures RuneSize(e) == 4 && RuneValue(e) == r
  {
    assert e[0] == 0xF0 ==> e[1] >= 0x90;
    assert e[0] == 0xF4 ==> e[1] < 0x90;
    assert RuneSize(e) == 4;
  }

  // A number given by its base-64 digits has those digits.
  lemma Digits64(r: nat, high: nat, low: nat)
    requires r == high * 0x40 + low && low < 0x40
    ensures r / 0x40 == high && r % 0x40 == low
  {
  }

  lemma RuneBack(s: seq<byte>)
    requires s != [] && RuneSize(s) > 0
    ensures Scalar(RuneValue(s)) && EncodeRune(RuneValue(s)) == s[..RuneSize(s)]
  {
    var n, r := RuneSize(s), RuneValue(s);
    if n == 2 {
      Digits64(r, Carried(s, 0, 0xC0), Carried(s, 1, 0x80));
    } else if n == 3 {
      RuneBackThree(s);
    } else if n == 4 {
      RuneBackFour(s);
    }
  }

  lemma RuneBackThree(s: seq<byte>)
    requires s != [] && RuneSize(s) == 3
    ensures Scalar(RuneValue(s)) && EncodeRune(RuneValue(s)) == s[..3]
  {
    var a, b, c := Carried(s, 0, 0xE0), Carried(s, 1, 0x80), Carried(s, 2, 0x80);
    Digits64(RuneValue(s), a * 0x40 + b, c);
    Digits64(a * 0x40 + b, a, b);
  }

  lemma RuneBackFour(s: seq<byte>)
    requires s != [] && RuneSize(s) == 4
    ensures Scalar(RuneValue(s)) && EncodeRune(RuneValue(s)) == s[..4]
  {
    var a, b, c, d := Carried(s, 0, 0xF0), Carried(s, 1, 0x80), Carried(s, 2, 0x80), Carried(s, 3, 0x80);
    Digits64(RuneValue(s), a * 0x1000 + b * 0x40 + c, d);
    Digits64(a * 0x1000 + b * 0x40 + c, a * 0x40 + b, c);
    Digits64(a * 0x40 + b, a, b);
  }

  // The valid strings are the encodings of the sequences of scalar values, one for one.
  lemma {:induction false} ValidEncode(rs: seq<nat>)
    requires Scalars(rs)
    ensures Valid(EncodeRunes(rs)) && Runes(EncodeRunes(rs)) == rs
  {
    if rs != [] {
      var e, t := EncodeRune(rs[0]), EncodeRunes(rs[1..]);
      RuneRoundTrip(rs[0]);
      RuneSizeLocal(e, t);
      assert (e + t)[|e|..] == t;
      ValidEncode(rs[1..]);
    }
  }

  lemma {:induction false} ValidDecode(s: seq<byte>)
    requires Valid(s)
    ensures Scalars(Runes(s)) && EncodeRunes(Runes(s)) == s
  {
    if s != [] {
      hide RuneSize, RuneValue, EncodeRune;
      var tail := s[RuneSize(s)..];
      RuneBack(s);
      ValidDecode(tail);
      EncodeCons(RuneValue(s), Runes(tail));
      assert Runes(s) == [RuneValue(s)] + Runes(tail);
    }
  }

  lemma EncodeCons(r: nat, rs: seq<nat>)
    requires Scalar(r) && Scalars(rs)
    ensures Scalars([r] + rs) && EncodeRunes([r] + rs) == EncodeRune(r) + EncodeRunes(rs)
  {
    assert ([r] + rs)[1..] == rs;
  }

  // A valid string has at most three bytes to a UTF-16 code unit.
  lemma {:induction false} BytesPerUnit(s: seq<byte>)
    requires Valid(s)
    ensures |s| <= 3 * Units(s)
  {
    if s != [] {
      var n := RuneSize(s);
      BytesPerUnit(s[n..]);
      assert Runes(s)[1..] == Runes(s[n..]);
      assert n == 4 ==> RuneValue(s) > 0xFFFF;
    }
  }

  // Of an encoded text each scalar value counts once, and once more above 0xFFFF.
  lemma {:induction false} UnitsAre(rs: seq<nat>)
    requires Scalars(rs)
    ensures Units(EncodeRunes(rs)) == |rs| + |set i: nat | i < |rs| && rs[i] > 0xFFFF|
  {
    ValidEncode(rs);
    SumIsCount(rs);
  }

  lemma {:induction false} SumIsCount(rs: seq<nat>)
    ensures UnitSum(rs) == |rs| + |set i: nat | i < |rs| && rs[i] > 0xFFFF|
  {
    var wide := set i: nat | i < |rs| && rs[i] > 0xFFFF;
    if rs == [] {
      assert wide == {};
    } else {
      var n := |rs| - 1;
      var before := set i: nat | i < n && rs[..n][i] > 0xFFFF;
      SumIsCount(rs[..n]);
      assert wide == if rs[n] > 0xFFFF then before + {n} else before;
      SumMore(rs[..n], rs[n]);
      assert rs == rs[..n] + [rs[n]];
    }
  }

  lemma {:induction false} SumMore(rs: seq<nat>, r: nat)
    ensures UnitSum(rs + [r]) == UnitSum(rs) + if r > 0xFFFF then 2 else 1
  {
    if rs == [] {
      assert rs + [r] == [r];
    } else {
      SumMore(rs[1..], r);
      assert (rs + [r])[1..] == rs[1..] + [r];
    }
  }
}
