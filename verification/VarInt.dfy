/** internal/mcproto/varint.go: the 32-bit VarInt of the Minecraft protocol. */
module VarInt {
  import opened Wrappers
  import opened Bits
  import opened Streams

  const MAX_VARINT_BYTES: nat := 5

  datatype VarIntError = Stream(io: IoError) | TooLong

  // What reading a VarInt from the front of a byte sequence yields: a value, or an
  // error; in both cases the number of bytes consumed.
  datatype Outcome = Value(v: int32, len: nat) | Failed(err: VarIntError, consumed: nat)

  // The number of leading bytes whose top bit is set.
  function Continued(s: seq<byte>): (n: nat)
    ensures n <= |s|
    ensures forall i :: 0 <= i < n ==> s[i] >= 128
    ensures n < |s| ==> s[n] < 128
  {
    if s == [] || s[0] < 128 then 0 else 1 + Continued(s[1..])
  }

  // The 7-bit groups of `s`, least significant first, as one unbounded number.
  function GroupSum(s: seq<byte>): nat {
    if s == [] then 0 else s[0] % 128 + 128 * GroupSum(s[1..])
  }

  function Decode(s: seq<byte>): (o: Outcome)
    ensures o.Value? ==> 1 <= o.len <= |s| && o.len <= MAX_VARINT_BYTES
  {
    var n := Continued(s);
    if n < MAX_VARINT_BYTES then
      if n < |s| then Value(ToInt32(GroupSum(s[..n + 1]) % TWO32), n + 1)
      else Failed(Stream(EOF), n)
    else if |s| > MAX_VARINT_BYTES then Failed(TooLong, MAX_VARINT_BYTES + 1)
    else Failed(Stream(EOF), MAX_VARINT_BYTES)
  }

  function EncodeUnsigned(u: nat): (s: seq<byte>)
    ensures |s| >= 1
  {
    if u < 128 then [u] else [u % 128 + 128] + EncodeUnsigned(u / 128)
  }

  function Encode(v: int32): seq<byte> {
    EncodeUnsigned(ToUint32(v))
  }

  // ---------------------------------------------------------------- the decoding loop

  lemma {:induction false} GroupSumAppend(s: seq<byte>, b: byte)
    ensures GroupSum(s + [b]) == GroupSum(s) + (b % 128) * Pow2(7 * |s|)
  {
    if s != [] {
      GroupSumAppend(s[1..], b);
      assert (s + [b])[1..] == s[1..] + [b];
      Pow2Seven(|s| - 1);
      assert 7 * (|s| - 1) + 7 == 7 * |s|;
      var p := Pow2(7 * (|s| - 1));
      assert 128 * ((b % 128) * p) == (b % 128) * (128 * p);
    } else {
      assert (s + [b])[1..] == [];
    }
  }

  lemma Pow2Seven(k: nat)
    ensures Pow2(7 * k + 7) == 128 * Pow2(7 * k)
  {
    var n := 7 * k;
    assert Pow2(n + 7) == 2 * Pow2(n + 6) == 4 * Pow2(n + 5) == 8 * Pow2(n + 4);
    assert Pow2(n + 4) == 2 * Pow2(n + 3) == 4 * Pow2(n + 2) == 8 * Pow2(n + 1) == 16 * Pow2(n);
  }

  lemma {:induction false} GroupSumBound(s: seq<byte>)
    ensures GroupSum(s) < Pow2(7 * |s|)
  {
    if s != [] {
      GroupSumBound(s[1..]);
      Pow2Seven(|s| - 1);
      assert 7 * (|s| - 1) + 7 == 7 * |s|;
    }
  }

  lemma Pow2Facts()
    ensures Pow2(0) == 1
    ensures Pow2(7) == 128
    ensures Pow2(14) == 0x4000
    ensures Pow2(21) == 0x20_0000
    ensures Pow2(28) == 0x1000_0000
    ensures Pow2(35) == 0x8_0000_0000
  {
    Pow2Seven(0);
    Pow2Seven(1);
    Pow2Seven(2);
    Pow2Seven(3);
    Pow2Seven(4);
  }

  // What is left of a group after the shift: a fifth group keeps its low four bits.
  lemma ShiftGroup(g: nat, k: nat)
    requires g < 128 && k < MAX_VARINT_BYTES
    ensures Shl32(g, 7 * k) == (if k == 4 then g % 16 else g) * Pow2(7 * k)
  {
    hide Pow2;
    Pow2Facts();
    var p := Pow2(7 * k);
    if k == 4 {
      DropHigh(g);
    } else {
      assert p <= 0x20_0000;
      assert g * p <= 127 * p;
      SmallRemainder(g * p);
    }
  }

  lemma DropHigh(g: nat)
    requires g < 128
    ensures g * 0x1000_0000 % TWO32 == g % 16 * 0x1000_0000
  {
    DivModUnique(g * 0x1000_0000, TWO32, g / 16, g % 16 * 0x1000_0000);
  }

  lemma FourGroupsFit(s: seq<byte>)
    requires |s| < MAX_VARINT_BYTES
    ensures GroupSum(s) < Pow2(7 * |s|) <= 0x1000_0000
  {
    GroupSumBound(s);
    Pow2Facts();
    if |s| == 0 {
    } else if |s| == 1 {
    } else if |s| == 2 {
    } else if |s| == 3 {
    }
  }

  lemma LowSeven(b: byte)
    ensures And(b, 127) == b % 128
  {
    Pow2Facts();
    MaskIsRemainder(b, 7);
  }

  // One turn of the decoding loop: or-ing the shifted group into the 32-bit result adds
  // it, and what a fifth group has above bit 31 is lost.
  lemma OrGroup(raw: seq<byte>, b: byte)
    requires |raw| < MAX_VARINT_BYTES
    ensures Or(GroupSum(raw) % TWO32, Shl32(b % 128, 7 * |raw|)) == GroupSum(raw + [b]) % TWO32
  {
    var g, low, p := b % 128, GroupSum(raw), Pow2(7 * |raw|);
    FourGroupsFit(raw);
    SmallRemainder(low);
    ShiftGroup(g, |raw|);
    if |raw| == 4 {
      OrDisjoint(low, g % 16, 7 * |raw|);
      FifthSum(raw, b, p);
    } else {
      OrDisjoint(low, g, 7 * |raw|);
      EarlySum(raw, b, p);
    }
  }

  lemma EarlySum(raw: seq<byte>, b: byte, p: nat)
    requires |raw| < 4 && p == Pow2(7 * |raw|)
    ensures GroupSum(raw) + b % 128 * p == GroupSum(raw + [b]) % TWO32
  {
    GroupSumAppend(raw, b);
    FourGroupsFit(raw + [b]);
    SmallRemainder(GroupSum(raw + [b]));
  }

  lemma FifthSum(raw: seq<byte>, b: byte, p: nat)
    requires |raw| == 4 && p == Pow2(7 * |raw|)
    ensures GroupSum(raw) + b % 128 % 16 * p == GroupSum(raw + [b]) % TWO32
  {
    GroupSumAppend(raw, b);
    FourGroupsFit(raw);
    assert p == 0x1000_0000 by { Pow2Facts(); }
    FifthGroup(GroupSum(raw), b % 128, p);
  }

  lemma SmallRemainder(x: nat)
    requires x < TWO32
    ensures x % TWO32 == x
  {
  }

  lemma FifthGroup(low: nat, g: nat, p: nat)
    requires low < p == 0x1000_0000 && g < 128
    ensures low + (g % 16) * p == (low + g * p) % TWO32
  {
    assert g * 0x1000_0000 == (g / 16) * TWO32 + (g % 16) * 0x1000_0000;
  }

  lemma NoGroups()
    ensures GroupSum([]) % TWO32 == 0
  {
  }

  // How the loop's three exits sit in `Decode`: `raw` is what was read from `s` so far.
  lemma DecodeExits(s: seq<byte>, raw: seq<byte>)
    requires raw <= s && |raw| <= MAX_VARINT_BYTES + 1
    requires forall i :: 0 <= i < |raw| - 1 ==> raw[i] >= 128
    ensures |raw| == |s| <= MAX_VARINT_BYTES && (raw == [] || raw[|raw| - 1] >= 128)
      ==> Decode(s) == Failed(Stream(EOF), |raw|)
    ensures 0 < |raw| <= MAX_VARINT_BYTES && raw[|raw| - 1] < 128
      ==> Decode(s) == Value(ToInt32(GroupSum(raw) % TWO32), |raw|)
    ensures |raw| == MAX_VARINT_BYTES + 1 ==> Decode(s) == Failed(TooLong, |raw|)
  {
    assert forall i :: 0 <= i < |raw| ==> s[i] == raw[i];
    assert s[..|raw|] == raw;
  }

  // How VarInts come off a stream.  Besides the outcome the bytes call for, a connection
  // may break.
  method ReadVarInt(r: Reader) returns (res: Result<int32, VarIntError>, raw: seq<byte>)
    requires r.Valid()
    modifies r`pos
    ensures r.Valid() && r.pos == old(r.pos) + |raw|
    ensures raw == r.data[old(r.pos)..r.pos]
    ensures res.Ok? ==> Decode(old(r.Rest())) == Value(res.value, |raw|)
    ensures res.Err? && res.error != Stream(Broken) ==> Decode(old(r.Rest())) == Failed(res.error, |raw|)
    ensures r.reliable ==> res != Err(Stream(Broken))
  {
    hide Decode, GroupSum, Continued, And, Or, Shl32;
    ghost var s := r.Rest();
    var numRead: nat := 0;
    NoGroups();
    var result: nat := 0;
    raw := [];
    var buf := new byte[1];
    while true
      invariant r.Valid() && r.pos == old(r.pos) + |raw|
      invariant |raw| <= |s| && raw == s[..|raw|] == r.data[old(r.pos)..r.pos]
      invariant numRead == |raw| <= MAX_VARINT_BYTES
      invariant forall i :: 0 <= i < |raw| ==> raw[i] >= 128
      invariant result == GroupSum(raw) % TWO32
      decreases MAX_VARINT_BYTES + 1 - numRead
    {
      ghost var before := r.pos;
      var n, err := r.ReadFull(buf);
      DecodeExits(s, raw);
      if err.Some? {
        assert n == 0 && (err.value.EOF? || err.value.Broken?);
        assert err.value.EOF? ==> |raw| == |s|;
        assert err.value.EOF? ==> Decode(s) == Failed(Stream(EOF), |raw|);
        res := Err(Stream(err.value));
        return;
      }
      var b := buf[0];
      assert [b] == buf[..1] == r.data[before..r.pos];
      assert r.data[old(r.pos)..before] + r.data[before..r.pos] == r.data[old(r.pos)..r.pos];
      ghost var front := raw;
      raw := raw + [b];
      assert raw == r.data[old(r.pos)..r.pos] == s[..|raw|];
      DecodeExits(s, raw);
      LowSeven(b);
      if numRead < MAX_VARINT_BYTES {
        OrGroup(front, b);
      }
      result := Or(result, Shl32(And(b, 127), 7 * numRead));
      numRead := numRead + 1;
      if numRead > MAX_VARINT_BYTES {
        res := Err(TooLong);
        return;
      }
      TopBit(b);
      if And(b, 128) == 0 {
        res := Ok(ToInt32(result));
        return;
      }
    }
  }

  // ---------------------------------------------------------------- the encoding loop

  lemma EncodeMasks(u: nat)
    ensures AndNot(u, 127) == u - u % 128
    ensures Or(And(u, 127), 128) == u % 128 + 128
    ensures Shr(u, 7) == u / 128
  {
    assert Pow2(7) == 128 by { Pow2Facts(); }
    MaskIsRemainder(u, 7);
    MarkAbove(u, 7);
  }

  method EncodeVarInt(value: int32) returns (out: seq<byte>)
    ensures out == Encode(value)
  {
    hide And, Or, AndNot, Shr;
    var u: nat := ToUint32(value);
    out := [];
    while true
      invariant out + EncodeUnsigned(u) == Encode(value)
      decreases u
    {
      EncodeMasks(u);
      if AndNot(u, 127) == 0 {
        out := out + [u];
        return;
      }
      assert out + EncodeUnsigned(u) == (out + [u % 128 + 128]) + EncodeUnsigned(u / 128);
      out := out + [Or(And(u, 127), 128)];
      u := Shr(u, 7);
    }
  }

  // ---------------------------------------------------------------- the codec's laws

  lemma {:induction false} EncodeShape(u: nat)
    ensures Continued(EncodeUnsigned(u)) == |EncodeUnsigned(u)| - 1
    ensures |EncodeUnsigned(u)| > 1 ==> EncodeUnsigned(u)[|EncodeUnsigned(u)| - 1] != 0
  {
    if u >= 128 {
      EncodeShape(u / 128);
      var t := EncodeUnsigned(u / 128);
      assert EncodeUnsigned(u)[1..] == t;
      assert EncodeUnsigned(u)[|t|] == t[|t| - 1];
    }
  }

  lemma {:induction false} EncodeSum(u: nat)
    ensures GroupSum(EncodeUnsigned(u)) == u
  {
    if u >= 128 {
      EncodeSum(u / 128);
      assert EncodeUnsigned(u)[1..] == EncodeUnsigned(u / 128);
    }
  }

  lemma {:induction false} EncodeLength(u: nat, n: nat)
    requires n >= 1 && u < Pow2(7 * n)
    ensures |EncodeUnsigned(u)| <= n
  {
    if u >= 128 {
      Pow2Facts();
      assert n > 1;
      Pow2Seven(n - 1);
      assert 7 * (n - 1) + 7 == 7 * n;
      EncodeLength(u / 128, n - 1);
    }
  }

  lemma VarIntSizeBound(v: int32)
    ensures 1 <= |Encode(v)| <= MAX_VARINT_BYTES
  {
    Pow2Facts();
    EncodeLength(ToUint32(v), 5);
  }

  lemma {:induction false} ContinuedAppend(s: seq<byte>, rest: seq<byte>)
    requires Continued(s) < |s|
    ensures Continued(s + rest) == Continued(s)
  {
    if s[0] >= 128 {
      ContinuedAppend(s[1..], rest);
      assert (s + rest)[1..] == s[1..] + rest;
    }
  }

  // Decoding succeeds exactly when one of the first five bytes has a clear top bit; it
  // consumes through the first such byte and yields the two's-complement value of the
  // groups modulo 2^32.
  lemma DecodeExact(s: seq<byte>)
    ensures Decode(s).Value? <==> exists k :: 0 <= k < MAX_VARINT_BYTES && k < |s| && s[k] < 128
    ensures Decode(s).Value? ==>
      var Value(v, n) := Decode(s);
      && 1 <= n <= |s| && n <= MAX_VARINT_BYTES
      && s[n - 1] < 128 && (forall i :: 0 <= i < n - 1 ==> s[i] >= 128)
      && ToUint32(v) == GroupSum(s[..n]) % TWO32
    ensures Decode(s).Failed? ==> Decode(s).consumed == Min(|s|, MAX_VARINT_BYTES + 1)
  {
    if k :| 0 <= k < MAX_VARINT_BYTES && k < |s| && s[k] < 128 {
      assert Continued(s) <= k;
    }
  }

  // EncodeVarInt is a right inverse of ReadVarInt, whatever follows on the stream.
  lemma DecodeEncode(v: int32, rest: seq<byte>)
    ensures Decode(Encode(v) + rest) == Value(v, |Encode(v)|)
  {
    var e := Encode(v);
    EncodeShape(ToUint32(v));
    EncodeSum(ToUint32(v));
    VarIntSizeBound(v);
    ContinuedAppend(e, rest);
    assert (e + rest)[..|e|] == e;
    SmallRemainder(ToUint32(v));
  }

  // No encoding is a proper prefix of another.
  lemma EncodePrefixFree(a: int32, b: int32)
    requires Encode(a) <= Encode(b)
    ensures a == b
  {
    DecodeEncode(a, Encode(b)[|Encode(a)|..]);
    DecodeEncode(b, []);
    assert Encode(b) + [] == Encode(b);
    assert Encode(a) + Encode(b)[|Encode(a)|..] == Encode(b);
  }

  lemma GroupsFit(s: seq<byte>, n: nat)
    requires 1 <= n <= MAX_VARINT_BYTES && |s| == n
    ensures GroupSum(s) % TWO32 < Pow2(7 * n)
    ensures n < MAX_VARINT_BYTES ==> GroupSum(s) % TWO32 == GroupSum(s)
  {
    if n < MAX_VARINT_BYTES {
      FourGroupsFit(s);
      SmallRemainder(GroupSum(s));
    } else {
      Pow2Facts();
    }
  }

  // Of all the byte sequences that decode to a value, the encoding is the shortest.
  lemma EncodeShortest(s: seq<byte>)
    requires Decode(s).Value?
    ensures |Encode(Decode(s).v)| <= Decode(s).len
  {
    DecodeExact(s);
    var n := Decode(s).len;
    GroupsFit(s[..n], n);
    EncodeLength(ToUint32(Decode(s).v), n);
  }

  lemma {:induction false} EncodeOfGroups(raw: seq<byte>)
    requires |raw| >= 1 && raw[|raw| - 1] < 128
    requires forall i :: 0 <= i < |raw| - 1 ==> raw[i] >= 128
    requires |raw| == 1 || raw[|raw| - 1] != 0
    ensures EncodeUnsigned(GroupSum(raw)) == raw
    ensures |raw| == 1 || GroupSum(raw) > 0
  {
    if |raw| == 1 {
      assert raw[1..] == [] && GroupSum(raw) == raw[0];
    } else {
      EncodeOfGroups(raw[1..]);
      assert GroupSum(raw[1..]) > 0 by {
        if |raw| == 2 {
          assert raw[1..][1..] == [] && GroupSum(raw[1..]) == raw[1];
        }
      }
      assert GroupSum(raw) / 128 == GroupSum(raw[1..]);
      assert GroupSum(raw) % 128 == raw[0] - 128;
    }
  }

  // The raw form of an accepted VarInt is its encoding exactly when its last group is
  // not padding and a fifth byte carries no bits above bit 31.
  predicate Canonical(raw: seq<byte>) {
    && (|raw| > 1 ==> raw[|raw| - 1] != 0)
    && (|raw| == MAX_VARINT_BYTES ==> raw[4] < 16)
  }

  lemma FifthByteSum(raw: seq<byte>)
    requires |raw| == MAX_VARINT_BYTES
    ensures raw[4] < 16 ==> GroupSum(raw) < TWO32
    ensures GroupSum(raw) < TWO32 ==> raw[4] % 128 < 16
  {
    GroupSumAppend(raw[..4], raw[4]);
    assert raw[..4] + [raw[4]] == raw;
    FourGroupsFit(raw[..4]);
    Pow2Facts();
  }

  lemma CanonicalIffEncoding(s: seq<byte>)
    requires Decode(s).Value?
    ensures s[..Decode(s).len] == Encode(Decode(s).v) <==> Canonical(s[..Decode(s).len])
  {
    DecodeExact(s);
    var Value(v, n) := Decode(s);
    hide Decode, Continued;
    CanonicalRaw(s[..n], v);
  }

  lemma CanonicalRaw(raw: seq<byte>, v: int32)
    requires 1 <= |raw| <= MAX_VARINT_BYTES && raw[|raw| - 1] < 128
    requires forall i :: 0 <= i < |raw| - 1 ==> raw[i] >= 128
    requires ToUint32(v) == GroupSum(raw) % TWO32
    ensures raw == Encode(v) <==> Canonical(raw)
  {
    hide EncodeUnsigned, GroupSum, Pow2;
    GroupsFit(raw, |raw|);
    if |raw| == MAX_VARINT_BYTES {
      FifthByteSum(raw);
    }
    if Canonical(raw) {
      SmallRemainder(GroupSum(raw));
      EncodeOfGroups(raw);
    }
    if raw == Encode(v) {
      EncodeShape(ToUint32(v));
      EncodeSum(ToUint32(v));
    }
  }

  // The decoder does accept other forms: a padded zero, and a fifth byte whose three top
  // payload bits vanish.  Both decode, neither is what the encoder would have written.
  lemma PaddedZeroAccepted()
    ensures Decode([0x80, 0x00]) == Value(0, 2) && Encode(0) == [0]
  {
    var a: seq<byte> := [0x80, 0x00];
    assert a[1..] == [0] && a[..2] == a;
    DecodeExact(a);
  }

  lemma FourFullGroups(s: seq<byte>)
    requires |s| == 4 && s[0] == s[1] == s[2] == s[3] == 255
    ensures GroupSum(s) == 0xFFF_FFFF
  {
    var a, b, c := s[1..], s[1..][1..], s[1..][1..][1..];
    assert c[1..] == [] && c[0] == 255 && GroupSum(c) == 127;
    assert b[0] == 255 && GroupSum(b) == 127 + 128 * 127;
    assert a[0] == 255 && GroupSum(a) == 127 + 128 * GroupSum(b);
  }

  lemma HighBitsDropped(s: seq<byte>)
    requires |s| == 5 && s[0] == s[1] == s[2] == s[3] == 255
    requires s[4] < 128 && s[4] % 16 == 15
    ensures Decode(s) == Value(-1, 5)
    ensures s == Encode(Decode(s).v) <==> s[4] == 15
  {
    hide GroupSum, Encode, Pow2;
    assert s[..5] == s == s[..4] + [s[4]];
    DecodeExact(s);
    FourFullGroups(s[..4]);
    assert Pow2(28) == 0x1000_0000 by { Pow2Facts(); }
    FifthSum(s[..4], s[4], Pow2(28));
    assert ToUint32(Decode(s).v) == 0xFFFF_FFFF;
    CanonicalIffEncoding(s);
  }
}
