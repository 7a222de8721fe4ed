/** internal/mcproto/packet.go: length-prefixed packets and their raw form. */
module Packets {
  import opened Wrappers
  import opened Bits
  import opened Streams
  import V = VarInt

  const MAX_INT32: nat := 0x7fff_ffff

  datatype Packet = Packet(id: int32, data: seq<byte>, payload: seq<byte>, raw: seq<byte>)

  datatype PacketError =
    | BadLength(e: V.VarIntError)
    | NegativeLength
    | TooLarge
    | Body(io: IoError)
    | BadId(e: V.VarIntError)

  // What reading a packet from the front of a byte sequence yields.
  datatype Outcome = Got(p: Packet) | Bad(err: PacketError, consumed: nat)

  function CheckPacketLength(length: int32, maxLen: int): Option<PacketError> {
    if length < 0 then Some(NegativeLength)
    else if length > maxLen then Some(TooLarge)
    else None
  }

  function DecodePacket(s: seq<byte>, maxLen: int): (o: Outcome)
    ensures o.Got? ==> o.p.raw <= s
  {
    match V.Decode(s)
    case Failed(e, n) => Bad(BadLength(e), n)
    case Value(length, n) =>
      if CheckPacketLength(length, maxLen).Some? then Bad(CheckPacketLength(length, maxLen).value, n)
      else if |s| < n + length then Bad(Body(if |s| == n then EOF else UnexpectedEOF), |s|)
      else DecodePayload(s[..n + length], n)
  }

  // The packet whose raw form is `raw`, its payload starting at `n`.
  function DecodePayload(raw: seq<byte>, n: nat): (o: Outcome)
    requires n <= |raw|
    ensures o.Got? ==> o.p.raw == raw
  {
    match V.Decode(raw[n..])
    case Failed(e, _) => Bad(BadId(e), |raw|)
    case Value(id, k) => Got(Packet(id, raw[n..][k..], raw[n..], raw))
  }

  // The errors that come from the connection and not from the bytes on it.
  predicate Interrupted(e: PacketError) {
    e == BadLength(V.Stream(Broken)) || e == Body(Broken)
  }

  // What a read of `res` over the bytes `s` means when it consumed the first `n` of them:
  // the outcome the bytes call for, unless the connection broke.
  ghost predicate Reads(s: seq<byte>, maxLen: int, res: Result<Packet, PacketError>, n: nat) {
    && n <= |s|
    && match res
       case Ok(p) => DecodePacket(s, maxLen) == Got(p) && p.raw == s[..n]
       case Err(e) => Interrupted(e) || DecodePacket(s, maxLen) == Bad(e, n)
  }

  // The exits of ReadPacket, each tied to the outcome of the bytes `s`.
  lemma ReadsNoLength(s: seq<byte>, maxLen: int, e: V.VarIntError, n: nat)
    requires V.Decode(s) == V.Failed(e, n) && n <= |s|
    ensures Reads(s, maxLen, Err(BadLength(e)), n)
  {
  }

  lemma ReadsRejected(s: seq<byte>, maxLen: int, length: int32, n: nat)
    requires V.Decode(s) == V.Value(length, n)
    requires CheckPacketLength(length, maxLen).Some?
    ensures Reads(s, maxLen, Err(CheckPacketLength(length, maxLen).value), n)
  {
  }

  lemma ReadsCut(s: seq<byte>, maxLen: int, length: int32, n: nat, io: IoError)
    requires V.Decode(s) == V.Value(length, n)
    requires CheckPacketLength(length, maxLen).None?
    requires |s| < n + length && io == if |s| == n then EOF else UnexpectedEOF
    ensures Reads(s, maxLen, Err(Body(io)), |s|)
  {
  }

  lemma ReadsWhole(s: seq<byte>, maxLen: int, n: nat, payload: seq<byte>, res: Result<Packet, PacketError>)
    requires |payload| <= MAX_INT32 && |payload| <= maxLen
    requires V.Decode(s) == V.Value(|payload|, n)
    requires n + |payload| <= |s| && payload == s[n..n + |payload|]
    requires res == IdOf(payload, s[..n + |payload|])
    ensures Reads(s, maxLen, res, n + |payload|)
  {
    assert s[..n + |payload|][n..] == payload;
  }

  function IdOf(payload: seq<byte>, raw: seq<byte>): (res: Result<Packet, PacketError>)
    ensures res.Err? ==> res.error.BadId?
  {
    match V.Decode(payload)
    case Failed(e, _) => Err(BadId(e))
    case Value(id, j) => Ok(Packet(id, payload[j..], payload, raw))
  }

  // ReadPacket never consumes more than the packet, hands its bytes on unchanged, and
  // over a connection may fail with an I/O error instead of the outcome it owes.
  method ReadPacket(r: Reader, maxLen: int) returns (res: Result<Packet, PacketError>)
    requires r.Valid()
    modifies r`pos
    ensures r.Valid() && old(r.pos) <= r.pos
    ensures Reads(old(r.Rest()), maxLen, res, r.pos - old(r.pos))
    ensures r.reliable ==> res.Ok? || !Interrupted(res.error)
  {
    hide DecodePacket, V.Decode, IdOf;
    ghost var s := r.Rest();
    var length, lengthRaw := V.ReadVarInt(r);
    ghost var n := |lengthRaw|;
    if length.Err? {
      if length.error != V.Stream(Broken) {
        ReadsNoLength(s, maxLen, length.error, n);
      }
      return Err(BadLength(length.error));
    }
    assert n <= |s| && lengthRaw == s[..n];
    var check := CheckPacketLength(length.value, maxLen);
    if check.Some? {
      ReadsRejected(s, maxLen, length.value, n);
      return Err(check.value);
    }
    var payload, err := ReadPayload(r, length.value);
    if err.Some? {
      if err != Some(Broken) {
        ReadsCut(s, maxLen, length.value, n, err.value);
      }
      return Err(Body(err.value));
    }
    var raw := lengthRaw + payload;
    assert raw == s[..|raw|] && payload == s[n..|raw|];
    res := ReadId(payload, raw);
    ReadsWhole(s, maxLen, n, payload, res);
  }

  // The middle of ReadPacket: the payload is read in full into a fresh buffer.
  method ReadPayload(r: Reader, length: nat) returns (payload: seq<byte>, err: Option<IoError>)
    requires r.Valid()
    modifies r`pos
    ensures r.Valid() && r.pos == old(r.pos) + |payload|
    ensures payload == r.data[old(r.pos)..r.pos]
    ensures err == None ==> |payload| == length
    ensures err.Some? ==> |payload| < length
    ensures err.Some? && err != Some(Broken) ==>
      r.pos == |r.data| && err.value == if payload == [] then EOF else UnexpectedEOF
    ensures r.reliable ==> err != Some(Broken)
  {
    var buf := new byte[length];
    var n;
    n, err := r.ReadFull(buf);
    assert err.Some? ==> err.value.EOF? || err.value.UnexpectedEOF? || err.value.Broken?;
    payload := buf[..n];
  }

  // The end of ReadPacket: the packet ID is read from the payload already in memory.
  method ReadId(payload: seq<byte>, raw: seq<byte>) returns (res: Result<Packet, PacketError>)
    ensures res == IdOf(payload, raw)
  {
    var inner := new Reader(payload, true);
    assert inner.Rest() == payload;
    var id, idRaw := V.ReadVarInt(inner);
    if id.Err? {
      return Err(BadId(id.error));
    }
    res := Ok(Packet(id.value, payload[|idRaw|..], payload, raw));
  }

  function NewPacket(id: int32, data: seq<byte>): Packet {
    var payload := V.Encode(id) + data;
    Packet(id, data, payload, V.Encode(Truncate32(|payload|)) + payload)
  }

  // The bytes WritePacket sends: the raw form if there is one, else the payload framed
  // anew, else the payload rebuilt from ID and data.
  function WireBytes(p: Packet): seq<byte> {
    if |p.raw| > 0 then p.raw
    else
      Framed(if |p.payload| == 0 then V.Encode(p.id) + p.data else p.payload)
  }

  // A payload with its length before it.
  function Framed(payload: seq<byte>): seq<byte> {
    V.Encode(Truncate32(|payload|)) + payload
  }

  method WritePacket(w: Writer, p: Packet) returns (err: Option<IoError>)
    modifies w`delivered
    ensures old(w.delivered) <= w.delivered <= old(w.delivered) + WireBytes(p)
    ensures err == None ==> w.delivered == old(w.delivered) + WireBytes(p)
    ensures w.reliable ==> err == None
  {
    hide V.Encode, Framed;
    if |p.raw| > 0 {
      ghost var raw := p.raw;
      var n;
      n, err := w.Write(p.raw);
      assert n == |raw| ==> raw[..n] == raw;
      return;
    }
    var payload := p.payload;
    if |payload| == 0 {
      payload := V.EncodeVarInt(p.id);
      payload := payload + p.data;
    }
    err := WriteFramed(w, payload);
  }

  method WriteFramed(w: Writer, payload: seq<byte>) returns (err: Option<IoError>)
    modifies w`delivered
    ensures old(w.delivered) <= w.delivered <= old(w.delivered) + Framed(payload)
    ensures err == None ==> w.delivered == old(w.delivered) + Framed(payload)
    ensures w.reliable ==> err == None
  {
    hide V.Encode;
    var prefix := V.EncodeVarInt(Truncate32(|payload|));
    ghost var bytes := prefix + payload;
    assert bytes == Framed(payload);
    var m;
    m, err := w.Write(prefix);
    assert prefix[..m] == bytes[..m];
    if err.Some? {
      return;
    }
    assert prefix[..m] == prefix;
    m, err := w.Write(payload);
    assert prefix + payload[..m] == bytes[..|prefix| + m];
    assert m == |payload| ==> payload[..m] == payload;
  }

  // A built packet is written the same from its raw form, its payload, or its ID and data.
  lemma WriteForms(id: int32, data: seq<byte>)
    ensures var p := NewPacket(id, data);
      WireBytes(p) == WireBytes(p.(raw := [])) == WireBytes(p.(raw := [], payload := [])) == p.raw
  {
  }

  // ------------------------------------------------------------------------- framing

  predicate Fits(id: int32, data: seq<byte>, maxLen: int) {
    |V.Encode(id)| + |data| <= Min(maxLen, MAX_INT32)
  }

  // A built packet byte for byte: the length of the payload, the packet ID, the data.
  lemma PacketLayout(id: int32, data: seq<byte>)
    requires |data| + 5 <= 0x7fff_ffff
    ensures var p := NewPacket(id, data);
      && p.id == id && p.data == data
      && p.payload == V.Encode(id) + data && |p.payload| <= 0x7fff_ffff
      && p.raw == V.Encode(|V.Encode(id) + data|) + V.Encode(id) + data
    ensures 0 <= id < 128 && |data| < 127 ==> NewPacket(id, data).raw == [|data| + 1, id] + data
  {
    V.VarIntSizeBound(id);
    V.SmallRemainder(|V.Encode(id) + data|);
  }

  // Which lengths are refused, and for what.
  lemma LengthsRefused(s: seq<byte>, maxLen: int, length: int32)
    requires V.Encode(length) <= s
    ensures length < 0 ==> DecodePacket(s, maxLen) == Bad(NegativeLength, |V.Encode(length)|)
    ensures length >= 0 && length > maxLen ==> DecodePacket(s, maxLen) == Bad(TooLarge, |V.Encode(length)|)
  {
    var rest := s[|V.Encode(length)|..];
    V.DecodeEncode(length, rest);
    assert s == V.Encode(length) + rest;
  }

  // A VarInt decodes the same whatever follows it.
  lemma DecodeLocal(s: seq<byte>, n: nat, rest: seq<byte>)
    requires V.Decode(s).Value? && V.Decode(s).len <= n <= |s|
    ensures V.Decode(s[..n] + rest) == V.Decode(s)
  {
    V.DecodeExact(s);
    var k := V.Decode(s).len;
    var raw := s[..k];
    var t := s[..n] + rest;
    assert raw <= t && forall i :: 0 <= i < |raw| ==> raw[i] == s[i];
    V.DecodeExits(s, raw);
    V.DecodeExits(t, raw);
  }

  // Reading back a built packet returns it, leaving what follows, exactly when its
  // payload fits the limit.
  lemma DecodeNewPacket(id: int32, data: seq<byte>, maxLen: int, rest: seq<byte>)
    requires |V.Encode(id)| + |data| <= MAX_INT32
    ensures DecodePacket(NewPacket(id, data).raw + rest, maxLen)
         == if Fits(id, data, maxLen) then Got(NewPacket(id, data))
            else Bad(TooLarge, |V.Encode(|V.Encode(id)| + |data|)|)
  {
    var p := NewPacket(id, data);
    var s, size := p.raw + rest, |p.payload|;
    var prefix := V.Encode(size);
    V.SmallRemainder(size);
    assert p.raw == prefix + p.payload;
    assert s == prefix + (p.payload + rest);
    V.DecodeEncode(size, p.payload + rest);
    if Fits(id, data, maxLen) {
      assert s[..|prefix| + size] == p.raw;
      assert p.raw[|prefix|..] == p.payload;
      V.DecodeEncode(id, data);
      assert p.payload[|V.Encode(id)|..] == data;
    }
  }

  // For arbitrary input, the raw form of the packet read is exactly the consumed prefix,
  // its tail is the payload and that one's tail the data; and the raw form, forwarded
  // alone or with anything behind it, reads as the same packet again.
  lemma RawPreserved(s: seq<byte>, maxLen: int, rest: seq<byte>)
    requires DecodePacket(s, maxLen).Got?
    ensures var p := DecodePacket(s, maxLen).p;
      && p.raw <= s
      && |p.data| < |p.payload| < |p.raw| && |p.payload| <= maxLen
      && p.payload == p.raw[|p.raw| - |p.payload|..]
      && p.data == p.payload[|p.payload| - |p.data|..]
      && DecodePacket(p.raw + rest, maxLen) == Got(p)
  {
    hide V.Decode;
    V.DecodeExact(s);
    var p := DecodePacket(s, maxLen).p;
    V.DecodeExact(s[..|p.raw|][V.Decode(s).len..]);
    DecodeLocal(s, |p.raw|, rest);
    assert (p.raw + rest)[..|p.raw|] == p.raw;
  }

  // Reading `n` packets one after the other: the packets and what is left, or nothing if
  // one of them does not read.
  function ReadMany(s: seq<byte>, maxLen: int, n: nat): Option<(seq<Packet>, seq<byte>)> {
    if n == 0 then Some(([], s))
    else match DecodePacket(s, maxLen)
      case Bad(_, _) => None
      case Got(p) =>
        match ReadMany(s[|p.raw|..], maxLen, n - 1)
          case None => None
          case Some((ps, rest)) => Some(([p] + ps, rest))
  }

  function RawStream(msgs: seq<(int32, seq<byte>)>): seq<byte> {
    if msgs == [] then [] else NewPacket(msgs[0].0, msgs[0].1).raw + RawStream(msgs[1..])
  }

  function BuiltPackets(msgs: seq<(int32, seq<byte>)>): seq<Packet> {
    seq(|msgs|, i requires 0 <= i < |msgs| => NewPacket(msgs[i].0, msgs[i].1))
  }

  lemma DecodeFitting(id: int32, data: seq<byte>, maxLen: int, rest: seq<byte>)
    requires Fits(id, data, maxLen)
    ensures DecodePacket(NewPacket(id, data).raw + rest, maxLen) == Got(NewPacket(id, data))
  {
    hide DecodePacket, V.Encode;
    DecodeNewPacket(id, data, maxLen, rest);
  }

  // Whole streams: the concatenated raw forms of a list of packets read back as exactly
  // that list, consuming all of it and nothing behind it.
  lemma {:induction false} StreamRoundTrip(msgs: seq<(int32, seq<byte>)>, maxLen: int, rest: seq<byte>)
    requires forall m <- msgs :: Fits(m.0, m.1, maxLen)
    ensures ReadMany(RawStream(msgs) + rest, maxLen, |msgs|) == Some((BuiltPackets(msgs), rest))
  {
    hide DecodePacket, NewPacket, Fits;
    var s := RawStream(msgs) + rest;
    if msgs == [] {
      assert s == rest && BuiltPackets(msgs) == [];
    } else {
      var p := NewPacket(msgs[0].0, msgs[0].1);
      var tail := RawStream(msgs[1..]) + rest;
      assert s == p.raw + tail;
      assert msgs[0] in msgs;
      DecodeFitting(msgs[0].0, msgs[0].1, maxLen, tail);
      StreamRoundTrip(msgs[1..], maxLen, rest);
      ReadOneMore(s, maxLen, p, tail, BuiltPackets(msgs[1..]), rest);
      assert |BuiltPackets(msgs[1..])| + 1 == |msgs|;
      assert [p] + BuiltPackets(msgs[1..]) == BuiltPackets(msgs);
    }
  }

  lemma ReadOneMore(s: seq<byte>, maxLen: int, p: Packet, tail: seq<byte>, ps: seq<Packet>, rest: seq<byte>)
    requires DecodePacket(s, maxLen) == Got(p) && s == p.raw + tail
    requires ReadMany(tail, maxLen, |ps|) == Some((ps, rest))
    ensures ReadMany(s, maxLen, |ps| + 1) == Some(([p] + ps, rest))
  {
    assert s[|p.raw|..] == tail;
  }
}
