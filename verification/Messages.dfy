/** internal/mcproto/handshake.go, login.go and status.go: strings on the wire and the
    messages the proxy builds and parses. */
module Messages {
  import opened Wrappers
  import opened Bits
  import opened Streams
  import opened Packets
  import V = VarInt
  import U = Utf8

  const HANDSHAKE_ID: int32 := 0
  const LOGIN_START_ID: int32 := 0
  const LOGIN_DISCONNECT_ID: int32 := 0
  const STATUS_REQUEST_ID: int32 := 0
  const STATUS_RESPONSE_ID: int32 := 0
  const STATUS_PING_ID: int32 := 1
  const STATUS_PONG_ID: int32 := 1

  const MAX_ADDRESS_CHARS: nat := 255
  const MAX_USERNAME_CHARS: nat := 16
  const MAX_STATUS_CHARS: nat := 32767

  type GoString = seq<byte>
  type uint16 = x: int | 0 <= x < 0x1_0000

  // -------------------------------------------------------------------------- strings

  datatype StringError =
    | BadPrefix(e: V.VarIntError)
    | NegativeSize
    | PastEnd
    | TooManyBytes
    | AtEnd
    | NotUtf8
    | TooManyChars

  datatype StringOutcome = Text(value: GoString, len: nat) | NoText(err: StringError)

  function EncodeString(value: GoString): seq<byte> {
    V.Encode(Truncate32(|value|)) + value
  }

  function DecodeString(s: seq<byte>, maxChars: nat): (o: StringOutcome)
    ensures o.Text? ==> o.len <= |s|
  {
    match V.Decode(s)
    case Failed(e, _) => NoText(BadPrefix(e))
    case Value(length, n) =>
      if length < 0 then NoText(NegativeSize)
      else if length > |s| - n then NoText(PastEnd)
      else if length > maxChars * 4 then NoText(TooManyBytes)
      else if n == |s| then NoText(AtEnd)
      else
        var value := s[n..n + length];
        if !U.Valid(value) then NoText(NotUtf8)
        else if U.Units(value) > maxChars then NoText(TooManyChars)
        else Text(value, n + length)
  }

  // ReadString works on a bytes.Reader, whose Read reports EOF at the end of the buffer
  // even when nothing is asked for: an empty string that is the last field is an error.
  method ReadString(r: Reader, maxChars: nat) returns (res: Result<GoString, StringError>)
    requires r.Valid() && r.reliable
    modifies r`pos
    ensures r.Valid() && old(r.pos) <= r.pos
    ensures match DecodeString(old(r.Rest()), maxChars)
      case Text(value, n) => res == Ok(value) && r.pos == old(r.pos) + n
      case NoText(e) => res == Err(e)
  {
    hide V.Decode, U.Valid, U.Units;
    ghost var s := r.Rest();
    var length, lengthRaw := V.ReadVarInt(r);
    ghost var n := |lengthRaw|;
    if length.Err? {
      return Err(BadPrefix(length.error));
    }
    if length.value < 0 {
      return Err(NegativeSize);
    }
    if length.value > |r.data| - r.pos {
      return Err(PastEnd);
    }
    if length.value > maxChars * 4 {
      return Err(TooManyBytes);
    }
    var buf := new byte[length.value];
    ghost var at := r.pos;
    var k, err := r.Read(buf, 0);
    if err.Some? {
      return Err(AtEnd);
    }
    assert k == length.value;
    var value := buf[..k];
    assert value == r.data[at..r.pos];
    assert value == s[n..n + length.value];
    if !U.Valid(value) {
      return Err(NotUtf8);
    }
    var units := U.Utf16CodeUnits(value);
    if units > maxChars {
      return Err(TooManyChars);
    }
    res := Ok(value);
  }

  // Strings round-trip exactly when they are UTF-8, within the limit, and not an empty
  // last field.  The byte cap of four bytes a character never gets in the way.
  lemma StringRoundTrip(value: GoString, maxChars: nat, rest: seq<byte>)
    requires |value| <= MAX_INT32
    ensures DecodeString(EncodeString(value) + rest, maxChars) == Text(value, |EncodeString(value)|)
      <==> U.Valid(value) && U.Units(value) <= maxChars && value + rest != []
  {
    hide U.Valid, V.Decode;
    var prefix, s := V.Encode(|value|), EncodeString(value) + rest;
    V.SmallRemainder(|value|);
    assert s == prefix + (value + rest);
    V.DecodeEncode(|value|, value + rest);
    assert s[|prefix|..|prefix| + |value|] == value;
    if U.Valid(value) {
      U.BytesPerUnit(value);
    }
  }

  // The cap is no restriction in general either: any length prefix it rejects announces
  // a string that is malformed or over the character limit.
  lemma ByteCapHarmless(value: GoString, maxChars: nat)
    requires |value| > maxChars * 4
    ensures !U.Valid(value) || U.Units(value) > maxChars
  {
    if U.Valid(value) {
      U.BytesPerUnit(value);
    }
  }

  // ------------------------------------------------------------------------ handshake

  datatype Handshake = Handshake(protocol: int32, address: GoString, port: uint16, next: int32)

  datatype HandshakeError =
    | WrongId
    | BadProtocol(v: V.VarIntError)
    | BadAddress(e: StringError)
    | ShortPort
    | BadNext(v: V.VarIntError)

  const NEXT_STATUS: int32 := 1
  const NEXT_LOGIN: int32 := 2

  function BigEndian16(port: uint16): seq<byte> {
    [port / 256, port % 256]
  }

  function FromBigEndian16(high: byte, low: byte): uint16 {
    high as int * 256 + low
  }

  function HandshakeData(h: Handshake): seq<byte> {
    V.Encode(h.protocol) + EncodeString(h.address) + BigEndian16(h.port) + V.Encode(h.next)
  }

  function BuildHandshake(h: Handshake): Packet {
    NewPacket(HANDSHAKE_ID, HandshakeData(h))
  }

  function DecodeHandshake(p: Packet): Result<Handshake, HandshakeError> {
    if p.id != HANDSHAKE_ID then Err(WrongId)
    else match V.Decode(p.data)
      case Failed(e, _) => Err(BadProtocol(e))
      case Value(protocol, n) => DecodeAddress(protocol, p.data[n..])
  }

  function DecodeAddress(protocol: int32, s: seq<byte>): Result<Handshake, HandshakeError> {
    match DecodeString(s, MAX_ADDRESS_CHARS)
    case NoText(e) => Err(BadAddress(e))
    case Text(address, n) =>
      if |s| - n < 2 then Err(ShortPort)
      else match V.Decode(s[n + 2..])
        case Failed(e, _) => Err(BadNext(e))
        case Value(next, _) => Ok(Handshake(protocol, address, FromBigEndian16(s[n], s[n + 1]), next))
  }

  method ParseHandshake(p: Packet) returns (res: Result<Handshake, HandshakeError>)
    ensures res == DecodeHandshake(p)
  {
    if p.id != HANDSHAKE_ID {
      return Err(WrongId);
    }
    var r := new Reader(p.data, true);
    assert r.Rest() == p.data;
    var protocol, raw := V.ReadVarInt(r);
    if protocol.Err? {
      return Err(BadProtocol(protocol.error));
    }
    assert r.Rest() == p.data[|raw|..];
    res := ParseAddress(r, protocol.value);
  }

  // The rest of ParseHandshake, with the cursor behind the protocol version.
  method ParseAddress(r: Reader, protocol: int32) returns (res: Result<Handshake, HandshakeError>)
    requires r.Valid() && r.reliable
    modifies r`pos
    ensures res == DecodeAddress(protocol, old(r.Rest()))
  {
    hide V.Decode, DecodeString;
    ghost var s := r.Rest();
    var address := ReadString(r, MAX_ADDRESS_CHARS);
    if address.Err? {
      return Err(BadAddress(address.error));
    }
    ghost var n := DecodeString(s, MAX_ADDRESS_CHARS).len;
    assert r.Rest() == s[n..];
    if |r.data| - r.pos < 2 {
      return Err(ShortPort);
    }
    var buf := new byte[2];
    ghost var at := r.pos;
    var k, err := r.Read(buf, 0);
    assert err == None && buf[..2] == r.data[at..at + 2];
    assert buf[0] == buf[..2][0] == s[n] && buf[1] == buf[..2][1] == s[n + 1];
    assert r.Rest() == s[n + 2..];
    var next, nextRaw := V.ReadVarInt(r);
    if next.Err? {
      return Err(BadNext(next.error));
    }
    res := Ok(Handshake(protocol, address.value, FromBigEndian16(buf[0], buf[1]), next.value));
  }

  predicate LegalAddress(address: GoString) {
    U.Valid(address) && U.Units(address) <= MAX_ADDRESS_CHARS
  }

  // Parsing a built handshake gives it back exactly when its address is UTF-8 of at most
  // 255 characters; the address may be empty, for the port always follows it.
  lemma HandshakeRoundTrip(h: Handshake)
    requires |h.address| <= MAX_INT32
    ensures DecodeHandshake(BuildHandshake(h)) == Ok(h) <==> LegalAddress(h.address)
  {
    hide V.Decode, DecodeString, U.Valid;
    var tail := EncodeString(h.address) + BigEndian16(h.port) + V.Encode(h.next);
    assert HandshakeData(h) == V.Encode(h.protocol) + tail;
    V.DecodeEncode(h.protocol, tail);
    assert HandshakeData(h)[|V.Encode(h.protocol)|..] == tail;
    AddressRoundTrip(h, tail);
  }

  lemma AddressRoundTrip(h: Handshake, s: seq<byte>)
    requires |h.address| <= MAX_INT32
    requires s == EncodeString(h.address) + BigEndian16(h.port) + V.Encode(h.next)
    ensures DecodeAddress(h.protocol, s) == Ok(h) <==> LegalAddress(h.address)
  {
    hide V.Decode, DecodeString, U.Valid;
    var rest := BigEndian16(h.port) + V.Encode(h.next);
    assert s == EncodeString(h.address) + rest;
    StringRoundTrip(h.address, MAX_ADDRESS_CHARS, rest);
    var n := |EncodeString(h.address)|;
    assert s[n + 2..] == V.Encode(h.next);
    V.DecodeEncode(h.next, []);
    assert V.Encode(h.next) + [] == V.Encode(h.next);
    if DecodeAddress(h.protocol, s) == Ok(h) {
      TextLength(s, h.address, MAX_ADDRESS_CHARS);
    }
  }

  // The value read determines how many bytes a string took, given how it was written.
  lemma TextLength(s: seq<byte>, value: GoString, maxChars: nat)
    requires |value| <= MAX_INT32
    requires EncodeString(value) <= s
    requires DecodeString(s, maxChars).Text?
    ensures DecodeString(s, maxChars).len == |EncodeString(value)|
  {
    V.SmallRemainder(|value|);
    var rest := s[|EncodeString(value)|..];
    assert s == V.Encode(|value|) + (value + rest);
    V.DecodeEncode(|value|, value + rest);
  }

  lemma HandshakeInjective(a: Handshake, b: Handshake)
    requires LegalAddress(a.address) && LegalAddress(b.address)
    requires BuildHandshake(a) == BuildHandshake(b)
    ensures a == b
  {
    U.BytesPerUnit(a.address);
    U.BytesPerUnit(b.address);
    HandshakeRoundTrip(a);
    HandshakeRoundTrip(b);
  }

  // Any legal handshake fits in 780 bytes of payload, far below the default limit of 64 KiB.
  lemma HandshakeSize(h: Handshake)
    requires LegalAddress(h.address)
    ensures |BuildHandshake(h).payload| <= 780 < 64 * 1024
  {
    U.BytesPerUnit(h.address);
    V.SmallRemainder(|h.address|);
    V.Pow2Facts();
    V.EncodeLength(|h.address|, 2);
    V.VarIntSizeBound(h.protocol);
    V.VarIntSizeBound(h.next);
    V.EncodeLength(HANDSHAKE_ID, 1);
  }

  // Through the whole codec: the bytes of a legal handshake, followed by anything, are
  // read as one packet and parsed back to it.
  lemma HandshakeOnTheWire(h: Handshake, maxLen: int, rest: seq<byte>)
    requires LegalAddress(h.address) && maxLen >= 780
    ensures var o := DecodePacket(BuildHandshake(h).raw + rest, maxLen);
      o == Got(BuildHandshake(h)) && DecodeHandshake(o.p) == Ok(h)
  {
    HandshakeSize(h);
    U.BytesPerUnit(h.address);
    HandshakeRoundTrip(h);
    DecodeNewPacket(HANDSHAKE_ID, HandshakeData(h), maxLen, rest);
  }

  // ---------------------------------------------------------------------------- login

  function BuildLoginStart(username: GoString, trailing: seq<byte>): Packet {
    NewPacket(LOGIN_START_ID, EncodeString(username) + trailing)
  }

  function BuildLoginDisconnect(reason: GoString): Packet {
    NewPacket(LOGIN_DISCONNECT_ID, EncodeString(reason))
  }

  // The name in a login start packet, if it parses.
  function ParseLoginStart(p: Packet): Option<GoString> {
    if p.id != LOGIN_START_ID then None
    else match DecodeString(p.data, MAX_USERNAME_CHARS)
      case NoText(_) => None
      case Text(name, _) => Some(name)
  }

  lemma LoginRoundTrip(username: GoString, trailing: seq<byte>)
    requires |username| <= MAX_INT32
    ensures ParseLoginStart(BuildLoginStart(username, trailing)) == Some(username)
      <==> U.Valid(username) && U.Units(username) <= MAX_USERNAME_CHARS && username + trailing != []
  {
    hide U.Valid, V.Decode;
    var s := EncodeString(username) + trailing;
    StringRoundTrip(username, MAX_USERNAME_CHARS, trailing);
    if DecodeString(s, MAX_USERNAME_CHARS).Text? {
      TextLength(s, username, MAX_USERNAME_CHARS);
    }
  }

  // --------------------------------------------------------------------------- status

  function BuildStatusResponse(json: GoString): Packet {
    NewPacket(STATUS_RESPONSE_ID, EncodeString(json))
  }

  function ParseStatusJSON(p: Packet): Option<GoString> {
    if p.id != STATUS_RESPONSE_ID then None
    else match DecodeString(p.data, MAX_STATUS_CHARS)
      case NoText(_) => None
      case Text(json, _) => Some(json)
  }

  function BuildPong(payload: seq<byte>): Option<Packet> {
    if |payload| != 8 then None else Some(NewPacket(STATUS_PONG_ID, payload))
  }

  // A built status response parses back exactly when it is UTF-8, non-empty and at most
  // 32767 characters; then it fits the default response limit of 256 KiB.
  lemma StatusRoundTrip(json: GoString)
    requires |json| <= MAX_INT32
    ensures ParseStatusJSON(BuildStatusResponse(json)) == Some(json)
      <==> U.Valid(json) && U.Units(json) <= MAX_STATUS_CHARS && json != []
    ensures ParseStatusJSON(BuildStatusResponse(json)) == Some(json)
      ==> |BuildStatusResponse(json).payload| <= 98305 < 256 * 1024
  {
    hide U.Valid;
    var s := EncodeString(json);
    assert s + [] == s && json + [] == json;
    StringRoundTrip(json, MAX_STATUS_CHARS, []);
    V.SmallRemainder(|json|);
    V.DecodeEncode(|json|, json);
    if U.Valid(json) && U.Units(json) <= MAX_STATUS_CHARS {
      U.BytesPerUnit(json);
      V.Pow2Facts();
      V.EncodeLength(|json|, 3);
      V.EncodeLength(STATUS_RESPONSE_ID, 1);
    }
  }

  // The pong answered from the cache, read back as a packet, carries the ping's 8 bytes.
  lemma PongEchoesPing(payload: seq<byte>, maxLen: int, rest: seq<byte>)
    requires |payload| == 8 && maxLen >= 9
    ensures var o := DecodePacket(BuildPong(payload).value.raw + rest, maxLen);
      o.Got? && o.p.id == STATUS_PONG_ID && o.p.data == payload
  {
    V.Pow2Facts();
    V.EncodeLength(STATUS_PONG_ID, 1);
    DecodeNewPacket(STATUS_PONG_ID, payload, maxLen, rest);
  }

  // ------------------------------------------------- the numbers and bytes on the wire

  // A string on the wire: its length in bytes, then the bytes.
  lemma StringLayout(value: GoString)
    requires |value| <= 0x7fff_ffff
    ensures EncodeString(value) == V.Encode(|value|) + value
    ensures |value| < 128 ==> EncodeString(value) == [|value|] + value
    ensures 128 <= |value| < 0x4000 ==> EncodeString(value) == [|value| % 128 + 128, |value| / 128] + value
  {
    V.SmallRemainder(|value|);
    if 128 <= |value| < 0x4000 {
      assert V.EncodeUnsigned(|value| / 128) == [|value| / 128];
    }
  }

  // A handshake is packet 0: protocol, address, the port with its high byte first, and
  // the state asked for.
  lemma HandshakeLayout(h: Handshake)
    requires |h.address| <= 0x7fff_ffff
    ensures BuildHandshake(h) == NewPacket(0,
      V.Encode(h.protocol) + V.Encode(|h.address|) + h.address + [h.port / 256, h.port % 256] + V.Encode(h.next))
  {
    hide V.Encode;
    V.SmallRemainder(|h.address|);
    assert V.Encode(h.protocol) + (V.Encode(|h.address|) + h.address) ==
      V.Encode(h.protocol) + V.Encode(|h.address|) + h.address;
  }

  // And read from a packet of these bytes: the address if it is UTF-8 of at most 255
  // UTF-16 units, whatever the numbers.
  lemma HandshakeRead(p: Packet, protocol: int32, address: GoString, high: byte, low: byte, next: int32)
    requires p.data == V.Encode(protocol) + EncodeString(address) + [high, low] + V.Encode(next)
    requires |address| <= 0x7fff_ffff
    ensures p.id != 0 ==> DecodeHandshake(p) == Err(WrongId)
    ensures p.id == 0 && U.Valid(address) && U.Units(address) <= 255 ==>
      DecodeHandshake(p) == Ok(Handshake(protocol, address, high as int * 256 + low, next))
    ensures p.id == 0 && !(U.Valid(address) && U.Units(address) <= 255) ==> DecodeHandshake(p).Err?
  {
    hide V.Decode, V.Encode, U.Valid, U.Units, DecodeString, EncodeString, DecodeAddress;
    if p.id == 0 {
      var tail := EncodeString(address) + [high, low] + V.Encode(next);
      assert p.data == V.Encode(protocol) + tail;
      V.DecodeEncode(protocol, tail);
      assert p.data[|V.Encode(protocol)|..] == tail;
      PortRead(high, low);
      AddressRead(Handshake(protocol, address, high as int * 256 + low, next), tail);
    }
  }

  lemma PortRead(high: byte, low: byte)
    ensures 0 <= high as int * 256 + low < 0x1_0000 && BigEndian16(high as int * 256 + low) == [high, low]
  {
  }

  // A handshake that breaks off behind its address is refused for what is missing: the
  // port, or what comes after it.
  lemma HandshakeCut(p: Packet, protocol: int32, address: GoString, tail: seq<byte>)
    requires p.id == 0 && p.data == V.Encode(protocol) + EncodeString(address) + tail
    requires U.Valid(address) && U.Units(address) <= 255 && address + tail != []
    ensures |tail| < 2 ==> DecodeHandshake(p) == Err(ShortPort)
    ensures |tail| == 2 ==> DecodeHandshake(p) == Err(BadNext(V.Stream(EOF)))
  {
    hide V.Encode, U.Valid, U.Units, DecodeString, EncodeString, V.Decode;
    U.BytesPerUnit(address);
    var s := EncodeString(address) + tail;
    assert p.data == V.Encode(protocol) + s;
    V.DecodeEncode(protocol, s);
    assert p.data[|V.Encode(protocol)|..] == s;
    StringRoundTrip(address, 255, tail);
    if |tail| == 2 {
      assert s[|EncodeString(address)| + 2..] == [];
      NothingDecodes();
    }
  }

  lemma NothingDecodes()
    ensures V.Decode([]) == V.Failed(V.Stream(EOF), 0)
  {
  }

  lemma AddressRead(h: Handshake, s: seq<byte>)
    requires |h.address| <= 0x7fff_ffff
    requires s == EncodeString(h.address) + BigEndian16(h.port) + V.Encode(h.next)
    ensures if U.Valid(h.address) && U.Units(h.address) <= 255 then DecodeAddress(h.protocol, s) == Ok(h)
            else DecodeAddress(h.protocol, s).Err?
  {
    hide V.Decode, U.Valid, U.Units, BigEndian16, V.Encode;
    AddressRoundTrip(h, s);
    if !LegalAddress(h.address) {
      StringRefused(h.address, 255, BigEndian16(h.port) + V.Encode(h.next));
      assert s == EncodeString(h.address) + (BigEndian16(h.port) + V.Encode(h.next));
    }
  }

  // A written string that is not UTF-8 or over the limit is not read as any other.
  lemma StringRefused(value: GoString, maxChars: nat, rest: seq<byte>)
    requires |value| <= 0x7fff_ffff && !(U.Valid(value) && U.Units(value) <= maxChars)
    ensures DecodeString(EncodeString(value) + rest, maxChars).NoText?
  {
    hide U.Valid, U.Units, V.Decode, V.Encode;
    var prefix, s := V.Encode(|value|), EncodeString(value) + rest;
    V.SmallRemainder(|value|);
    assert s == prefix + (value + rest);
    V.DecodeEncode(|value|, value + rest);
    assert s[|prefix|..|prefix| + |value|] == value;
  }

  // The name in a login start: of packet 0, the string at its front, if it is UTF-8 of at
  // most 16 UTF-16 units and something follows the length.
  lemma LoginStartRead(p: Packet, name: GoString, trailing: seq<byte>)
    requires |name| <= 0x7fff_ffff && p.data == EncodeString(name) + trailing
    ensures ParseLoginStart(p) == if p.id == 0 && U.Valid(name) && U.Units(name) <= 16 && name + trailing != []
                                  then Some(name) else None
  {
    hide V.Decode, V.Encode, U.Valid, U.Units, DecodeString, EncodeString;
    if p.id == 0 {
      StringRoundTrip(name, 16, trailing);
      if !(U.Valid(name) && U.Units(name) <= 16) {
        StringRefused(name, 16, trailing);
      } else if name + trailing == [] {
        NothingFollows();
        assert EncodeString(name) + trailing == EncodeString([]);
      }
    }
  }

  lemma NothingFollows()
    ensures forall maxChars: nat :: DecodeString(EncodeString([]), maxChars) == NoText(AtEnd)
  {
    assert EncodeString([]) == [0];
    V.DecodeEncode(0, []);
    assert V.Encode(0) + [] == [0];
  }

  // The text of a status response: of packet 0, the string at its front, if it is UTF-8 of
  // at most 32767 UTF-16 units and not empty.
  lemma StatusRead(p: Packet, json: GoString)
    requires |json| <= 0x7fff_ffff && p.data == EncodeString(json)
    ensures ParseStatusJSON(p) == if p.id == 0 && U.Valid(json) && U.Units(json) <= 32767 && json != []
                                  then Some(json) else None
  {
    hide V.Decode, V.Encode, U.Valid, U.Units, DecodeString, EncodeString;
    if p.id == 0 {
      assert EncodeString(json) + [] == EncodeString(json) && json + [] == json;
      StringRoundTrip(json, 32767, []);
      if !(U.Valid(json) && U.Units(json) <= 32767) {
        StringRefused(json, 32767, []);
      } else if json == [] {
        NothingFollows();
      }
    }
  }

  // The packets the proxy builds, by their IDs.
  lemma PacketIds(name: GoString, trailing: seq<byte>, text: GoString, payload: seq<byte>)
    ensures BuildLoginStart(name, trailing) == NewPacket(0, EncodeString(name) + trailing)
    ensures BuildLoginDisconnect(text) == BuildStatusResponse(text) == NewPacket(0, EncodeString(text))
    ensures BuildPong(payload) == if |payload| == 8 then Some(NewPacket(1, payload)) else None
    ensures STATUS_REQUEST_ID == STATUS_RESPONSE_ID == 0 && STATUS_PING_ID == STATUS_PONG_ID == 1
    ensures NEXT_STATUS == 1 && NEXT_LOGIN == 2
  {
  }

  // The disconnect packet with a short reason, byte for byte.
  lemma DisconnectLayout(reason: GoString)
    requires |reason| < 126
    ensures BuildLoginDisconnect(reason).raw == [|reason| + 2, 0, |reason|] + reason
  {
    hide EncodeString, V.Encode, NewPacket;
    StringLayout(reason);
    PacketLayout(0, EncodeString(reason));
    assert [|reason| + 2, 0] + ([|reason|] + reason) == [|reason| + 2, 0, |reason|] + reason;
  }
}
