/** internal/proxy/pipe.go: the copy loop behind a login.  The two directions of a session
    touch disjoint halves of the two connections, so they are modelled one after the
    other; that either may close both connections at any moment is a read or write error
    of the other. */
module Pipe {
  import opened Wrappers
  import opened Bits
  import opened Streams

  // A net.Conn: what the peer sends, and what is sent to it.
  datatype Conn = Conn(input: Reader, output: Writer)

  datatype Stop = WriteFailed | ReadEnded(err: IoError)

  const BUFFER_SIZE: nat := 32 * 1024

  lemma Joined(before: seq<byte>, data: seq<byte>, start: nat, here: nat, nr: nat, nw: nat)
    requires start <= here <= here + nr <= |data| && nw <= nr
    ensures (before + data[start..here]) + data[here..here + nr][..nw] == before + data[start..here + nw]
  {
    assert data[start..here] + data[here..here + nr][..nw] == data[start..here + nw];
  }

  // `src.Read(buf)`: the bytes it put into the reused buffer.
  method ReadChunk(src: Reader, buf: array<byte>) returns (chunk: seq<byte>, err: Option<IoError>)
    requires src.Valid() && buf.Length > 0
    modifies src`pos, buf
    ensures src.Valid() && src.pos == old(src.pos) + |chunk| && chunk == src.data[old(src.pos)..src.pos]
    ensures chunk == [] ==> err.Some?
    ensures err == Some(EOF) ==> src.pos == |src.data|
    ensures src.reliable ==> err == None || err == Some(EOF)
  {
    var nr;
    nr, err := src.Read(buf, 0);
    chunk := buf[..nr];
  }

  // Copying stops only for a reason: over connections that do not fail, at the end of
  // the input.
  predicate Stopped(reader: bool, writer: bool, stop: Stop) {
    && (writer ==> stop != WriteFailed)
    && (reader && writer ==> stop == ReadEnded(EOF))
  }

  // What was read from `from` on has gone to the other side, byte for byte, up to
  // `written` bytes; everything that was read, unless a write failed.
  method CopyWithIdle(dst: Writer, src: Reader) returns (written: nat, ghost stop: Stop)
    requires src.Valid()
    modifies dst`delivered, src`pos
    ensures src.Valid() && old(src.pos) + written <= src.pos
    ensures dst.delivered == old(dst.delivered) + src.data[old(src.pos)..old(src.pos) + written]
    ensures stop.ReadEnded? ==> old(src.pos) + written == src.pos
    ensures stop == ReadEnded(EOF) ==> src.pos == |src.data|
    ensures Stopped(src.reliable, dst.reliable, stop)
  {
    var buf := new byte[BUFFER_SIZE];
    written := 0;
    ghost var start, before := src.pos, dst.delivered;
    while true
      invariant src.Valid() && start + written == src.pos
      invariant dst.delivered == before + src.data[start..start + written]
      decreases |src.data| - src.pos
    {
      ghost var here := src.pos;
      var chunk, readErr := ReadChunk(src, buf);
      var nr := |chunk|;
      if nr > 0 {
        var nw, writeErr := dst.Write(chunk);
        Joined(before, src.data, start, here, nr, nw);
        written := written + nw;
        if writeErr.Some? || nw != nr {
          stop := WriteFailed;
          return;
        }
      }
      if readErr.Some? {
        stop := ReadEnded(readErr.value);
        return;
      }
    }
  }

  datatype PipeStats = PipeStats(clientToBackend: nat, backendToClient: nat)

  // In the code the direction that ends first closes both connections, so the other one
  // fails if it is still under way; two directions over connections that never fail do not
  // occur there.  Here each runs on its own: what it promises without failures is for the
  // direction that ends first, and the other is to be read with its connections failing.
  method ProxyBidirectional(client: Conn, backend: Conn) returns (stats: PipeStats, ghost up: Stop, ghost down: Stop)
    requires client.input.Valid() && backend.input.Valid()
    requires client.input != backend.input && client.output != backend.output
    modifies client.input`pos, backend.input`pos, client.output`delivered, backend.output`delivered
    ensures client.input.Valid() && backend.input.Valid()
    ensures Copied(client.input.data, old(client.input.pos), client.input.pos,
                   old(backend.output.delivered), backend.output.delivered, stats.clientToBackend, up)
    ensures Copied(backend.input.data, old(backend.input.pos), backend.input.pos,
                   old(client.output.delivered), client.output.delivered, stats.backendToClient, down)
    ensures Stopped(client.input.reliable, backend.output.reliable, up)
    ensures Stopped(backend.input.reliable, client.output.reliable, down)
  {
    var sent, received;
    sent, up := CopyWithIdle(backend.output, client.input);
    received, down := CopyWithIdle(client.output, backend.input);
    stats := PipeStats(sent, received);
  }

  // One direction of a session: `count` bytes of `data` from `from` on were delivered, and
  // everything read up to `to` if reading ended first.
  ghost predicate Copied(data: seq<byte>, from: nat, to: nat, before: seq<byte>, after: seq<byte>, count: nat,
                         stop: Stop) {
    && from + count <= to <= |data|
    && after == before + data[from..from + count]
    && (stop.ReadEnded? ==> from + count == to)
    && (stop == ReadEnded(EOF) ==> to == |data|)
  }
}
