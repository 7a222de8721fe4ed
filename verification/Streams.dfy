/** Byte streams.  A `Reader` is a fixed byte sequence with a cursor; it stands for a
    `bytes.Reader` (reliable: hands over everything asked for, fails only at the end)
    and for the receiving half of a `net.Conn` (reads come in arbitrary chunks and may
    fail at any time).  A `Writer` is the sending half of a connection: a write
    delivers some prefix of its argument, a proper one only together with an error, and
    fails only if the writer is not reliable. */
module Streams {
  import opened Wrappers
  import opened Bits

  datatype IoError = EOF | UnexpectedEOF | Broken

  function Min(a: int, b: int): int {
    if a < b then a else b
  }

  class Reader {
    const data: seq<byte>
    const reliable: bool
    var pos: nat

    ghost predicate Valid()
      reads this
    {
      pos <= |data|
    }

    function Rest(): seq<byte>
      requires Valid()
      reads this
    {
      data[pos..]
    }

    constructor (data: seq<byte>, reliable: bool)
      ensures Valid() && pos == 0 && this.data == data && this.reliable == reliable
    {
      this.data, this.reliable, pos := data, reliable, 0;
    }

    // Fills `buf[lo..]`.  A bytes.Reader at its end reports EOF even for an empty target.
    method Read(buf: array<byte>, lo: nat) returns (n: nat, err: Option<IoError>)
      requires Valid() && lo <= buf.Length
      modifies this`pos, buf
      ensures Valid() && lo + n <= buf.Length && pos == old(pos) + n
      ensures buf[..lo + n] == old(buf[..lo]) + data[old(pos)..pos]
      ensures n == 0 && lo < buf.Length ==> err.Some?
      ensures err == Some(EOF) ==> pos == |data|
      ensures err != Some(UnexpectedEOF)
      ensures reliable ==> n == Min(buf.Length - lo, |data| - old(pos))
      ensures reliable ==> err == if old(pos) == |data| then Some(EOF) else None
    {
      var most := Min(buf.Length - lo, |data| - pos);
      if reliable {
        err := if pos == |data| then Some(EOF) else None;
        n := most;
      } else {
        n :| 0 <= n <= most;
        var broken: bool := *;
        err := if broken then Some(Broken)
               else if pos + n == |data| || n == 0 then (if pos + n == |data| then Some(EOF) else Some(Broken))
               else None;
        if err == Some(EOF) && 0 < n {
          // A connection may report the end together with the last bytes or only afterwards.
          var later: bool := *;
          err := if later then None else err;
        }
      }
      ghost var before := buf[..lo];
      forall i | lo <= i < lo + n {
        buf[i] := data[pos + (i - lo)];
      }
      pos := pos + n;
      assert buf[..lo] == before;
      assert buf[..lo + n] == buf[..lo] + buf[lo..lo + n];
    }

    // io.ReadFull: keep reading until `buf` is full or an error arrives.
    method ReadFull(buf: array<byte>) returns (n: nat, err: Option<IoError>)
      requires Valid()
      modifies this`pos, buf
      ensures Valid() && n <= buf.Length && pos == old(pos) + n
      ensures buf[..n] == data[old(pos)..pos]
      ensures err == None <==> n == buf.Length
      ensures err == Some(EOF) ==> n == 0 && pos == |data|
      ensures err == Some(UnexpectedEOF) ==> 0 < n && pos == |data|
      ensures reliable ==> err != Some(Broken)
    {
      n, err := 0, None;
      while n < buf.Length && err == None
        invariant Valid() && n <= buf.Length && pos == old(pos) + n
        invariant buf[..n] == data[old(pos)..pos]
        invariant err == Some(EOF) ==> pos == |data|
        invariant err != Some(UnexpectedEOF)
        invariant reliable ==> err != Some(Broken)
        decreases buf.Length - n, if err == None then 1 else 0
      {
        ghost var here := pos;
        var k, e := Read(buf, n);
        assert data[old(pos)..here] + data[here..pos] == data[old(pos)..pos];
        n, err := n + k, e;
      }
      if n >= buf.Length {
        err := None;
      } else if n > 0 && err == Some(EOF) {
        err := Some(UnexpectedEOF);
      }
    }
  }

  class Writer {
    // Everything delivered to the peer so far.  It only ever grows.
    var delivered: seq<byte>
    const reliable: bool

    constructor (reliable: bool)
      ensures delivered == [] && this.reliable == reliable
    {
      delivered, this.reliable := [], reliable;
    }

    method Write(bytes: seq<byte>) returns (n: nat, err: Option<IoError>)
      modifies this`delivered
      ensures n <= |bytes| && delivered == old(delivered) + bytes[..n]
      ensures n < |bytes| ==> err.Some?
      ensures reliable ==> err == None
    {
      n :| 0 <= n <= |bytes|;
      var broken: bool := *;
      if reliable {
        n, broken := |bytes|, false;
      }
      err := if broken || n < |bytes| then Some(Broken) else None;
      delivered := delivered + bytes[..n];
    }
  }
}
