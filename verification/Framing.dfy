/** Length-framed messages over a byte stream that `recv` may split anywhere. */
module Framing {
  import opened Base

  type Byte = b: int | 0 <= b < 256

  const TWO_TO_THE_32: nat := 0x1_0000_0000

  /** `struct.pack(">I", n)`. */
  function Pack(n: nat): (s: seq<Byte>)
    requires n < TWO_TO_THE_32
    ensures |s| == 4
  {
    [n / 0x1000000, n / 0x10000 % 0x100, n / 0x100 % 0x100, n % 0x100]
  }

  /** `struct.unpack(">I", s)`. */
  function Unpack(s: seq<Byte>): (n: nat)
    requires |s| == 4
    ensures n < TWO_TO_THE_32
  {
    s[0] as int * 0x1000000 + s[1] as int * 0x10000 + s[2] as int * 0x100 + s[3]
  }

  lemma PackedUnpacks(n: nat)
    requires n < TWO_TO_THE_32
    ensures Unpack(Pack(n)) == n
  {
    assert n == n / 0x100 * 0x100 + n % 0x100;
    assert n / 0x100 == n / 0x10000 * 0x100 + n / 0x100 % 0x100;
    assert n / 0x10000 == n / 0x1000000 * 0x100 + n / 0x10000 % 0x100;
  }

  /** Most significant byte first: headers compare as the lengths do, at the first byte in which they differ. */
  lemma HeadersInOrder(m: nat, n: nat)
    requires m < n < TWO_TO_THE_32
    ensures var a, b := Pack(m), Pack(n);
            exists i :: 0 <= i < 4 && a[..i] == b[..i] && a[i] < b[i]
  {
    var a, b := Pack(m), Pack(n);
    PackedUnpacks(m);
    PackedUnpacks(n);
    assert a[..0] == b[..0];
    if a[0] == b[0] {
      assert a[..1] == b[..1];
      if a[1] == b[1] {
        assert a[..2] == b[..2];
        if a[2] == b[2] {
          assert a[..3] == b[..3];
          assert a[3] < b[3];
        } else {
          assert a[2] < b[2];
        }
      } else {
        assert a[1] < b[1];
      }
    } else {
      assert a[0] < b[0];
    }
  }

  lemma UnpackedPacks(s: seq<Byte>)
    requires |s| == 4
    ensures Pack(Unpack(s)) == s
  {
    var n := Unpack(s);
    assert n / 0x100 == s[0] as int * 0x10000 + s[1] as int * 0x100 + s[2];
    assert n / 0x10000 == s[0] as int * 0x100 + s[1];
    assert n / 0x1000000 == s[0];
  }

  /** What goes over the wire; `None` is the struct.error for a length of 2^32 or more. */
  function Frame(payload: seq<Byte>): Option<seq<Byte>> {
    if |payload| < TWO_TO_THE_32 then Some(Pack(|payload|) + payload) else None
  }

  datatype Received = Message(payload: seq<Byte>) | TooLarge(length: nat) | ShortRead

  /** What a receiver must make of a stream, however it arrives: the result, and what is left unread.
      The daemon reads with a limit of 4 MiB, the client with one of 16 MiB. */
  function Decode(stream: seq<Byte>, limit: nat): (Received, seq<Byte>) {
    if |stream| < 4 then (ShortRead, [])
    else
      var length := Unpack(stream[..4]);
      if length > limit then (TooLarge(length), stream[4..])
      else if |stream| < 4 + length then (ShortRead, [])
      else (Message(stream[4..4 + length]), stream[4 + length..])
  }

  /** A connected socket: the bytes still to come before the peer closes. */
  class Socket {
    var incoming: seq<Byte>

    constructor (incoming: seq<Byte>)
      ensures this.incoming == incoming
    {
      this.incoming := incoming;
    }

    /** `recv(n)`: any non-empty part of what comes next, up to n bytes; empty only at the end. */
    method Recv(n: nat) returns (chunk: seq<Byte>)
      requires n > 0
      modifies this
      ensures chunk + incoming == old(incoming) && |chunk| <= n
      ensures chunk == [] <==> old(incoming) == []
    {
      var size: int := *;
      if size < 1 {
        size := 1;
      }
      if size > n {
        size := n;
      }
      if size > |incoming| {
        size := |incoming|;
      }
      chunk := incoming[..size];
      incoming := incoming[size..];
    }

    /** `_recv_exact`, on both sides; `None` is the short-read error. */
    method RecvExact(n: nat) returns (r: Option<seq<Byte>>)
      modifies this
      ensures |old(incoming)| >= n ==> r == Some(old(incoming)[..n]) && incoming == old(incoming)[n..]
      ensures |old(incoming)| < n ==> r == None && incoming == []
    {
      var buf: seq<Byte> := [];
      while |buf| < n
        invariant |buf| <= n && buf + incoming == old(incoming)
        decreases n - |buf|
      {
        var chunk := Recv(n - |buf|);
        if chunk == [] {
          return None;
        }
        buf := buf + chunk;
      }
      assert buf == (buf + incoming)[..n];
      r := Some(buf);
    }

    /** `_recv_framed` and the reading half of `_serve_one`: header, limit, payload. */
    method RecvFramed(limit: nat) returns (r: Received)
      modifies this
      ensures (r, incoming) == Decode(old(incoming), limit)
    {
      var header := RecvExact(4);
      if header.None? {
        return ShortRead;
      }
      var length := Unpack(header.value);
      if length > limit {
        return TooLarge(length);
      }
      var payload := RecvExact(length);
      if payload.None? {
        return ShortRead;
      }
      assert old(incoming)[4..][..length] == old(incoming)[4..4 + length];
      assert old(incoming)[4..][length..] == old(incoming)[4 + length..];
      r := Message(payload.value);
    }
  }

  /** The two ends: a request may have 4 MiB, a reply 16. */
  const REQUEST_LIMIT: nat := 4 * 1024 * 1024
  const RESPONSE_LIMIT: nat := 16 * 1024 * 1024

  lemma LimitsOfBothEnds(payload: seq<Byte>)
    requires |payload| < TWO_TO_THE_32
    ensures Decode(Frame(payload).value, REQUEST_LIMIT).0.Message? <==> |payload| <= 4194304
    ensures Decode(Frame(payload).value, RESPONSE_LIMIT).0.Message? <==> |payload| <= 16777216
  {
    assert Frame(payload).value + [] == Frame(payload).value;
    FramingRoundTrip(payload, [], REQUEST_LIMIT);
    FramingRoundTrip(payload, [], RESPONSE_LIMIT);
  }

  /** A payload within the limit is received exactly as sent, and nothing beyond it is read;
      a longer one is refused on its header alone. */
  lemma FramingRoundTrip(payload: seq<Byte>, rest: seq<Byte>, limit: nat)
    requires |payload| < TWO_TO_THE_32
    ensures Decode(Frame(payload).value + rest, limit) ==
            if |payload| <= limit then (Message(payload), rest) else (TooLarge(|payload|), payload + rest)
  {
    var stream := Frame(payload).value + rest;
    PackedUnpacks(|payload|);
    assert stream[..4] == Pack(|payload|) && stream[4..] == payload + rest;
    assert stream[4..4 + |payload|] == payload && stream[4 + |payload|..] == rest;
  }

  /** And only such streams decode to it: a message is received if and only if its frame was sent. */
  lemma DecodesIffFramed(stream: seq<Byte>, payload: seq<Byte>, rest: seq<Byte>, limit: nat)
    requires limit < TWO_TO_THE_32
    ensures Decode(stream, limit) == (Message(payload), rest) <==>
            |payload| <= limit && Frame(payload).Some? && stream == Frame(payload).value + rest
  {
    if |payload| <= limit && stream == Frame(payload).value + rest {
      FramingRoundTrip(payload, rest, limit);
    }
    if Decode(stream, limit) == (Message(payload), rest) {
      UnpackedPacks(stream[..4]);
      assert stream == stream[..4] + stream[4..4 + |payload|] + stream[4 + |payload|..];
    }
  }
}
