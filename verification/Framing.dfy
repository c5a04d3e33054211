/** Length-prefixed framing of messages on the prompt and control sockets.  A
message is its serialised body; the JSON layer is left out. */
module Framing {

  import opened Wrappers

  datatype IoError = UnexpectedEof | InvalidData

  datatype WriteResult = Written | WriteFailed(error: IoError)

  /** A message and what is left of the stream, or an error. */
  datatype ReadResult = Message(body: seq<byte>, rest: seq<byte>) | ReadFailed(error: IoError)

  function ToBigEndian(n: u32): seq<byte> {
    [n / 0x100_0000, n / 0x1_0000 % 0x100, n / 0x100 % 0x100, n % 0x100]
  }

  function Shift(high: nat, low: byte): nat {
    high * 0x100 + low
  }

  function FromBigEndian(b: seq<byte>): u32
    requires |b| == 4
  {
    Shift(Shift(Shift(b[0], b[1]), b[2]), b[3])
  }

  lemma BigEndianRoundTrip(n: u32)
    ensures FromBigEndian(ToBigEndian(n)) == n
  {
    var a, b := n / 0x100, n / 0x1_0000;
    assert n / 0x1_0000 == n / 0x100 / 0x100 && n / 0x100_0000 == n / 0x1_0000 / 0x100;
    assert b == b / 0x100 * 0x100 + b % 0x100;
    assert a == a / 0x100 * 0x100 + a % 0x100;
    assert n == n / 0x100 * 0x100 + n % 0x100;
  }

  lemma BigEndianIsOnto(b: seq<byte>)
    requires |b| == 4
    ensures ToBigEndian(FromBigEndian(b)) == b
  {
    var high := Shift(b[0], b[1]);
    var mid := Shift(high, b[2]);
    var n := Shift(mid, b[3]);
    assert n / 0x100 == mid && n % 0x100 == b[3];
    assert mid / 0x100 == high && mid % 0x100 == b[2];
    assert high / 0x100 == b[0] && high % 0x100 == b[1];
    assert n / 0x1_0000 == n / 0x100 / 0x100 && n / 0x100_0000 == n / 0x1_0000 / 0x100;
  }

  /** The first byte counts most. */
  lemma BigEndianIs(b: seq<byte>, n: u32)
    requires |b| == 4
    ensures FromBigEndian(b) == Number(b[0], b[1], b[2], b[3])
    ensures ToBigEndian(n) == b <==> n == Number(b[0], b[1], b[2], b[3])
  {
    BigEndianRoundTrip(n);
    BigEndianIsOnto(b);
  }

  function Frame(body: seq<byte>): seq<byte>
    requires |body| < TWO_32
  {
    ToBigEndian(|body|) + body
  }

  function Read(data: seq<byte>, max: u32): ReadResult {
    if |data| < 4 then ReadFailed(UnexpectedEof)
    else
      var len := FromBigEndian(data[..4]);
      if len > max then ReadFailed(InvalidData)
      else if |data| < 4 + len then ReadFailed(UnexpectedEof)
      else Message(data[4..4 + len], data[4 + len..])
  }

  /** A byte stream, from the next byte to be read to the last one written. */
  class Stream {
    var data: seq<byte>

    method WriteMessage(body: seq<byte>, max: u32) returns (r: WriteResult)
      modifies this
      ensures r.Written? <==> |body| <= max
      ensures r.Written? ==> data == old(data) + Frame(body)
      ensures r.WriteFailed? ==> r.error == InvalidData && data == old(data)
    {
      if |body| >= TWO_32 {
        return WriteFailed(InvalidData);
      }
      var len: u32 := |body|;
      if len > max {
        return WriteFailed(InvalidData);
      }
      data := data + ToBigEndian(len);
      data := data + body;
      return Written;
    }

    /** All `n` bytes or an early end; an early end consumes what was there. */
    method ReadExact(n: nat) returns (ok: bool, bytes: seq<byte>)
      modifies this
      ensures ok <==> n <= |old(data)|
      ensures ok ==> bytes == old(data)[..n] && data == old(data)[n..]
    {
      if n > |data| {
        data := [];
        return false, [];
      }
      bytes := data[..n];
      data := data[n..];
      return true, bytes;
    }

    method ReadMessage(max: u32) returns (r: ReadResult)
      modifies this
      ensures r == Read(old(data), max)
      ensures r.Message? ==> data == r.rest
      ensures r == ReadFailed(InvalidData) ==> data == old(data)[4..]
    {
      var ok, head := ReadExact(4);
      if !ok {
        return ReadFailed(UnexpectedEof);
      }
      var len := FromBigEndian(head);
      if len > max {
        return ReadFailed(InvalidData);
      }
      var okBody, body := ReadExact(len);
      if !okBody {
        return ReadFailed(UnexpectedEof);
      }
      return Message(body, data);
    }
  }

  lemma FrameIsRead(body: seq<byte>, rest: seq<byte>, max: u32)
    requires |body| <= max
    ensures Read(Frame(body) + rest, max) == Message(body, rest)
  {
    var data := Frame(body) + rest;
    BigEndianRoundTrip(|body|);
    assert data[..4] == ToBigEndian(|body|);
    assert data[4..4 + |body|] == body && data[4 + |body|..] == rest;
  }

  lemma ReadIsFrame(data: seq<byte>, max: u32)
    requires Read(data, max).Message?
    ensures |Read(data, max).body| <= max && data == Frame(Read(data, max).body) + Read(data, max).rest
  {
    var len := FromBigEndian(data[..4]);
    BigEndianIsOnto(data[..4]);
    assert data == data[..4] + data[4..4 + len] + data[4 + len..];
  }

  /** Reading inverts framing, and only frames are read. */
  lemma ReadInvertsFrame(data: seq<byte>, max: u32, body: seq<byte>, rest: seq<byte>)
    ensures Read(data, max) == Message(body, rest) <==> |body| <= max && data == Frame(body) + rest
  {
    if |body| <= max {
      FrameIsRead(body, rest, max);
    }
    if Read(data, max) == Message(body, rest) {
      ReadIsFrame(data, max);
    }
  }

  /** A frame that is cut short, anywhere, is an early end and never a message. */
  lemma CutFrameIsEof(body: seq<byte>, max: u32, n: nat)
    requires |body| <= max && n < |Frame(body)|
    ensures Read(Frame(body)[..n], max) == ReadFailed(UnexpectedEof)
  {
    if n >= 4 {
      BigEndianRoundTrip(|body|);
      assert Frame(body)[..n][..4] == ToBigEndian(|body|);
    }
  }

  /** Exactly when a read fails, and how: it is refused if four bytes are there and
  declare more than the cap, whatever follows them; and it ends early if there are
  fewer than four, or fewer than they declare. */
  lemma ReadFailsIff(data: seq<byte>, max: u32)
    ensures Read(data, max) == ReadFailed(InvalidData) <==> |data| >= 4 && Length(data) > max
    ensures Read(data, max) == ReadFailed(UnexpectedEof) <==>
            |data| < 4 || (Length(data) <= max && |data| - 4 < Length(data))
  {
    if |data| >= 4 {
      BigEndianIs(data[..4], 0);
    }
  }

  /** What the four bytes in front declare. */
  function Length(data: seq<byte>): nat
    requires |data| >= 4
  {
    Number(data[0], data[1], data[2], data[3])
  }

  function Frames(bodies: seq<seq<byte>>): seq<byte>
    requires forall i :: 0 <= i < |bodies| ==> |bodies[i]| < TWO_32
  {
    if bodies == [] then [] else Frame(bodies[0]) + Frames(bodies[1..])
  }

  /** `n` messages in a row and what is left, or the first error. */
  function ReadMany(data: seq<byte>, max: u32, n: nat): (seq<seq<byte>>, ReadResult)
    decreases n
  {
    if n == 0 then ([], Message([], data))
    else
      match Read(data, max)
      case ReadFailed(e) => ([], ReadFailed(e))
      case Message(body, rest) =>
        var (bodies, end) := ReadMany(rest, max, n - 1);
        ([body] + bodies, end)
  }

  /** Reading k times from k concatenated frames yields the k messages, in order,
  and leaves the stream where the next frame starts. */
  lemma {:induction false} FramesRoundTrip(bodies: seq<seq<byte>>, rest: seq<byte>, max: u32)
    requires forall i :: 0 <= i < |bodies| ==> |bodies[i]| <= max
    ensures ReadMany(Frames(bodies) + rest, max, |bodies|) == (bodies, Message([], rest))
    decreases |bodies|
  {
    if bodies == [] {
      assert Frames(bodies) + rest == rest;
    } else {
      var tail := Frames(bodies[1..]) + rest;
      assert Frames(bodies) + rest == Frame(bodies[0]) + tail;
      ReadInvertsFrame(Frames(bodies) + rest, max, bodies[0], tail);
      FramesRoundTrip(bodies[1..], rest, max);
      assert bodies == [bodies[0]] + bodies[1..];
    }
  }
}
