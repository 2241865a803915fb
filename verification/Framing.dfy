/** protocol.py and the buffered decoder of packet_manager.py: four-byte
    length prefixes over a TCP stream that arrives in arbitrary segments. */
module Framing {
  import opened Bytes
  import opened Results

  const MAX_FRAME_SIZE: nat := 4 * 1024 * 1024

  datatype FrameError = TooLarge | ConnectionClosed

  function Frame(data: Bytes): Bytes {
    BigEndian(|data|, 4) + data
  }

  predicate Fits(data: Bytes) {
    |data| <= MAX_FRAME_SIZE
  }

  predicate AllFit(frames: seq<Bytes>) {
    forall i :: 0 <= i < |frames| ==> Fits(frames[i])
  }

  // The bytes a sender of these frames puts on the wire.
  function Wire(frames: seq<Bytes>): Bytes {
    if frames == [] then [] else Frame(frames[0]) + Wire(frames[1..])
  }

  lemma {:induction false} WireAppend(a: seq<Bytes>, b: seq<Bytes>)
    ensures Wire(a + b) == Wire(a) + Wire(b)
  {
    if a == [] {
      assert a + b == b;
    } else {
      hide Frame;
      WireAppend(a[1..], b);
      Uncons(a, b);
      Regroup(Frame(a[0]), Wire(a[1..]), Wire(b));
    }
  }

  lemma WireOne(frame: Bytes)
    ensures Wire([frame]) == Frame(frame)
  {
    var rest: seq<Bytes> := [frame][1..];
    assert rest == [];
  }

  // ---------------------------------------------------------------------
  // What the next bytes of a stream mean
  // ---------------------------------------------------------------------

  datatype Next = Incomplete | Oversized | Complete(frame: Bytes, rest: Bytes)

  function NextFrame(s: Bytes): Next {
    if |s| < 4 then Incomplete else
      var length := FromBigEndian(s[..4]);
      if length > MAX_FRAME_SIZE then Oversized
      else if |s| < 4 + length then Incomplete
      else Complete(s[4..4 + length], s[4 + length..])
  }

  datatype Decoded = Decoded(frames: seq<Bytes>, rest: Bytes, oversized: bool)

  // Cutting frames off the stream until one is incomplete or oversized.
  function Decode(s: Bytes): Decoded
    decreases |s|
  {
    match NextFrame(s)
    case Incomplete => Decoded([], s, false)
    case Oversized => Decoded([], s, true)
    case Complete(frame, rest) =>
      var d := Decode(rest);
      Decoded([frame] + d.frames, d.rest, d.oversized)
  }

  lemma NextOfFrame(data: Bytes, tail: Bytes)
    requires Fits(data)
    ensures NextFrame(Frame(data) + tail) == Complete(data, tail)
  {
    PowerValues();
    BigEndianRoundTrip(|data|, 4);
    var s := Frame(data) + tail;
    assert s[..4] == BigEndian(|data|, 4);
    assert s[4..4 + |data|] == data;
    assert s[4 + |data|..] == tail;
  }

  lemma FrameOfNext(s: Bytes)
    requires NextFrame(s).Complete?
    ensures s == Frame(NextFrame(s).frame) + NextFrame(s).rest
    ensures Fits(NextFrame(s).frame)
  {
    var length := FromBigEndian(s[..4]);
    BytesOfNumber(s[..4]);
    assert s == s[..4] + s[4..4 + length] + s[4 + length..];
  }

  // Decode(s) is the only way to read s as whole frames followed by a
  // remainder that no further frame can be cut from.
  predicate Reads(s: Bytes, d: Decoded) {
    && s == Wire(d.frames) + d.rest
    && AllFit(d.frames)
    && NextFrame(d.rest) == (if d.oversized then Oversized else Incomplete)
  }

  lemma {:induction false} DecodeReads(s: Bytes)
    ensures Reads(s, Decode(s))
    decreases |s|
  {
    if NextFrame(s).Complete? {
      FrameOfNext(s);
      var frame, rest := NextFrame(s).frame, NextFrame(s).rest;
      DecodeReads(rest);
      var d := Decode(rest);
      assert ([frame] + d.frames)[1..] == d.frames;
      assert s == Frame(frame) + (Wire(d.frames) + d.rest);
    }
  }

  lemma {:induction false} ReadingsAgree(s: Bytes, d: Decoded)
    requires Reads(s, d)
    ensures d == Decode(s)
    decreases |d.frames|
  {
    if d.frames == [] {
      assert s == d.rest;
    } else {
      hide Frame, FromBigEndian;
      var tail := Wire(d.frames[1..]) + d.rest;
      Regroup(Frame(d.frames[0]), Wire(d.frames[1..]), d.rest);
      NextOfFrame(d.frames[0], tail);
      ReadingsAgree(tail, Decoded(d.frames[1..], d.rest, d.oversized));
    }
  }

  lemma DecodeIsTheOnlyReading(s: Bytes, d: Decoded)
    ensures Decode(s) == d <==> Reads(s, d)
  {
    DecodeReads(s);
    if Reads(s, d) {
      ReadingsAgree(s, d);
    }
  }

  lemma DecodeUnfold(s: Bytes)
    ensures Decode(s) == match NextFrame(s)
                         case Incomplete => Decoded([], s, false)
                         case Oversized => Decoded([], s, true)
                         case Complete(frame, rest) =>
                           Decoded([frame] + Decode(rest).frames, Decode(rest).rest, Decode(rest).oversized)
  {
    hide NextFrame;
  }

  // Decoding a and then the remainder with b behind it.
  function Resume(a: Decoded, b: Bytes): Decoded {
    if a.oversized then Decoded(a.frames, a.rest + b, true)
    else var e := Decode(a.rest + b); Decoded(a.frames + e.frames, e.rest, e.oversized)
  }

  lemma ResumeLater(frame: Bytes, d: Decoded, b: Bytes)
    ensures var r := Resume(d, b);
            Resume(Decoded([frame] + d.frames, d.rest, d.oversized), b)
              == Decoded([frame] + r.frames, r.rest, r.oversized)
  {
    hide Decode;
    var e := Decode(d.rest + b);
    assert [frame] + (d.frames + e.frames) == ([frame] + d.frames) + e.frames;
  }

  // Decoding may pause anywhere: the remainder carries all that is needed.
  lemma {:induction false} DecodeAppend(a: Bytes, b: Bytes)
    ensures Decode(a + b) == Resume(Decode(a), b)
    decreases |a|
  {
    hide Decode, NextFrame;
    DecodeUnfold(a);
    DecodeUnfold(a + b);
    match NextFrame(a)
    case Incomplete =>
      assert [] + Decode(a + b).frames == Decode(a + b).frames;
    case Oversized =>
      OversizedStays(a, b);
    case Complete(frame, rest) =>
      NextIsShorter(a);
      NextStays(a, b);
      DecodeAppend(rest, b);
      ResumeLater(frame, Decode(rest), b);
  }

  lemma NextIsShorter(s: Bytes)
    requires NextFrame(s).Complete?
    ensures |NextFrame(s).rest| < |s|
  {
    hide FromBigEndian;
  }

  lemma OversizedStays(a: Bytes, b: Bytes)
    requires NextFrame(a).Oversized?
    ensures NextFrame(a + b).Oversized?
  {
    hide FromBigEndian;
    assert (a + b)[..4] == a[..4];
  }

  lemma NextStays(a: Bytes, b: Bytes)
    requires NextFrame(a).Complete?
    ensures NextFrame(a + b) == Complete(NextFrame(a).frame, NextFrame(a).rest + b)
  {
    hide FromBigEndian;
    var length := FromBigEndian(a[..4]);
    assert (a + b)[..4] == a[..4];
    assert (a + b)[4..4 + length] == a[4..4 + length];
    assert (a + b)[4 + length..] == a[4 + length..] + b;
  }

  lemma DecodeOfWire(frames: seq<Bytes>)
    requires AllFit(frames)
    ensures Decode(Wire(frames)) == Decoded(frames, [], false)
  {
    DecodeIsTheOnlyReading(Wire(frames), Decoded(frames, [], false));
    assert Wire(frames) == Wire(frames) + [];
  }

  // Any prefix of the stream yields a prefix of the frames.
  lemma DecodePrefix(frames: seq<Bytes>, seen: Bytes)
    requires AllFit(frames) && seen <= Wire(frames)
    ensures Decode(seen).frames <= frames && !Decode(seen).oversized
  {
    DecodeAppend(seen, Wire(frames)[|seen|..]);
    assert seen + Wire(frames)[|seen|..] == Wire(frames);
    DecodeOfWire(frames);
  }

  // ---------------------------------------------------------------------
  // Sockets
  // ---------------------------------------------------------------------

  // One end of a TCP connection.  `arrivals` are the segments the network
  // will still hand over, cut wherever it likes; `written` is everything
  // sendall has put on the wire.
  class Socket {
    var arrivals: seq<Bytes>
    var written: Bytes

    constructor (segments: seq<Bytes>)
      requires forall i :: 0 <= i < |segments| ==> segments[i] != []
      ensures Valid() && arrivals == segments && written == []
    {
      arrivals, written := segments, [];
    }

    ghost predicate Valid()
      reads this
    {
      forall i :: 0 <= i < |arrivals| ==> arrivals[i] != []
    }

    function Incoming(): Bytes
      reads this
    {
      Flatten(arrivals)
    }

    // recv: at least one byte, at most `limit`, and none only at end of stream.
    method Recv(limit: nat) returns (data: Bytes)
      requires Valid() && limit > 0
      modifies this`arrivals
      ensures Valid() && data + Incoming() == old(Incoming())
      ensures |data| <= limit
      ensures data == [] <==> old(Incoming()) == []
      ensures |data| + |Incoming()| == |old(Incoming())|
    {
      if arrivals == [] {
        data := [];
      } else if |arrivals[0]| <= limit {
        data, arrivals := arrivals[0], arrivals[1..];
      } else {
        var segment := arrivals[0];
        data := segment[..limit];
        arrivals := arrivals[0 := segment[limit..]];
        assert segment == data + segment[limit..];
        assert arrivals[1..] == old(arrivals)[1..];
      }
    }
  }

  // recv_exact never reads past the bytes it was asked for.
  method RecvExact(sock: Socket, size: nat) returns (r: Result<Bytes, FrameError>)
    requires sock.Valid()
    modifies sock`arrivals
    ensures sock.Valid()
    ensures size <= |old(sock.Incoming())| ==>
              && r == Success(old(sock.Incoming())[..size])
              && sock.Incoming() == old(sock.Incoming())[size..]
    ensures size > |old(sock.Incoming())| ==>
              r == Failure(ConnectionClosed) && sock.Incoming() == []
  {
    var chunks: Bytes := [];
    var remaining := size;
    while remaining > 0
      invariant sock.Valid() && 0 <= remaining && remaining + |chunks| == size
      invariant old(sock.Incoming()) == chunks + sock.Incoming()
    {
      var chunk := sock.Recv(remaining);
      if chunk == [] {
        return Failure(ConnectionClosed);
      }
      Regroup(chunks, chunk, sock.Incoming());
      chunks := chunks + chunk;
      remaining := remaining - |chunk|;
    }
    assert old(sock.Incoming())[..size] == chunks;
    return Success(chunks);
  }

  method SendFrame(sock: Socket, data: Bytes) returns (r: Result<(), FrameError>)
    modifies sock`written
    ensures |data| <= 4_194_304 ==> r == Success(()) && sock.written == old(sock.written) + Frame(data)
    ensures |data| > 4_194_304 ==> r == Failure(TooLarge) && sock.written == old(sock.written)
  {
    if |data| > MAX_FRAME_SIZE {
      return Failure(TooLarge);
    }
    sock.written := sock.written + (BigEndian(|data|, 4) + data);
    return Success(());
  }

  method RecvFrame(sock: Socket) returns (r: Result<Bytes, FrameError>)
    requires sock.Valid()
    modifies sock`arrivals
    ensures sock.Valid()
    ensures match NextFrame(old(sock.Incoming()))
            case Complete(frame, rest) => r == Success(frame) && sock.Incoming() == rest
            case Oversized => r == Failure(TooLarge) && sock.Incoming() == old(sock.Incoming())[4..]
            case Incomplete => r == Failure(ConnectionClosed) && sock.Incoming() == []
  {
    ghost var s := sock.Incoming();
    var header := RecvExact(sock, 4);
    if header.Failure? {
      return header;
    }
    var length := FromBigEndian(header.value);
    if length > MAX_FRAME_SIZE {
      return Failure(TooLarge);
    }
    r := RecvExact(sock, length);
    if r.Success? {
      assert s[4..][..length] == s[4..4 + length];
      assert s[4..][length..] == s[4 + length..];
    }
  }

  datatype Ending = Stopped | Closed | Rejected

  datatype Pull = Yielded(frame: Bytes) | Ended(ending: Ending)

  // The buffered decoder, a generator: its consumer runs between two frames and
  // may leave it at any of them.  `polls` is how many times more the loop finds
  // the stop event unset; `taken` is what it has read from the socket and
  // `given` what it has yielded.
  class FrameReader {
    const sock: Socket
    var buffer: Bytes
    var polls: nat
    ghost var taken: Bytes
    ghost var given: seq<Bytes>

    ghost predicate Valid()
      reads this, sock
    {
      sock.Valid() && Decode(taken) == Behind(given, Decode(buffer))
    }

    constructor (sock: Socket, polls: nat)
      requires sock.Valid()
      ensures Valid() && this.sock == sock && this.polls == polls
      ensures buffer == [] && taken == [] && given == []
    {
      this.sock, this.polls := sock, polls;
      buffer, taken, given := [], [], [];
      new;
      DecodeUnfold([]);
    }

    // The next frame, or why there is none.  Nothing is read while the buffer
    // holds a frame, and an end comes only when all frames of what was taken
    // have been yielded.
    method Next() returns (r: Pull)
      requires Valid()
      modifies this, sock`arrivals
      ensures Valid() && old(taken) <= taken && taken + sock.Incoming() == old(taken + sock.Incoming())
      ensures old(NextFrame(buffer)) != Incomplete ==> taken == old(taken)
      ensures r.Yielded? ==> given == old(given) + [r.frame] && |buffer| + |sock.Incoming()| < old(|buffer| + |sock.Incoming()|)
      ensures r.Ended? ==> given == old(given) == Decode(taken).frames && (r.ending == Rejected <==> Decode(taken).oversized)
      ensures r == Ended(Closed) ==> sock.Incoming() == []
      ensures r == Ended(Stopped) ==> polls == 0
      ensures r != Ended(Closed) ==> polls + |taken| >= old(polls + |taken|)
    {
      hide FromBigEndian, Decode;
      while true
        invariant Valid() && given == old(given) && old(taken) <= taken
        invariant taken + sock.Incoming() == old(taken + sock.Incoming())
        invariant |buffer| + |sock.Incoming()| == old(|buffer| + |sock.Incoming()|)
        invariant polls + |taken| >= old(polls + |taken|)
        invariant old(NextFrame(buffer)) != Incomplete ==> taken == old(taken) && buffer == old(buffer)
        decreases polls
      {
        DecodeUnfold(buffer);
        if |buffer| >= 4 {
          var length := FromBigEndian(buffer[..4]);
          if length > MAX_FRAME_SIZE {
            return Ended(Rejected);
          }
          if |buffer| >= 4 + length {
            var frame := buffer[4..4 + length];
            assert NextFrame(buffer) == Complete(frame, buffer[4 + length..]);
            Regroup(given, [frame], Decode(buffer[4 + length..]).frames);
            buffer := buffer[4 + length..];
            given := given + [frame];
            return Yielded(frame);
          }
        }
        assert NextFrame(buffer) == Incomplete;
        assert given + [] == given;
        if polls == 0 {
          return Ended(Stopped);
        }
        polls := polls - 1;
        var chunk := sock.Recv(4096);
        if chunk == [] {
          return Ended(Closed);
        }
        DecodeAppend(taken, chunk);
        Regroup(taken, chunk, sock.Incoming());
        taken, buffer := taken + chunk, buffer + chunk;
      }
    }
  }

  // A decoding with some frames before it.
  function Behind(frames: seq<Bytes>, d: Decoded): Decoded {
    Decoded(frames + d.frames, d.rest, d.oversized)
  }

  // Drawing frames until the end.
  method RecvFramesFromSocket(sock: Socket, polls: nat)
    returns (frames: seq<Bytes>, ending: Ending, ghost taken: Bytes)
    requires sock.Valid()
    modifies sock`arrivals
    ensures sock.Valid() && taken + sock.Incoming() == old(sock.Incoming())
    ensures frames == Decode(taken).frames
    ensures ending == Rejected <==> Decode(taken).oversized
    ensures ending == Closed ==> sock.Incoming() == []
    ensures |old(sock.Incoming())| < polls ==> ending != Stopped
  {
    hide Decode;
    var reader := new FrameReader(sock, polls);
    frames := [];
    while true
      invariant reader.Valid() && fresh(reader) && reader.sock == sock && reader.given == frames
      invariant reader.taken + sock.Incoming() == old(sock.Incoming())
      invariant reader.polls + |reader.taken| >= polls
      decreases |reader.buffer| + |sock.Incoming()|
    {
      var next := reader.Next();
      if next.Ended? {
        return frames, next.ending, reader.taken;
      }
      frames := frames + [next.frame];
    }
  }

  // A connection reads its first frames with recv_frame (the handshake) and
  // the rest with the buffered decoder.  Wherever it switches, and however the
  // segments fall, both decoders together see the frames of the whole stream.
  method SwitchDecoders(sock: Socket, blocking: nat) returns (frames: seq<Bytes>, rejected: bool)
    requires sock.Valid()
    modifies sock`arrivals
    ensures frames == Decode(old(sock.Incoming())).frames
    ensures rejected <==> Decode(old(sock.Incoming())).oversized
  {
    hide FromBigEndian;
    ghost var whole := Decode(sock.Incoming());
    frames := [];
    var count := 0;
    while count < blocking
      invariant sock.Valid() && count <= blocking
      invariant var d := Decode(sock.Incoming()); whole == Decoded(frames + d.frames, d.rest, d.oversized)
    {
      var r := RecvFrame(sock);
      match r
      case Failure(error) =>
        return frames, error == TooLarge;
      case Success(frame) =>
        Regroup(frames, [frame], Decode(sock.Incoming()).frames);
        frames, count := frames + [frame], count + 1;
    }
    var rest, ending, taken := RecvFramesFromSocket(sock, |sock.Incoming()| + 1);
    if ending == Closed {
      assert taken + [] == taken;
    } else {
      DecodeAppend(taken, sock.Incoming());
    }
    return frames + rest, ending == Rejected;
  }
}
