/** The encrypted data plane: a sender's packets, sealed, framed, cut into
    arbitrary TCP segments, decoded and opened again. */
module Tunnel {
  import opened Bytes
  import opened Results
  import opened Framing
  import opened SessionCipher

  const RECORD_OVERHEAD: nat := 8 + TAG_SIZE

  datatype SendError = SealFailed | FrameFailed

  // Whether sending a packet under this sequence number writes anything.
  predicate Sendable(sequence: nat, packet: Bytes) {
    sequence < TWO_64 && |packet| + RECORD_OVERHEAD <= MAX_FRAME_SIZE
  }

  // The records of a run of sends starting at `from`.  Every send takes a
  // number, also one that fails.
  function SentRecords(aead: Aead, key: Bytes, from: nat, packets: seq<Bytes>): seq<Bytes>
    decreases |packets|
  {
    if packets == [] then [] else
      (if Sendable(from, packets[0]) then [Record(aead, key, from, packets[0])] else [])
      + SentRecords(aead, key, from + 1, packets[1..])
  }

  // The packets whose send succeeded.
  function SentPackets(from: nat, packets: seq<Bytes>): seq<Bytes>
    decreases |packets|
  {
    if packets == [] then [] else
      (if Sendable(from, packets[0]) then [packets[0]] else []) + SentPackets(from + 1, packets[1..])
  }

  datatype Received = Received(packets: seq<Bytes>, failed: bool)

  // A reader opens record after record; the first one rejected ends the session.
  function Receive(aead: Aead, key: Bytes, expected: nat, records: seq<Bytes>): Received
    decreases |records|
  {
    if records == [] then Received([], false) else
      match OpenRecord(aead, key, expected, records[0])
      case Failure(_) => Received([], true)
      case Success(p) =>
        var r := Receive(aead, key, expected + 1, records[1..]);
        Received([p] + r.packets, r.failed)
  }

  lemma ReceiveNothing(aead: Aead, key: Bytes, expected: nat)
    ensures Receive(aead, key, expected, []) == Received([], false)
  {
  }

  lemma ReceiveUnfold(aead: Aead, key: Bytes, expected: nat, records: seq<Bytes>)
    requires records != []
    ensures Receive(aead, key, expected, records) ==
            match OpenRecord(aead, key, expected, records[0])
            case Failure(_) => Received([], true)
            case Success(p) =>
              Received([p] + Receive(aead, key, expected + 1, records[1..]).packets,
                       Receive(aead, key, expected + 1, records[1..]).failed)
  {
    hide OpenRecord;
  }

  // ---------------------------------------------------------------------
  // One sender, one receiver
  // ---------------------------------------------------------------------

  // No packet is sent after one that used up a number without being written.
  predicate GapFree(from: nat, packets: seq<Bytes>) {
    forall i, j :: 0 <= i < j < |packets| && Sendable(from + j, packets[j]) ==> Sendable(from + i, packets[i])
  }

  lemma {:induction false} FirstSent(aead: Aead, key: Bytes, from: nat, packets: seq<Bytes>) returns (j: nat)
    requires SentRecords(aead, key, from, packets) != []
    ensures j < |packets| && Sendable(from + j, packets[j])
    ensures SentRecords(aead, key, from, packets)[0] == Record(aead, key, from + j, packets[j])
    decreases |packets|
  {
    if Sendable(from, packets[0]) {
      j := 0;
    } else {
      j := FirstSent(aead, key, from + 1, packets[1..]);
      j := j + 1;
    }
  }

  lemma {:induction false} NothingSent(aead: Aead, key: Bytes, from: nat, packets: seq<Bytes>)
    requires SentRecords(aead, key, from, packets) == []
    ensures SentPackets(from, packets) == []
    ensures forall j :: 0 <= j < |packets| ==> !Sendable(from + j, packets[j])
    decreases |packets|
  {
    if packets != [] {
      NothingSent(aead, key, from + 1, packets[1..]);
      forall j | 0 <= j < |packets| ensures !Sendable(from + j, packets[j]) {
        if j > 0 { assert packets[j] == packets[1..][j - 1]; }
      }
    }
  }

  // The receiver ends up with exactly the packets that were sent, and keeps
  // listening, if and only if no number was used up before the last of them.
  lemma {:induction false} SessionSurvivesIffGapFree(aead: Aead, key: Bytes, from: nat, packets: seq<Bytes>)
    requires aead.Lawful()
    ensures Receive(aead, key, from, SentRecords(aead, key, from, packets)) == Received(SentPackets(from, packets), false)
       <==> GapFree(from, packets)
    decreases |packets|
  {
    hide OpenRecord;
    hide Record;
    if packets != [] {
      var tail := packets[1..];
      var records := SentRecords(aead, key, from, packets);
      if Sendable(from, packets[0]) {
        var more := SentRecords(aead, key, from + 1, tail);
        assert records == [Record(aead, key, from, packets[0])] + more;
        assert SentPackets(from, packets) == [packets[0]] + SentPackets(from + 1, tail);
        ReceiveNext(aead, key, from, packets[0], more);
        var got, sent := Receive(aead, key, from + 1, more).packets, SentPackets(from + 1, tail);
        assert ([packets[0]] + got)[1..] == got && ([packets[0]] + sent)[1..] == sent;
        SessionSurvivesIffGapFree(aead, key, from + 1, tail);
        GapFreeStep(from, packets);
      } else if records == [] {
        NothingSent(aead, key, from, packets);
      } else {
        var j := FirstSent(aead, key, from, packets);
        assert 0 < j && Sendable(from + j, packets[j]);
        ReceiveGap(aead, key, from, from + j, packets[j], records[1..]);
        assert records == [records[0]] + records[1..];
      }
    }
  }

  lemma ReceiveNext(aead: Aead, key: Bytes, n: nat, packet: Bytes, more: seq<Bytes>)
    requires aead.Lawful() && n < TWO_64
    ensures var r := Receive(aead, key, n + 1, more);
            Receive(aead, key, n, [Record(aead, key, n, packet)] + more) == Received([packet] + r.packets, r.failed)
  {
    OpenOfRecord(aead, key, n, n, packet);
    assert ([Record(aead, key, n, packet)] + more)[1..] == more;
  }

  lemma ReceiveGap(aead: Aead, key: Bytes, expected: nat, n: nat, packet: Bytes, more: seq<Bytes>)
    requires aead.Lawful() && expected != n < TWO_64
    ensures Receive(aead, key, expected, [Record(aead, key, n, packet)] + more) == Received([], true)
  {
    OpenOfRecord(aead, key, expected, n, packet);
  }

  lemma GapFreeStep(from: nat, packets: seq<Bytes>)
    requires packets != [] && Sendable(from, packets[0])
    ensures GapFree(from, packets) <==> GapFree(from + 1, packets[1..])
  {
    var tail := packets[1..];
    if GapFree(from, packets) {
      forall i, j | 0 <= i < j < |tail| && Sendable(from + 1 + j, tail[j]) ensures Sendable(from + 1 + i, tail[i]) {
        assert Sendable(from + (j + 1), packets[j + 1]) && Sendable(from + (i + 1), packets[i + 1]);
      }
    }
    if GapFree(from + 1, tail) {
      forall i, j | 0 <= i < j < |packets| && Sendable(from + j, packets[j]) ensures Sendable(from + i, packets[i]) {
        if i > 0 {
          assert packets[i] == tail[i - 1] && packets[j] == tail[j - 1];
          assert Sendable(from + 1 + (j - 1), tail[j - 1]) ==> Sendable(from + 1 + (i - 1), tail[i - 1]);
        }
      }
    }
  }

  // A packet that fits no frame takes its number all the same, and the next
  // one, however small, is rejected and ends the session.
  lemma OversizedPacketBreaksSession(aead: Aead, key: Bytes, big: Bytes, small: Bytes)
    requires aead.Lawful() && |big| + RECORD_OVERHEAD > MAX_FRAME_SIZE && Sendable(1, small)
    ensures SentPackets(0, [big, small]) == [small]
    ensures Receive(aead, key, 0, SentRecords(aead, key, 0, [big, small])) == Received([], true)
  {
    hide Record, OpenRecord;
    var both := [big, small];
    var last := both[1..];
    assert last == [small] && last[1..] == [];
    assert SentRecords(aead, key, 2, []) == [] && SentPackets(2, []) == [];
    assert SentRecords(aead, key, 1, last) == [Record(aead, key, 1, small)] + [];
    assert SentPackets(1, last) == [small] + [];
    assert SentRecords(aead, key, 0, both) == [] + SentRecords(aead, key, 1, last);
    ReceiveGap(aead, key, 0, 1, small, []);
  }

  // Packets read from a TUN device, 65535 bytes at most, fit, and so do those opened from frames
  // (OpenedPacketFits).  Only the end of the counter can fail their send, and
  // then nothing is sent after it: the session survives.
  lemma ForwardedPacketsNeverBreakSession(aead: Aead, key: Bytes, from: nat, packets: seq<Bytes>)
    requires aead.Lawful()
    requires forall i :: 0 <= i < |packets| ==>
               |packets[i]| <= 65_535 || |packets[i]| + RECORD_OVERHEAD <= MAX_FRAME_SIZE
    ensures Receive(aead, key, from, SentRecords(aead, key, from, packets)) == Received(SentPackets(from, packets), false)
  {
    SessionSurvivesIffGapFree(aead, key, from, packets);
  }

  // A packet opened from a record that came in a legal frame can be sent on:
  // it fits a frame again.
  lemma OpenedPacketFits(aead: Aead, key: Bytes, expected: nat, frame: Bytes)
    requires aead.Lawful() && Fits(frame) && OpenRecord(aead, key, expected, frame).Success?
    ensures |OpenRecord(aead, key, expected, frame).value| + RECORD_OVERHEAD <= MAX_FRAME_SIZE
  {
    RecordOfOpen(aead, key, expected, frame);
  }

  // ---------------------------------------------------------------------
  // Segments
  // ---------------------------------------------------------------------

  predicate AllSendable(from: nat, packets: seq<Bytes>) {
    forall i :: 0 <= i < |packets| ==> Sendable(from + i, packets[i])
  }

  lemma {:induction false} SentWhenAllSendable(aead: Aead, key: Bytes, from: nat, packets: seq<Bytes>)
    requires aead.Lawful() && AllSendable(from, packets)
    ensures SentPackets(from, packets) == packets
    ensures AllFit(SentRecords(aead, key, from, packets))
    decreases |packets|
  {
    if packets != [] {
      var tail := packets[1..];
      assert Sendable(from + 0, packets[0]);
      forall i | 0 <= i < |tail| ensures Sendable(from + 1 + i, tail[i]) {
        assert Sendable(from + (i + 1), packets[i + 1]);
      }
      SentWhenAllSendable(aead, key, from + 1, tail);
      var records := SentRecords(aead, key, from, packets);
      var sealed := aead.seal(key, Nonce(from), packets[0], Aad(from));
      assert aead.Law(key, Nonce(from), packets[0], sealed, Aad(from));
      forall i | 0 <= i < |records| ensures Fits(records[i]) {
        if i > 0 { assert records[i] == SentRecords(aead, key, from + 1, tail)[i - 1]; }
      }
    }
  }

  lemma {:induction false} ReceivePrefix(aead: Aead, key: Bytes, expected: nat, some: seq<Bytes>, records: seq<Bytes>)
    requires some <= records && !Receive(aead, key, expected, records).failed
    ensures Receive(aead, key, expected, some).packets <= Receive(aead, key, expected, records).packets
    ensures !Receive(aead, key, expected, some).failed
    decreases |some|
  {
    if some != [] {
      assert some[0] == records[0];
      ReceivePrefix(aead, key, expected + 1, some[1..], records[1..]);
    }
  }

  // However the network cuts the bytes, the first k segments give the receiver
  // a prefix of the packets without any error, and all of them give them all.
  lemma TunnelDelivers(aead: Aead, key: Bytes, from: nat, packets: seq<Bytes>, segments: seq<Bytes>, k: nat)
    requires aead.Lawful() && AllSendable(from, packets) && k <= |segments|
    requires Flatten(segments) == Wire(SentRecords(aead, key, from, packets))
    ensures var seen := Decode(Flatten(segments[..k]));
            var got := Receive(aead, key, from, seen.frames);
            && !seen.oversized && !got.failed && got.packets <= packets
            && (k == |segments| ==> seen.rest == [] && got.packets == packets)
  {
    var records := SentRecords(aead, key, from, packets);
    SentWhenAllSendable(aead, key, from, packets);
    assert GapFree(from, packets);
    SessionSurvivesIffGapFree(aead, key, from, packets);
    FlattenAppend(segments[..k], segments[k..]);
    assert segments == segments[..k] + segments[k..];
    DecodePrefix(records, Flatten(segments[..k]));
    ReceivePrefix(aead, key, from, Decode(Flatten(segments[..k])).frames, records);
    if k == |segments| {
      assert segments[..k] == segments;
      DecodeOfWire(records);
    }
  }

  // ---------------------------------------------------------------------
  // The loops that do it
  // ---------------------------------------------------------------------

  lemma {:induction false} ReceiveOneMore(aead: Aead, key: Bytes, expected: nat, records: seq<Bytes>, record: Bytes)
    requires !Receive(aead, key, expected, records).failed
    ensures var packets := Receive(aead, key, expected, records).packets;
            && |packets| == |records|
            && Receive(aead, key, expected, records + [record])
                 == match OpenRecord(aead, key, expected + |records|, record)
                    case Failure(_) => Received(packets, true)
                    case Success(p) => Received(packets + [p], false)
    decreases |records|
  {
    hide OpenRecord;
    ReceiveUnfold(aead, key, expected, records + [record]);
    if records == [] {
      assert (records + [record])[1..] == [];
    } else {
      ReceiveOneMore(aead, key, expected + 1, records[1..], record);
      assert (records + [record])[1..] == records[1..] + [record];
    }
  }

  // The client's reader: each frame is opened and written to the TUN device
  // before the next is drawn, until the stream ends or a record is rejected;
  // `frames` are those it drew.
  method NetToTun(sock: Socket, cipher: SessionCipher, polls: nat)
    returns (tun: seq<Bytes>, failed: bool, ghost frames: seq<Bytes>, ghost taken: Bytes)
    requires sock.Valid()
    modifies sock`arrivals, cipher`receiveSequence
    ensures taken + sock.Incoming() == old(sock.Incoming()) && frames <= Decode(taken).frames
    ensures var got := Receive(cipher.aead, cipher.key, old(cipher.receiveSequence), frames);
            && tun == got.packets && |frames| == |tun| + (if got.failed then 1 else 0)
            && (!got.failed ==> frames == Decode(taken).frames)
            && (failed <==> got.failed || Decode(taken).oversized)
    ensures cipher.receiveSequence == old(cipher.receiveSequence) + |tun|
  {
    hide OpenRecord, Receive, Decode;
    ghost var from := cipher.receiveSequence;
    var reader := new FrameReader(sock, polls);
    tun, frames := [], [];
    ReceiveNothing(cipher.aead, cipher.key, from);
    while true
      invariant reader.Valid() && fresh(reader) && reader.sock == sock && reader.given == frames
      invariant reader.taken + sock.Incoming() == old(sock.Incoming())
      invariant Receive(cipher.aead, cipher.key, from, frames) == Received(tun, false)
      invariant |frames| == |tun| && cipher.receiveSequence == from + |tun|
      decreases |reader.buffer| + |sock.Incoming()|
    {
      var next := reader.Next();
      if next.Ended? {
        return tun, next.ending == Rejected, frames, reader.taken;
      }
      ReceiveOneMore(cipher.aead, cipher.key, from, frames, next.frame);
      frames := frames + [next.frame];
      var packet := cipher.Decrypt(next.frame);
      if packet.Failure? {
        return tun, true, frames, reader.taken;
      }
      tun := tun + [packet.value];
    }
  }
}
