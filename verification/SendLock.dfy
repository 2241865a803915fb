/** PeerConnection.send_packet under contention: the reader threads of other
    peers and the TUN router all send to one peer, one lock between them, and
    the kernel takes the bytes of a frame piece by piece. */
module SendLock {
  import opened Bytes
  import opened Results
  import opened Framing
  import opened SessionCipher
  import opened Tunnel

  type Thread = nat

  // What each thread wants to send, in its own order.
  type Programs = map<Thread, seq<Bytes>>

  datatype Holder = Nobody | Locked(thread: Thread) | Writing(thread: Thread, left: Bytes)

  datatype Sent = Sent(thread: Thread, packet: Bytes)

  // `position` is how many packets of its program a thread has had sealed,
  // `ended` holds the threads an exception ended, and `log` (history) the
  // packets sealed so far, in lock order.
  datatype State = State(
    sequence: nat,
    holder: Holder,
    wire: Bytes,
    position: map<Thread, nat>,
    ended: set<Thread>,
    log: seq<Sent>)

  datatype Action = Acquire(t: Thread) | Seal | Write(count: nat) | Unlock

  datatype Sender = Sender(aead: Aead, key: Bytes, programs: Programs) {
    predicate Waiting(s: State, t: Thread) {
      t in programs && t in s.position && s.position[t] < |programs[t]| && t !in s.ended
    }

    // One atomic step; an action that is not enabled changes nothing.
    function Step(s: State, a: Action): State {
      match a
      case Acquire(t) =>
        if s.holder == Nobody && Waiting(s, t) then s.(holder := Locked(t)) else s
      case Seal =>
        if s.holder.Locked? && Waiting(s, s.holder.thread) then SealNext(s, s.holder.thread) else s
      case Write(count) =>
        if s.holder.Writing? && count <= |s.holder.left|
        then s.(holder := s.holder.(left := s.holder.left[count..]), wire := s.wire + s.holder.left[..count])
        else s
      case Unlock =>
        if s.holder.Writing? && s.holder.left == [] then s.(holder := Nobody) else s
    }

    // Taking the next number; when nothing can be sent under it, the exception
    // releases the lock and ends the thread, and the number stays used.
    function SealNext(s: State, t: Thread): State
      requires Waiting(s, t)
    {
      var packet := programs[t][s.position[t]];
      if Sendable(s.sequence, packet) then
        s.(sequence := s.sequence + 1,
           holder := Writing(t, Frame(Record(aead, key, s.sequence, packet))),
           position := s.position[t := s.position[t] + 1],
           log := s.log + [Sent(t, packet)])
      else
        s.(sequence := s.sequence + 1, holder := Nobody, ended := s.ended + {t})
    }

    function Run(s: State, actions: seq<Action>): State
      decreases |actions|
    {
      if actions == [] then s else Run(Step(s, actions[0]), actions[1..])
    }

    function Start(sequence: nat): State {
      State(sequence, Nobody, [], map t | t in programs :: 0, {}, [])
    }

    // Every packet a thread may send fits a frame: see OpenedPacketFits for
    // the readers; the TUN router reads at most 65535 bytes.
    predicate ProgramsFit() {
      forall t, i :: t in programs && 0 <= i < |programs[t]| ==>
        |programs[t][i]| + RECORD_OVERHEAD <= MAX_FRAME_SIZE
    }

    // What is read from a TUN device always fits.
    lemma TunProgramsFit()
      requires forall t, i :: t in programs && 0 <= i < |programs[t]| ==> |programs[t][i]| <= 65_535
      ensures ProgramsFit()
    {
    }

    predicate Finished(s: State) {
      s.holder == Nobody && forall t :: t in programs ==> !Waiting(s, t)
    }

    ghost predicate WireInv(from: nat, s: State) {
      && s.wire + Unwritten(s) == Wire(SentRecords(aead, key, from, Packets(s.log)))
      && AllSendable(from, Packets(s.log))
      && from + |s.log| <= s.sequence
      && (s.sequence <= TWO_64 ==> s.sequence == from + |s.log|)
    }

    // A thread's packets are sealed in its own order, and only the end of the
    // counter ends a thread.
    ghost predicate OrderInv(s: State) {
      && s.position.Keys == programs.Keys
      && (s.sequence <= TWO_64 ==> s.ended == {})
      && forall t :: t in programs ==>
           s.position[t] <= |programs[t]| && SealedBy(s.log, t) == programs[t][..s.position[t]]
    }

    // Sealing does what send_packet does (SendPacket): the number is used up
    // either way, the frame is what is to be written, and a packet that cannot
    // be sent raises in its thread with the lock released.
    lemma SealIsSendPacket(s: State, t: Thread)
      requires Waiting(s, t) && aead.Lawful()
      ensures var s', packet := SealNext(s, t), programs[t][s.position[t]];
              && s'.sequence == s.sequence + 1 && s'.wire == s.wire
              && Unwritten(s') == Wire(SentRecords(aead, key, s.sequence, [packet]))
              && (if s.sequence < TWO_64 && |packet| + 24 <= 4_194_304
                  then s'.holder.Writing? && s'.holder.thread == t && s'.ended == s.ended && s'.position == s.position[t := s.position[t] + 1]
                       && s'.log == s.log + [Sent(t, packet)]
                  else s'.holder == Nobody && s'.ended == s.ended + {t} && s'.position == s.position && s'.log == s.log)
    {
      hide Record, Frame;
      var packet := programs[t][s.position[t]];
      if Sendable(s.sequence, packet) {
        SentRecordsOne(aead, key, s.sequence, packet);
        WireOne(Record(aead, key, s.sequence, packet));
      } else {
        var rest: seq<Bytes> := [packet][1..];
        assert rest == [];
      }
    }

    // The kernel may take any number of the bytes that are left.
    lemma AnyPieceMayGo(s: State, count: nat)
      requires s.holder.Writing? && count <= |s.holder.left|
      ensures Step(s, Write(count)).wire == s.wire + s.holder.left[..count]
      ensures Unwritten(Step(s, Write(count))) == s.holder.left[count..]
    {
    }

    lemma SealKeepsWire(from: nat, s: State, t: Thread)
      requires ProgramsFit() && Waiting(s, t) && s.holder == Locked(t) && WireInv(from, s)
      ensures WireInv(from, SealNext(s, t))
    {
      hide Record, Frame;
      var packet := programs[t][s.position[t]];
      if Sendable(s.sequence, packet) {
        var before := Packets(s.log);
        var record := Record(aead, key, s.sequence, packet);
        assert Packets(s.log + [Sent(t, packet)]) == before + [packet];
        SentRecordsAppend(aead, key, from, before, [packet]);
        SentRecordsOne(aead, key, s.sequence, packet);
        WireAppend(SentRecords(aead, key, from, before), [record]);
        WireOne(record);
        assert s.wire + [] == s.wire;
      }
    }

    lemma StepKeepsWire(from: nat, s: State, a: Action)
      requires ProgramsFit() && WireInv(from, s)
      ensures WireInv(from, Step(s, a))
    {
      hide Record, Wire, SentRecords;
      if a.Seal? && s.holder.Locked? && Waiting(s, s.holder.thread) {
        SealKeepsWire(from, s, s.holder.thread);
      } else if a.Write? && s.holder.Writing? && a.count <= |s.holder.left| {
        MoveBytes(s.wire, s.holder.left, a.count);
      }
    }

    lemma StepKeepsOrder(s: State, a: Action)
      requires ProgramsFit() && OrderInv(s)
      ensures OrderInv(Step(s, a))
    {
      hide Record, Frame;
      var s' := Step(s, a);
      if s'.log != s.log {
        assert s'.log[..|s'.log| - 1] == s.log;
        var t := s.holder.thread;
        assert programs[t][..s'.position[t]] == programs[t][..s.position[t]] + [programs[t][s.position[t]]];
      }
    }

    lemma {:induction false} RunInvariants(from: nat, s: State, actions: seq<Action>)
      requires ProgramsFit() && WireInv(from, s) && OrderInv(s)
      ensures WireInv(from, Run(s, actions)) && OrderInv(Run(s, actions))
      decreases |actions|
    {
      if actions != [] {
        StepKeepsWire(from, s, actions[0]);
        StepKeepsOrder(s, actions[0]);
        RunInvariants(from, Step(s, actions[0]), actions[1..]);
      }
    }

    // In every interleaving and at every moment, the receiver of what is on
    // the wire sees no error and a prefix of the packets in lock order, each
    // thread's own packets among them in that thread's order.  When no frame is
    // half written it sees all of them, and when every thread is finished
    // before the counter ran out, everything every thread wanted to send.
    lemma EveryInterleavingIsReceived(from: nat, actions: seq<Action>)
      requires aead.Lawful() && from <= TWO_64 && ProgramsFit()
      ensures var s := Run(Start(from), actions);
              var seen := Decode(s.wire);
              var got := Receive(aead, key, from, seen.frames);
              && !seen.oversized && !got.failed && got.packets <= Packets(s.log)
              && (!s.holder.Writing? ==> got.packets == Packets(s.log))
              && (forall t :: t in programs ==> SealedBy(s.log, t) <= programs[t])
              && (Finished(s) && s.sequence <= TWO_64 ==>
                    forall t :: t in programs ==> SealedBy(s.log, t) == programs[t])
    {
      hide Record, Decode;
      assert Packets([]) == [];
      RunInvariants(from, Start(from), actions);
      var s := Run(Start(from), actions);
      var segments := [s.wire, Unwritten(s)];
      assert segments[..1] == [s.wire] && segments[..2] == segments;
      FlattenTwo(s.wire, Unwritten(s));
      TunnelDelivers(aead, key, from, Packets(s.log), segments, 1);
      TunnelDelivers(aead, key, from, Packets(s.log), segments, 2);
      assert !s.holder.Writing? ==> s.wire + Unwritten(s) == s.wire;
    }

    // -----------------------------------------------------------------
    // Nobody waits for ever
    // -----------------------------------------------------------------

    // Only a thread with something to send holds the lock before sealing.
    predicate LockInv(s: State) {
      s.holder.Locked? ==> Waiting(s, s.holder.thread)
    }

    lemma {:induction false} RunKeepsLock(s: State, actions: seq<Action>)
      requires LockInv(s)
      ensures LockInv(Run(s, actions))
      decreases |actions|
    {
      hide Record, Frame;
      if actions != [] {
        RunKeepsLock(Step(s, actions[0]), actions[1..]);
      }
    }

    lemma RunUnfold(s: State, a: Action, more: seq<Action>)
      ensures Run(s, [a] + more) == Run(Step(s, a), more)
      ensures Run(s, []) == s
    {
      hide Step;
      assert ([a] + more)[1..] == more;
    }

    lemma {:induction false} RunAppend(s: State, a: seq<Action>, b: seq<Action>)
      ensures Run(s, a + b) == Run(Run(s, a), b)
      decreases |a|
    {
      hide Step;
      if a == [] {
        assert a + b == b;
      } else {
        RunAppend(Step(s, a[0]), a[1..], b);
        assert (a + b)[1..] == a[1..] + b;
      }
    }

    // A frame being written can be written out, in pieces of any size.
    lemma WriteOut(s: State)
      requires s.holder.Writing?
      ensures Run(s, [Write(|s.holder.left|)] + ([Unlock] + []))
           == s.(holder := Nobody, wire := s.wire + s.holder.left)
    {
      hide Run;
      var s1 := Step(s, Write(|s.holder.left|));
      RunUnfold(s, Write(|s.holder.left|), [Unlock] + []);
      RunUnfold(s1, Unlock, []);
      RunUnfold(Step(s1, Unlock), Unlock, []);
    }

    // Whoever holds the lock can give it back, one packet further or ended.
    lemma ReleaseLock(s: State) returns (actions: seq<Action>)
      requires LockInv(s)
      ensures var s' := Run(s, actions);
              && s'.holder == Nobody && (forall u :: Waiting(s', u) ==> Waiting(s, u))
              && (s.holder.Locked? ==>
                    var t := s.holder.thread;
                    t in s'.ended || (t in s'.position && s'.position[t] == s.position[t] + 1))
    {
      hide Run, Record, Frame;
      if s.holder.Writing? {
        WriteOut(s);
        actions := [Write(|s.holder.left|)] + ([Unlock] + []);
      } else if s.holder.Locked? {
        var s1 := Step(s, Seal);
        if s1.holder.Writing? {
          WriteOut(s1);
          var rest := [Write(|s1.holder.left|)] + ([Unlock] + []);
          RunUnfold(s, Seal, rest);
          actions := [Seal] + rest;
        } else {
          RunUnfold(s, Seal, []);
          RunUnfold(s1, Seal, []);
          actions := [Seal] + [];
        }
      } else {
        RunUnfold(s, Unlock, []);
        actions := [];
      }
    }

    lemma {:induction false} EndOne(s: State, t: Thread) returns (actions: seq<Action>)
      requires s.holder == Nobody
      ensures var s' := Run(s, actions);
              s'.holder == Nobody && !Waiting(s', t) && forall u :: Waiting(s', u) ==> Waiting(s, u)
      decreases if Waiting(s, t) then |programs[t]| - s.position[t] else 0
    {
      hide Run, SealNext;
      if Waiting(s, t) {
        var s1 := Step(s, Acquire(t));
        assert s1 == s.(holder := Locked(t));
        var first := ReleaseLock(s1);
        var s2 := Run(s1, first);
        var more := EndOne(s2, t);
        RunAppend(s1, first, more);
        RunUnfold(s, Acquire(t), first + more);
        actions := [Acquire(t)] + (first + more);
      } else {
        RunUnfold(s, Unlock, []);
        actions := [];
      }
    }

    lemma {:induction false} EndAll(s: State, open: set<Thread>) returns (actions: seq<Action>)
      requires s.holder == Nobody && forall t :: Waiting(s, t) ==> t in open
      ensures Finished(Run(s, actions))
      decreases |open|
    {
      hide Run, Waiting;
      if open == {} {
        RunUnfold(s, Unlock, []);
        actions := [];
      } else {
        var t :| t in open;
        var first := EndOne(s, t);
        var more := EndAll(Run(s, first), open - {t});
        RunAppend(s, first, more);
        actions := first + more;
      }
    }

    // From every moment of every interleaving all threads can come to the end
    // of what they send.
    lemma EveryInterleavingCanFinish(from: nat, actions: seq<Action>) returns (more: seq<Action>)
      ensures Finished(Run(Start(from), actions + more))
    {
      RunKeepsLock(Start(from), actions);
      hide Run;
      var s := Run(Start(from), actions);
      var first := ReleaseLock(s);
      var free := Run(s, first);
      var rest := EndAll(free, programs.Keys);
      RunAppend(s, first, rest);
      RunAppend(Start(from), actions, first + rest);
      more := first + rest;
    }
  }

  function Packets(log: seq<Sent>): seq<Bytes> {
    seq(|log|, i requires 0 <= i < |log| => log[i].packet)
  }

  // The packets one thread has had sealed, in order.
  function SealedBy(log: seq<Sent>, t: Thread): seq<Bytes> {
    if log == [] then [] else
      var front := SealedBy(log[..|log| - 1], t);
      var last := log[|log| - 1];
      if last.thread == t then front + [last.packet] else front
  }

  // Bytes of the current frame that are not on the wire yet.
  function Unwritten(s: State): Bytes {
    if s.holder.Writing? then s.holder.left else []
  }

  lemma MoveBytes(wire: Bytes, left: Bytes, count: nat)
    requires count <= |left|
    ensures (wire + left[..count]) + left[count..] == wire + left
  {
  }

  lemma {:induction false} SentRecordsAppend(aead: Aead, key: Bytes, from: nat, a: seq<Bytes>, b: seq<Bytes>)
    ensures SentRecords(aead, key, from, a + b)
         == SentRecords(aead, key, from, a) + SentRecords(aead, key, from + |a|, b)
    decreases |a|
  {
    hide Record;
    if a == [] {
      assert a + b == b;
    } else {
      SentRecordsAppend(aead, key, from + 1, a[1..], b);
      Uncons(a, b);
    }
  }

  lemma SentRecordsOne(aead: Aead, key: Bytes, n: nat, packet: Bytes)
    requires Sendable(n, packet)
    ensures SentRecords(aead, key, n, [packet]) == [Record(aead, key, n, packet)]
  {
    hide Record;
    var rest: seq<Bytes> := [packet][1..];
    assert rest == [];
  }
}
