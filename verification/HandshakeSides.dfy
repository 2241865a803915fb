/** client_handshake and server_handshake as they run: on a socket, with the
    cipher objects that go on to carry the session.  On every incoming stream
    each does what its half of the state machine does with the frames of it. */
module HandshakeSides {
  import opened Bytes
  import opened Results
  import opened Framing
  import opened SessionCipher
  import opened Handshake
  import opened HandshakeProtocol

  // What a handshake returns.
  datatype Established = Established(
    sendCipher: SessionCipher, receiveCipher: SessionCipher,
    cipher: CipherName, keyExchange: KeyExchange, vpnIp: string, tag: string)
  {
    // Each direction has a cipher of its own, with the session's key and counter.
    ghost predicate Carries(c: Crypto, s: Session, tag: string)
      reads sendCipher, receiveCipher
    {
      && Ciphers(c, s, sendCipher, receiveCipher)
      && cipher == s.cipher && keyExchange == s.keyExchange && vpnIp == s.vpnIp && this.tag == tag
    }
  }

  ghost predicate Ciphers(c: Crypto, s: Session, sendCipher: SessionCipher, receiveCipher: SessionCipher)
    reads sendCipher, receiveCipher
  {
    && sendCipher != receiveCipher
    && sendCipher.aead == receiveCipher.aead == c.aead(s.cipher)
    && sendCipher.key == s.sendKey && sendCipher.sendSequence == s.sent && sendCipher.receiveSequence == 0
    && receiveCipher.key == s.receiveKey && receiveCipher.receiveSequence == s.received && receiveCipher.sendSequence == 0
  }

  // ---------------------------------------------------------------------
  // One half of the state machine
  // ---------------------------------------------------------------------

  function Alone(c: Config, s: State, side: Side, n: nat): State
    decreases n
  {
    if n == 0 then s else Alone(c, Step(c, s, side), side, n - 1)
  }

  // A side given these frames by a peer that then closes the connection.
  function ServerGiven(c: Config, frames: seq<Bytes>): State {
    Alone(c, State(ClientFailed, ServerStart, frames, []), TheServer, 6)
  }

  function ClientGiven(c: Config, frames: seq<Bytes>): State {
    Alone(c, State(ClientStart, ServerFailed, [], frames), TheClient, 6)
  }

  lemma {:induction false} AloneWhenOver(c: Config, s: State, side: Side, n: nat)
    requires Over(s, side)
    ensures Alone(c, s, side, n) == s
  {
    hide ClientStep, ServerStep;
    if n > 0 {
      AloneWhenOver(c, s, side, n - 1);
    }
  }

  // Following one side step by step.
  lemma Advance(c: Config, s: State, side: Side, n: nat) returns (t: State)
    requires n > 0
    ensures t == Step(c, s, side) && Alone(c, s, side, n) == Alone(c, t, side, n - 1)
    ensures Over(t, side) ==> Alone(c, s, side, n) == t
  {
    hide Step, Over;
    t := Step(c, s, side);
    if Over(t, side) {
      AloneWhenOver(c, t, side, n - 1);
    }
  }

  // The stream behind its first n frames.
  function After(stream: Bytes, n: nat): Bytes {
    if n == 0 then stream
    else match NextFrame(stream)
      case Complete(_, rest) => After(rest, n - 1)
      case _ => stream
  }

  lemma {:induction false} AfterOneMore(stream: Bytes, n: nat)
    ensures After(stream, n + 1) == After(After(stream, n), 1)
    decreases n
  {
    hide NextFrame;
    if n > 0 && NextFrame(stream).Complete? {
      AfterOneMore(NextFrame(stream).rest, n - 1);
    }
  }

  lemma {:induction false} AfterFrames(frames: seq<Bytes>, tail: Bytes)
    requires AllFit(frames)
    ensures After(Wire(frames) + tail, |frames|) == tail
    ensures Decode(Wire(frames) + tail).frames == frames + Decode(tail).frames
  {
    hide Frame, NextFrame, Decode;
    if frames == [] {
      assert Wire(frames) + tail == tail;
    } else {
      AfterFrames(frames[1..], tail);
      Regroup(Frame(frames[0]), Wire(frames[1..]), tail);
      NextOfFrame(frames[0], Wire(frames[1..]) + tail);
      DecodeUnfold(Wire(frames) + tail);
      assert frames == [frames[0]] + frames[1..];
      Regroup([frames[0]], frames[1..], Decode(tail).frames);
    }
  }

  // ---------------------------------------------------------------------
  // The two programs
  // ---------------------------------------------------------------------

  method TakeFrame(sock: Socket) returns (r: Option<Bytes>)
    requires sock.Valid()
    modifies sock`arrivals
    ensures sock.Valid()
    ensures var queue := Decode(old(sock.Incoming())).frames;
            && (r.Some? <==> queue != [])
            && (r.Some? ==> r.value == queue[0] && Decode(sock.Incoming()).frames == queue[1..])
    ensures r.Some? ==> sock.Incoming() == After(old(sock.Incoming()), 1)
  {
    hide NextFrame, Decode;
    DecodeUnfold(sock.Incoming());
    var frame := RecvFrame(sock);
    return if frame.Success? then Some(frame.value) else None;
  }

  method SendSealed(sock: Socket, cipher: SessionCipher, text: Bytes) returns (ok: bool)
    requires cipher.sendSequence < TWO_64
    modifies sock`written, cipher`sendSequence
    ensures cipher.sendSequence == old(cipher.sendSequence) + 1
    ensures var record := Record(cipher.aead, cipher.key, old(cipher.sendSequence), text);
            && (ok <==> Fits(record))
            && sock.written == old(sock.written) + (if ok then Frame(record) else [])
  {
    hide Record, Frame;
    var record := cipher.Encrypt(text);
    var sent := SendFrame(sock, record.value);
    return sent.Success?;
  }

  method TakeSealed(sock: Socket, cipher: SessionCipher) returns (r: Option<Bytes>)
    requires sock.Valid()
    modifies sock`arrivals, cipher`receiveSequence
    ensures sock.Valid()
    ensures var queue := Decode(old(sock.Incoming())).frames;
            && (r.Some? <==> queue != [] && OpenRecord(cipher.aead, cipher.key, old(cipher.receiveSequence), queue[0]).Success?)
            && (r.Some? ==> r.value == OpenRecord(cipher.aead, cipher.key, old(cipher.receiveSequence), queue[0]).value
                            && Decode(sock.Incoming()).frames == queue[1..])
    ensures r.Some? ==> cipher.receiveSequence == old(cipher.receiveSequence) + 1
    ensures r.Some? ==> sock.Incoming() == After(old(sock.Incoming()), 1)
  {
    hide OpenRecord, Decode, After;
    var frame := TakeFrame(sock);
    if frame.None? {
      return None;
    }
    var text := cipher.Decrypt(frame.value);
    return if text.Success? then Some(text.value) else None;
  }

  lemma KeysAreWhole(c: Config, shared: Bytes, hash: Bytes, hello: Message, client: bool, clientNonce: Bytes)
    requires c.Valid() && hello.ServerHello?
    ensures var s := MakeSession(c.crypto, shared, hash, hello, client, clientNonce);
            |s.sendKey| == |s.receiveKey| == 32 && s.sent == s.received == 0
  {
    hide Ascii;
    assert c.crypto.DerivationLaw(shared, c.crypto.sha256(Ascii("vpn session salt v1") + clientNonce + hello.nonce),
                                  Ascii("vpn session keys v1") + hash, 64);
  }

  lemma ServerStarts(c: Config, frame: Bytes)
    requires c.Valid() && ServerOnHello(c, frame).SendHello?
    ensures var s := ServerOnHello(c, frame).s; |s.sendKey| == |s.receiveKey| == 32 && s.sent == s.received == 0
  {
    hide Crypto.ServerResponse, Ascii, MakeSession;
    var hello := c.crypto.decode(frame).value;
    var answer := c.crypto.ServerResponse(hello.keyExchange, hello.payload, c.serverPrivate, c.serverChain, c.secret, c.coins).value;
    var reply := ServerHello(PROTOCOL_VERSION, hello.keyExchange, hello.cipher, c.serverNonce, c.vpnIp, answer.1);
    KeysAreWhole(c, answer.0, c.crypto.sha256(frame + c.crypto.encode(reply)), reply, false, hello.nonce);
  }

  lemma ClientStarts(c: Config, frame: Bytes)
    requires c.Valid() && ClientOnHello(c, frame).AwaitFinished?
    ensures var s := ClientOnHello(c, frame).s; |s.sendKey| == |s.receiveKey| == 32 && s.sent == s.received == 0
  {
    hide Crypto.ClientFinish, Crypto.ClientPayload, Ascii, MakeSession;
    var hello, own := c.crypto.decode(frame).value, ClientHelloOf(c);
    var shared := c.crypto.ClientFinish(c.keyExchange, c.clientPrivate, c.clientChain, own.payload, hello.payload).value;
    KeysAreWhole(c, shared, c.crypto.sha256(c.crypto.encode(own) + frame), hello, true, c.clientNonce);
  }

  // The answer to the client hello; the keys are derived once it is out.
  method AnswerHello(c: Config, sock: Socket) returns (r: Option<Session>)
    requires sock.Valid()
    modifies sock
    ensures sock.Valid()
    ensures var queue := Decode(old(sock.Incoming())).frames;
            && (r.Some? <==> queue != [] && ServerOnHello(c, queue[0]).SendHello? && Fits(ServerOnHello(c, queue[0]).frame))
            && (r.Some? ==>
                  && r.value == ServerOnHello(c, queue[0]).s
                  && Decode(sock.Incoming()).frames == queue[1..] && sock.Incoming() == After(old(sock.Incoming()), 1)
                  && sock.written == old(sock.written) + Frame(ServerOnHello(c, queue[0]).frame))
  {
    hide ServerOnHello, Decode, After, Frame;
    var hello := TakeFrame(sock);
    if hello.None? {
      return None;
    }
    var answer := ServerOnHello(c, hello.value);
    if !answer.SendHello? {
      return None;
    }
    var sent := SendFrame(sock, answer.frame);
    return if sent.Success? then Some(answer.s) else None;
  }

  // The server confirms first.
  method ConfirmAsServer(c: Config, sock: Socket, k: Session, sendCipher: SessionCipher, receiveCipher: SessionCipher)
    returns (ok: bool)
    requires sock.Valid() && k.sent == k.received == 0 && Ciphers(c.crypto, k, sendCipher, receiveCipher)
    modifies sock, sendCipher, receiveCipher
    ensures sock.Valid()
    ensures var queue, sent := Decode(old(sock.Incoming())).frames, Seal(c.crypto, k, Finished(k.hash));
            && (ok <==> Fits(sent) && queue != [] && ServerOnFinished(c, At(k, 1, 0), queue[0]).AwaitAuth?)
            && (ok ==>
                  && Ciphers(c.crypto, At(k, 1, 1), sendCipher, receiveCipher)
                  && Decode(sock.Incoming()).frames == queue[1..] && sock.Incoming() == After(old(sock.Incoming()), 1)
                  && sock.written == old(sock.written) + Frame(sent))
  {
    hide Decode, After, Frame, Record, OpenRecord, Ascii;
    var confirmation := Finished(k.hash);
    ok := SendSealed(sock, sendCipher, confirmation);
    if ok {
      var confirmed := TakeSealed(sock, receiveCipher);
      ok := confirmed == Some(confirmation);
    }
  }

  // The device's key and signature, and its tag in return.
  method AuthenticateDevice(c: Config, sock: Socket, k: Session, sendCipher: SessionCipher, receiveCipher: SessionCipher)
    returns (tag: Option<string>)
    requires sock.Valid() && k.sent == k.received == 1 && Ciphers(c.crypto, k, sendCipher, receiveCipher)
    modifies sock, sendCipher, receiveCipher
    ensures sock.Valid()
    ensures var queue, sent := Decode(old(sock.Incoming())).frames, Seal(c.crypto, At(k, 1, 2), c.crypto.encode(DeviceAuthOk(c.tag)));
            && (tag.Some? <==> queue != [] && ServerOnAuth(c, k, queue[0]).SendAck? && Fits(sent))
            && (tag.Some? ==>
                  && tag.value == c.tag
                  && Ciphers(c.crypto, At(k, 2, 2), sendCipher, receiveCipher)
                  && sock.Incoming() == After(old(sock.Incoming()), 1)
                  && sock.written == old(sock.written) + Frame(sent))
  {
    hide Decode, After, Frame, Record, OpenRecord, Ascii, SignedBinding;
    var text := TakeSealed(sock, receiveCipher);
    if text.None? {
      return None;
    }
    var auth := c.crypto.decode(text.value);
    if auth.None? || !auth.value.DeviceAuth? || |auth.value.encryptionKey| != 32 || |auth.value.publicKey| != 32 {
      return None;
    }
    var binding := SignedBinding(k, auth.value.publicKey, auth.value.encryptionKey);
    if !c.crypto.verify(auth.value.publicKey, binding, auth.value.signature) {
      return None;
    }
    var sent := SendSealed(sock, sendCipher, c.crypto.encode(DeviceAuthOk(c.tag)));
    return if sent then Some(c.tag) else None;
  }

  method ServerHandshake(c: Config, sock: Socket) returns (r: Option<Established>)
    requires c.Valid() && sock.Valid()
    modifies sock
    ensures sock.Valid()
    ensures var final := ServerGiven(c, Decode(old(sock.Incoming())).frames);
            && (r.Some? <==> final.server.ServerDone? && AllFit(final.toClient))
            && (r.Some? ==>
                  && r.value.Carries(c.crypto, final.server.s, final.server.tag)
                  && fresh(r.value.sendCipher) && fresh(r.value.receiveCipher)
                  && sock.written == old(sock.written) + Wire(final.toClient)
                  && sock.Incoming() == After(old(sock.Incoming()), 3))
  {
    hide ServerGiven, ServerOnHello, ServerOnFinished, ServerOnAuth, Seal, Finished, Decode, After, Frame, Wire,
      Fits, AllFit, Crypto.Lawful, Socket.Incoming;
    ghost var queue := Decode(sock.Incoming()).frames;
    ServerOutcome(c, queue);
    AfterThree(sock.Incoming());
    var k := AnswerHello(c, sock);
    if k.None? {
      return None;
    }
    ServerStarts(c, queue[0]);
    var sendCipher := new SessionCipher(c.crypto.aead(k.value.cipher), k.value.sendKey);
    var receiveCipher := new SessionCipher(c.crypto.aead(k.value.cipher), k.value.receiveKey);
    var ok := ConfirmAsServer(c, sock, k.value, sendCipher, receiveCipher);
    if !ok {
      return None;
    }
    var tag := AuthenticateDevice(c, sock, At(k.value, 1, 1), sendCipher, receiveCipher);
    if tag.None? {
      return None;
    }
    return Some(Established(sendCipher, receiveCipher, k.value.cipher, k.value.keyExchange, c.vpnIp, tag.value));
  }

  method GreetServer(c: Config, sock: Socket) returns (r: Option<Session>)
    requires sock.Valid()
    modifies sock
    ensures sock.Valid()
    ensures var queue, hello := Decode(old(sock.Incoming())).frames, c.crypto.encode(ClientHelloOf(c));
            && (r.Some? <==> Fits(hello) && queue != [] && ClientOnHello(c, queue[0]).AwaitFinished?)
            && (r.Some? ==>
                  && r.value == ClientOnHello(c, queue[0]).s
                  && Decode(sock.Incoming()).frames == queue[1..] && sock.Incoming() == After(old(sock.Incoming()), 1)
                  && sock.written == old(sock.written) + Frame(hello))
  {
    hide ClientOnHello, ClientHelloOf, Decode, After, Frame;
    var sent := SendFrame(sock, c.crypto.encode(ClientHelloOf(c)));
    if sent.Failure? {
      return None;
    }
    var hello := TakeFrame(sock);
    if hello.None? {
      return None;
    }
    var next := ClientOnHello(c, hello.value);
    return if next.AwaitFinished? then Some(next.s) else None;
  }

  // The client confirms what the server has confirmed.
  method ConfirmAsClient(c: Config, sock: Socket, k: Session, sendCipher: SessionCipher, receiveCipher: SessionCipher)
    returns (ok: bool)
    requires sock.Valid() && k.sent == k.received == 0 && Ciphers(c.crypto, k, sendCipher, receiveCipher)
    modifies sock, sendCipher, receiveCipher
    ensures sock.Valid()
    ensures var queue, sent := Decode(old(sock.Incoming())).frames, Seal(c.crypto, At(k, 0, 1), Finished(k.hash));
            && (ok <==> queue != [] && ClientOnFinished(c, k, queue[0]).SendFinished? && Fits(sent))
            && (ok ==>
                  && Ciphers(c.crypto, At(k, 1, 1), sendCipher, receiveCipher)
                  && Decode(sock.Incoming()).frames == queue[1..] && sock.Incoming() == After(old(sock.Incoming()), 1)
                  && sock.written == old(sock.written) + Frame(sent))
  {
    hide Decode, After, Frame, Record, OpenRecord, Ascii;
    var confirmation := Finished(k.hash);
    var confirmed := TakeSealed(sock, receiveCipher);
    ok := confirmed == Some(confirmation);
    if ok {
      ok := SendSealed(sock, sendCipher, confirmation);
    }
  }

  method ProveDevice(c: Config, sock: Socket, k: Session, sendCipher: SessionCipher, receiveCipher: SessionCipher)
    returns (tag: Option<string>)
    requires sock.Valid() && k.sent == k.received == 1 && Ciphers(c.crypto, k, sendCipher, receiveCipher)
    modifies sock, sendCipher, receiveCipher
    ensures sock.Valid()
    ensures var queue, sent := Decode(old(sock.Incoming())).frames, Seal(c.crypto, k, c.crypto.encode(AuthMessage(c, k)));
            && (tag.Some? <==> Fits(sent) && queue != [] && ClientOnAck(c, At(k, 2, 1), queue[0]).ClientDone?)
            && (tag.Some? ==>
                  && tag.value == ClientOnAck(c, At(k, 2, 1), queue[0]).tag
                  && Ciphers(c.crypto, At(k, 2, 2), sendCipher, receiveCipher)
                  && sock.Incoming() == After(old(sock.Incoming()), 1)
                  && sock.written == old(sock.written) + Frame(sent))
  {
    hide Decode, After, Frame, Record, OpenRecord, Ascii, SignedBinding;
    var publicKey, encryptionKey := c.crypto.edPublic(c.device), c.crypto.xPublic(c.encryption);
    var signature := c.crypto.sign(c.device, SignedBinding(k, publicKey, encryptionKey));
    var sent := SendSealed(sock, sendCipher, c.crypto.encode(DeviceAuth(publicKey, encryptionKey, signature)));
    if !sent {
      return None;
    }
    var text := TakeSealed(sock, receiveCipher);
    if text.None? {
      return None;
    }
    var ack := c.crypto.decode(text.value);
    if ack.None? || !ack.value.DeviceAuthOk? || ack.value.tag == "" {
      return None;
    }
    return Some(ack.value.tag);
  }

  method ClientHandshake(c: Config, sock: Socket) returns (r: Option<Established>)
    requires c.Valid() && sock.Valid()
    modifies sock
    ensures sock.Valid()
    ensures var final := ClientGiven(c, Decode(old(sock.Incoming())).frames);
            && (r.Some? <==> final.client.ClientDone? && AllFit(final.toServer))
            && (r.Some? ==>
                  && r.value.Carries(c.crypto, final.client.s, final.client.tag)
                  && fresh(r.value.sendCipher) && fresh(r.value.receiveCipher)
                  && sock.written == old(sock.written) + Wire(final.toServer)
                  && sock.Incoming() == After(old(sock.Incoming()), 3))
  {
    hide ClientGiven, ClientOnHello, ClientOnFinished, ClientOnAck, AuthMessage, ClientHelloOf, Seal, Finished, Decode, After, Frame, Wire,
      Fits, AllFit, Crypto.Lawful, Socket.Incoming;
    ghost var queue := Decode(sock.Incoming()).frames;
    ClientOutcome(c, queue);
    AfterThree(sock.Incoming());
    var k := GreetServer(c, sock);
    if k.None? {
      return None;
    }
    ClientStarts(c, queue[0]);
    var sendCipher := new SessionCipher(c.crypto.aead(k.value.cipher), k.value.sendKey);
    var receiveCipher := new SessionCipher(c.crypto.aead(k.value.cipher), k.value.receiveKey);
    var ok := ConfirmAsClient(c, sock, k.value, sendCipher, receiveCipher);
    if !ok {
      return None;
    }
    var tag := ProveDevice(c, sock, At(k.value, 1, 1), sendCipher, receiveCipher);
    if tag.None? {
      return None;
    }
    return Some(Established(sendCipher, receiveCipher, k.value.cipher, k.value.keyExchange, k.value.vpnIp, tag.value));
  }

  // When the client's half of the state machine succeeds, frame by frame.
  predicate ClientAccepts(c: Config, queue: seq<Bytes>) {
    && Fits(c.crypto.encode(ClientHelloOf(c)))
    && queue != [] && ClientOnHello(c, queue[0]).AwaitFinished?
    && var k := ClientOnHello(c, queue[0]).s;
    && |queue| > 1 && ClientOnFinished(c, k, queue[1]).SendFinished?
    && Fits(Seal(c.crypto, At(k, 0, 1), Finished(k.hash)))
    && Fits(Seal(c.crypto, At(k, 1, 1), c.crypto.encode(AuthMessage(c, At(k, 1, 1)))))
    && |queue| > 2 && ClientOnAck(c, At(k, 2, 1), queue[2]).ClientDone?
  }

  lemma ClientOutcome(c: Config, queue: seq<Bytes>)
    ensures var final := ClientGiven(c, queue);
            && (ClientAccepts(c, queue) <==> final.client.ClientDone? && AllFit(final.toServer))
            && (ClientAccepts(c, queue) ==>
                  var k := ClientOnHello(c, queue[0]).s;
                  && final.client == ClientDone(At(k, 2, 2), ClientOnAck(c, At(k, 2, 1), queue[2]).tag)
                  && Wire(final.toServer) == Frame(c.crypto.encode(ClientHelloOf(c)))
                                             + Frame(Seal(c.crypto, At(k, 0, 1), Finished(k.hash)))
                                             + Frame(Seal(c.crypto, At(k, 1, 1), c.crypto.encode(AuthMessage(c, At(k, 1, 1))))))
  {
    hide ClientGiven, ClientOnHello, ClientOnFinished, ClientOnAck, Frame, Seal, Wire, Alone, Fits, AllFit, Finished, AuthMessage, ClientHelloOf;
    var hello := c.crypto.encode(ClientHelloOf(c));
    ClientAtHello(c, queue);
    if queue != [] && ClientOnHello(c, queue[0]).AwaitFinished? {
      ClientReplies(c, queue[0]);
      var k := ClientOnHello(c, queue[0]).s;
      ClientAtConfirmation(c, k, queue[1..], [hello]);
      if |queue| > 1 && ClientOnFinished(c, k, queue[1]).SendFinished? {
        var second := Seal(c.crypto, At(k, 0, 1), Finished(k.hash));
        var third := Seal(c.crypto, At(k, 1, 1), c.crypto.encode(AuthMessage(c, At(k, 1, 1))));
        assert queue[1..][1..] == queue[2..];
        ClientAtAuthentication(c, At(k, 1, 1), queue[2..], [hello] + [second]);
        if |queue| > 2 {
          ClientGoesOn(c, At(k, 2, 1), queue[2]);
        }
        assert [hello] + [second] + [third] == [hello, second, third];
        WireOfThree(hello, second, third);
      }
    }
  }

  lemma ClientAtHello(c: Config, queue: seq<Bytes>)
    ensures if queue != [] && ClientOnHello(c, queue[0]).AwaitFinished?
            then ClientGiven(c, queue)
                   == Alone(c, State(ClientOnHello(c, queue[0]), ServerFailed, [c.crypto.encode(ClientHelloOf(c))], queue[1..]), TheClient, 4)
            else ClientGiven(c, queue).client.ClientFailed?
  {
    hide ClientOnHello, ClientOnFinished, ClientOnAck, ServerStep, Alone, ClientHelloOf;
    if queue != [] {
      ClientReplies(c, queue[0]);
    }
    var s := Advance(c, State(ClientStart, ServerFailed, [], queue), TheClient, 6);
    assert s.toServer == [c.crypto.encode(ClientHelloOf(c))];
    s := Advance(c, s, TheClient, 5);
  }

  lemma ClientAtConfirmation(c: Config, k: Session, queue: seq<Bytes>, sent: seq<Bytes>)
    ensures var final := Alone(c, State(AwaitFinished(k), ServerFailed, sent, queue), TheClient, 4);
            if queue != [] && ClientOnFinished(c, k, queue[0]).SendFinished?
            then final == Alone(c, State(SendAuth(At(k, k.sent + 1, k.received + 1)), ServerFailed,
                                         sent + [Seal(c.crypto, At(k, k.sent, k.received + 1), Finished(k.hash))],
                                         queue[1..]), TheClient, 2)
            else final.client.ClientFailed?
  {
    hide ClientOnHello, ClientOnFinished, ClientOnAck, ServerStep, Alone, Seal, Finished;
    if queue != [] {
      ClientGoesOn(c, k, queue[0]);
    }
    var s := Advance(c, State(AwaitFinished(k), ServerFailed, sent, queue), TheClient, 4);
    s := Advance(c, s, TheClient, 3);
  }

  lemma ClientAtAuthentication(c: Config, k: Session, queue: seq<Bytes>, sent: seq<Bytes>)
    ensures var final := Alone(c, State(SendAuth(k), ServerFailed, sent, queue), TheClient, 2);
            var next := At(k, k.sent + 1, k.received);
            if queue != [] && ClientOnAck(c, next, queue[0]).ClientDone?
            then final == State(ClientOnAck(c, next, queue[0]), ServerFailed,
                                sent + [Seal(c.crypto, k, c.crypto.encode(AuthMessage(c, k)))], queue[1..])
            else final.client.ClientFailed?
  {
    hide ClientOnHello, ClientOnFinished, ClientOnAck, ServerStep, Alone, Seal, AuthMessage;
    if queue != [] {
      ClientGoesOn(c, At(k, k.sent + 1, k.received), queue[0]);
    }
    var s := Advance(c, State(SendAuth(k), ServerFailed, sent, queue), TheClient, 2);
    s := Advance(c, s, TheClient, 1);
  }

  lemma ClientReplies(c: Config, frame: Bytes)
    ensures var next := ClientOnHello(c, frame);
            next.ClientFailed? || (next.AwaitFinished? && next.s.sent == next.s.received == 0)
  {
    hide Crypto.ClientFinish, Ascii, SessionKeys, ClientHelloOf;
  }

  lemma ClientGoesOn(c: Config, k: Session, frame: Bytes)
    ensures ClientOnFinished(c, k, frame) == HandshakeProtocol.SendFinished(At(k, k.sent, k.received + 1))
         || ClientOnFinished(c, k, frame).ClientFailed?
    ensures var next := ClientOnAck(c, k, frame);
            next.ClientFailed? || (next.ClientDone? && next.s == At(k, k.sent, k.received + 1))
  {
    hide Open, Finished;
  }

  lemma AfterThree(stream: Bytes)
    ensures After(stream, 3) == After(After(After(stream, 1), 1), 1)
  {
    hide NextFrame;
    AfterOneMore(stream, 1);
    AfterOneMore(stream, 2);
  }

  // When the server's half of the state machine succeeds, frame by frame.
  predicate ServerAccepts(c: Config, queue: seq<Bytes>) {
    && queue != [] && ServerOnHello(c, queue[0]).SendHello? && Fits(ServerOnHello(c, queue[0]).frame)
    && var k := ServerOnHello(c, queue[0]).s;
    && Fits(Seal(c.crypto, k, Finished(k.hash)))
    && |queue| > 1 && ServerOnFinished(c, At(k, 1, 0), queue[1]).AwaitAuth?
    && |queue| > 2 && ServerOnAuth(c, At(k, 1, 1), queue[2]).SendAck?
    && Fits(Seal(c.crypto, At(k, 1, 2), c.crypto.encode(DeviceAuthOk(c.tag))))
  }

  lemma ServerOutcome(c: Config, queue: seq<Bytes>)
    ensures var final := ServerGiven(c, queue);
            && (ServerAccepts(c, queue) <==> final.server.ServerDone? && AllFit(final.toClient))
            && (ServerAccepts(c, queue) ==>
                  var answer := ServerOnHello(c, queue[0]);
                  && final.server == ServerDone(At(answer.s, 2, 2), c.tag)
                  && answer.s.vpnIp == c.vpnIp
                  && Wire(final.toClient) == Frame(answer.frame) + Frame(Seal(c.crypto, answer.s, Finished(answer.s.hash)))
                                             + Frame(Seal(c.crypto, At(answer.s, 1, 2), c.crypto.encode(DeviceAuthOk(c.tag)))))
  {
    hide ServerGiven, ServerOnHello, ServerOnFinished, ServerOnAuth, Frame, Seal, Wire, Alone, Fits, AllFit, Finished;
    ServerAtHello(c, queue);
    if queue != [] && ServerOnHello(c, queue[0]).SendHello? {
      ServerReplies(c, queue[0]);
      var answer, k := ServerOnHello(c, queue[0]), ServerOnHello(c, queue[0]).s;
      ServerAtConfirmation(c, k, queue[1..], [answer.frame]);
      if |queue| > 1 && ServerOnFinished(c, At(k, 1, 0), queue[1]).AwaitAuth? {
        var second := Seal(c.crypto, k, Finished(k.hash));
        var third := Seal(c.crypto, At(k, 1, 2), c.crypto.encode(DeviceAuthOk(c.tag)));
        assert queue[1..][1..] == queue[2..];
        ServerAtAuthentication(c, At(k, 1, 1), queue[2..], [answer.frame] + [second]);
        assert [answer.frame] + [second] + [third] == [answer.frame, second, third];
        WireOfThree(answer.frame, second, third);
      }
    }
  }

  lemma ServerAtHello(c: Config, queue: seq<Bytes>)
    ensures if queue != [] && ServerOnHello(c, queue[0]).SendHello?
            then var answer := ServerOnHello(c, queue[0]);
                 ServerGiven(c, queue)
                   == Alone(c, State(ClientFailed, SendServerFinished(answer.s), queue[1..], [answer.frame]), TheServer, 4)
            else ServerGiven(c, queue).server.ServerFailed?
  {
    hide ServerOnHello, ServerOnFinished, ServerOnAuth, ClientStep, Alone;
    if queue != [] {
      ServerReplies(c, queue[0]);
    }
    var s := Advance(c, State(ClientFailed, ServerStart, queue, []), TheServer, 6);
    if s.server.SendHello? {
      assert [] + [s.server.frame] == [s.server.frame];
      s := Advance(c, s, TheServer, 5);
    }
  }

  lemma ServerAtConfirmation(c: Config, k: Session, queue: seq<Bytes>, sent: seq<Bytes>)
    ensures var final := Alone(c, State(ClientFailed, SendServerFinished(k), queue, sent), TheServer, 4);
            if queue != [] && ServerOnFinished(c, At(k, k.sent + 1, k.received), queue[0]).AwaitAuth?
            then final == Alone(c, State(ClientFailed, AwaitAuth(At(k, k.sent + 1, k.received + 1)), queue[1..],
                                         sent + [Seal(c.crypto, k, Finished(k.hash))]), TheServer, 2)
            else final.server.ServerFailed?
  {
    hide ServerOnHello, ServerOnFinished, ServerOnAuth, ClientStep, Alone, Seal, Finished;
    var s := Advance(c, State(ClientFailed, SendServerFinished(k), queue, sent), TheServer, 4);
    if queue != [] {
      ServerGoesOn(c, At(k, k.sent + 1, k.received), queue[0]);
    }
    s := Advance(c, s, TheServer, 3);
  }

  lemma ServerAtAuthentication(c: Config, k: Session, queue: seq<Bytes>, sent: seq<Bytes>)
    ensures var final := Alone(c, State(ClientFailed, AwaitAuth(k), queue, sent), TheServer, 2);
            if queue != [] && ServerOnAuth(c, k, queue[0]).SendAck?
            then var next := At(k, k.sent, k.received + 1);
                 final == State(ClientFailed, ServerDone(At(k, k.sent + 1, k.received + 1), c.tag), queue[1..],
                                sent + [Seal(c.crypto, next, c.crypto.encode(DeviceAuthOk(c.tag)))])
            else final.server.ServerFailed?
  {
    hide ServerOnHello, ServerOnFinished, ServerOnAuth, ClientStep, Alone, Seal;
    if queue != [] {
      ServerGoesOn(c, k, queue[0]);
    }
    var s := Advance(c, State(ClientFailed, AwaitAuth(k), queue, sent), TheServer, 2);
    s := Advance(c, s, TheServer, 1);
  }

  lemma ServerGoesOn(c: Config, k: Session, frame: Bytes)
    ensures ServerOnFinished(c, k, frame) == AwaitAuth(At(k, k.sent, k.received + 1)) || ServerOnFinished(c, k, frame).ServerFailed?
    ensures ServerOnAuth(c, k, frame) == SendAck(At(k, k.sent, k.received + 1), c.tag) || ServerOnAuth(c, k, frame).ServerFailed?
  {
    hide Open, Finished, SignedBinding;
  }

  lemma ServerReplies(c: Config, frame: Bytes)
    ensures var next := ServerOnHello(c, frame);
            next.ServerFailed? || (next.SendHello? && next.s.sent == next.s.received == 0 && next.s.vpnIp == c.vpnIp)
  {
    hide Crypto.ServerResponse, Ascii, SessionKeys;
  }

  lemma WireOfThree(a: Bytes, b: Bytes, c: Bytes)
    ensures Wire([a, b, c]) == Frame(a) + Frame(b) + Frame(c)
    ensures AllFit([a, b, c]) <==> Fits(a) && Fits(b) && Fits(c)
  {
    hide Wire, Frame, Fits;
    var three := [a, b, c];
    assert three[0] == a && three[1] == b && three[2] == c;
    WireOne(a);
    WireAppend([a], [b]);
    WireAppend([a] + [b], [c]);
    WireOne(b);
    WireOne(c);
    assert [a] + [b] + [c] == [a, b, c];
  }

  // ---------------------------------------------------------------------
  // Meeting the other side
  // ---------------------------------------------------------------------

  // Given the bytes of a client whose selection it answers, the server
  // succeeds with the session of CompatibleSidesAgree, writes its three
  // frames and leaves unread whatever the client sent after its own.
  lemma ServerMeetsClient(c: Config, tail: Bytes)
    requires c.Valid() && Answer(c).SendHello? && AllFit(ClientFrames(c))
    ensures var stream := Wire(ClientFrames(c)) + tail;
            var final := ServerGiven(c, Decode(stream).frames);
            final.server == ServerAt(c, 6) && final.toClient == ServerFrames(c) && After(stream, 3) == tail
  {
    hide ServerGiven, Ascii, Seal, Wire, Decode, After, ServerOnHello, ServerOnFinished, ServerOnAuth, ClientHelloOf, Finished, Alone, Fits;
    var frames := ClientFrames(c);
    AfterFrames(frames, tail);
    var queue := frames + Decode(Wire(frames) + tail).frames[3..];
    BaseCounters(c);
    ServerReads(c, 0);
    ServerReads(c, 3);
    ServerReads(c, 4);
    ServerAtHello(c, queue);
    ServerAtConfirmation(c, Base(c), queue[1..], [Answer(c).frame]);
    ServerAtAuthentication(c, At(Base(c), 1, 1), queue[1..][1..], [Answer(c).frame] + [Seal(c.crypto, Base(c), Finished(Base(c).hash))]);
  }

  lemma ClientMeetsServer(c: Config, tail: Bytes)
    requires c.Valid() && Answer(c).SendHello? && AllFit(ServerFrames(c))
    ensures var stream := Wire(ServerFrames(c)) + tail;
            var final := ClientGiven(c, Decode(stream).frames);
            final.client == ClientAt(c, 6) && final.toServer == ClientFrames(c) && After(stream, 3) == tail
  {
    hide ClientGiven, Ascii, Seal, Wire, Decode, After, ServerOnHello, ClientOnHello, ClientOnFinished, ClientOnAck, ClientHelloOf,
      AuthMessage, Finished, Alone, Fits;
    var frames, m := ServerFrames(c), Mirror(Base(c));
    AfterFrames(frames, tail);
    var queue := frames + Decode(Wire(frames) + tail).frames[3..];
    BaseCounters(c);
    ClientReads(c, 1);
    ClientReads(c, 2);
    ClientReads(c, 5);
    ClientAtHello(c, queue);
    ClientAtConfirmation(c, m, queue[1..], [c.crypto.encode(ClientHelloOf(c))]);
    ClientAtAuthentication(c, At(m, 1, 1), queue[1..][1..],
                           [c.crypto.encode(ClientHelloOf(c))] + [Seal(c.crypto, At(m, 0, 1), Finished(m.hash))]);
  }
}
