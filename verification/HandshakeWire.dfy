/** What the two handshake programs put on the wire, and exactly which frames
    each of them goes on with, said in bytes and message fields. */
module HandshakeWire {
  import opened Bytes
  import opened Results
  import opened SessionCipher
  import opened Handshake
  import opened HandshakeProtocol

  // "Finished" and the transcript hash.
  function Confirmation(hash: Bytes): Bytes {
    [70, 105, 110, 105, 115, 104, 101, 100] + hash
  }

  // The bytes a device signs, from session values.
  function Signed(hash: Bytes, clientNonce: Bytes, serverNonce: Bytes, publicKey: Bytes, encryptionKey: Bytes): Bytes {
    Ascii("vpn1 device authentication v1") + [0] + Ascii("vpn1 device auth binding v1") + [0]
    + hash + clientNonce + serverNonce + publicKey + encryptionKey
  }

  lemma FinishedIsConfirmation(hash: Bytes)
    ensures Finished(hash) == Confirmation(hash)
  {
    var text := "Finished";
    AsciiCodes(text);
    assert Ascii(text) == [70, 105, 110, 105, 115, 104, 101, 100];
  }

  lemma BindingIsSigned(s: Session, publicKey: Bytes, encryptionKey: Bytes)
    ensures SignedBinding(s, publicKey, encryptionKey) == Signed(s.hash, s.clientNonce, s.serverNonce, publicKey, encryptionKey)
  {
    hide Ascii;
  }

  // A confirmation covers the transcript: it fits no other.
  lemma ConfirmationInjective(a: Bytes, b: Bytes)
    requires Finished(a) == Finished(b)
    ensures a == b
  {
    FinishedIsConfirmation(a);
    FinishedIsConfirmation(b);
    assert Confirmation(a)[8..] == a && Confirmation(b)[8..] == b;
  }

  // ---------------------------------------------------------------------
  // The frames of a handshake
  // ---------------------------------------------------------------------

  lemma HellosOnTheWire(c: Config)
    requires c.Valid() && Answer(c).SendHello?
    ensures var payload := c.crypto.ClientPayload(c.keyExchange, c.clientPrivate, c.clientChain);
            var answer := c.crypto.ServerResponse(c.keyExchange, payload, c.serverPrivate, c.serverChain, c.secret, c.coins);
            && c.crypto.decode(ClientFrames(c)[0]) == Some(ClientHello(1, c.keyExchange, c.cipher, c.clientNonce, payload))
            && answer.Some?
            && c.crypto.decode(ServerFrames(c)[0])
                 == Some(ServerHello(1, c.keyExchange, c.cipher, c.serverNonce, c.vpnIp, answer.value.1))
            && Base(c).hash == c.crypto.sha256(ClientFrames(c)[0] + ServerFrames(c)[0])
  {
    hide Crypto.ServerResponse, Crypto.ClientPayload, Ascii, SessionKeys, Seal;
    var own := ClientHelloOf(c);
    assert c.crypto.CodecLaw(own);
    var answer := c.crypto.ServerResponse(c.keyExchange, own.payload, c.serverPrivate, c.serverChain, c.secret, c.coins).value.1;
    assert c.crypto.CodecLaw(ServerHello(PROTOCOL_VERSION, c.keyExchange, c.cipher, c.serverNonce, c.vpnIp, answer));
  }

  // What one side's frame holds for a reader with these keys.
  function Opened(c: Config, key: Bytes, number: nat, frame: Bytes): Result<Bytes, RecordError> {
    OpenRecord(c.crypto.aead(c.cipher), key, number, frame)
  }

  // Both confirmations are under the number 0 and cover the hash of both hellos.
  lemma ConfirmationsOnTheWire(c: Config)
    requires c.Valid() && Answer(c).SendHello?
    ensures var hash := c.crypto.sha256(ClientFrames(c)[0] + ServerFrames(c)[0]);
            && Opened(c, ClientAt(c, 6).s.sendKey, 0, ClientFrames(c)[1]) == Success(Confirmation(hash))
            && Opened(c, ServerAt(c, 6).s.sendKey, 0, ServerFrames(c)[1]) == Success(Confirmation(hash))
  {
    hide Ascii, OpenRecord, Answer, Finished, ClientHelloOf;
    HellosOnTheWire(c);
    BaseCounters(c);
    AnswerContents(c);
    var b := Base(c);
    FinishedIsConfirmation(b.hash);
    SealedOpens(c.crypto, b, Mirror(b), Finished(b.hash));
    SealedOpens(c.crypto, At(Mirror(b), 0, 1), At(b, 1, 0), Finished(b.hash));
  }

  // The device's keys and its signature under the number 1 of the client, and
  // its tag under the number 1 of the server.
  lemma AuthenticationOnTheWire(c: Config)
    requires c.Valid() && Answer(c).SendHello?
    ensures var hash := c.crypto.sha256(ClientFrames(c)[0] + ServerFrames(c)[0]);
            var publicKey, encryptionKey := c.crypto.edPublic(c.device), c.crypto.xPublic(c.encryption);
            var auth := Opened(c, ClientAt(c, 6).s.sendKey, 1, ClientFrames(c)[2]);
            var ack := Opened(c, ServerAt(c, 6).s.sendKey, 1, ServerFrames(c)[2]);
            && auth.Success? && ack.Success? && c.crypto.decode(ack.value) == Some(DeviceAuthOk(c.tag))
            && var text := Signed(hash, c.clientNonce, c.serverNonce, publicKey, encryptionKey);
               c.crypto.decode(auth.value) == Some(DeviceAuth(publicKey, encryptionKey, c.crypto.sign(c.device, text)))
  {
    hide Ascii, OpenRecord, Answer, ClientHelloOf, SignedBinding, Signed;
    HellosOnTheWire(c);
    BaseCounters(c);
    AnswerContents(c);
    var b := Base(c);
    var m := At(Mirror(b), 1, 1);
    var auth, ack := AuthMessage(c, m), DeviceAuthOk(c.tag);
    BindingIsSigned(m, auth.publicKey, auth.encryptionKey);
    SealedOpens(c.crypto, m, At(b, 1, 1), c.crypto.encode(auth));
    SealedOpens(c.crypto, At(b, 1, 2), At(Mirror(b), 2, 1), c.crypto.encode(ack));
    assert c.crypto.CodecLaw(auth) && c.crypto.CodecLaw(ack);
  }

  // ---------------------------------------------------------------------
  // What is accepted, and nothing else
  // ---------------------------------------------------------------------

  lemma ServerAcceptsHellos(c: Config, frame: Bytes)
    ensures var m := c.crypto.decode(frame);
            ServerOnHello(c, frame).SendHello? <==>
              && m.Some? && m.value.ClientHello? && m.value.version == 1
              && (m.value.keyExchange == MlKem ==> c.serverHasMlKem)
              && (c.serverKeyExchange == None || c.serverKeyExchange == Some(m.value.keyExchange))
              && (c.serverCipher == None || c.serverCipher == Some(m.value.cipher))
              && c.crypto.ServerResponse(m.value.keyExchange, m.value.payload, c.serverPrivate, c.serverChain, c.secret, c.coins).Some?
  {
    hide Crypto.ServerResponse, Ascii, MakeSession;
  }

  lemma ClientAcceptsHellos(c: Config, frame: Bytes)
    ensures var m := c.crypto.decode(frame);
            ClientOnHello(c, frame).AwaitFinished? <==>
              && m.Some? && m.value.ServerHello? && m.value.version == 1
              && m.value.keyExchange == c.keyExchange && m.value.cipher == c.cipher
              && c.crypto.ClientFinish(c.keyExchange, c.clientPrivate, c.clientChain,
                   c.crypto.ClientPayload(c.keyExchange, c.clientPrivate, c.clientChain), m.value.payload).Some?
  {
    hide Crypto.ClientFinish, Crypto.ClientPayload, Ascii, MakeSession;
  }

  // Either side goes on with the other's confirmation of its own transcript
  // only.
  lemma OnlyConfirmationsAreAccepted(c: Config, s: Session, frame: Bytes)
    ensures ServerOnFinished(c, s, frame).AwaitAuth? <==> Open(c.crypto, s, frame) == Success(Confirmation(s.hash))
    ensures ClientOnFinished(c, s, frame).SendFinished? <==> Open(c.crypto, s, frame) == Success(Confirmation(s.hash))
  {
    hide Open, Finished;
    FinishedIsConfirmation(s.hash);
  }

  lemma ServerAcceptsDevices(c: Config, s: Session, frame: Bytes)
    ensures ServerOnAuth(c, s, frame).SendAck? <==>
              && Open(c.crypto, s, frame).Success?
              && var m := c.crypto.decode(Open(c.crypto, s, frame).value);
              && m.Some? && m.value.DeviceAuth? && |m.value.publicKey| == |m.value.encryptionKey| == 32
              && c.crypto.verify(m.value.publicKey,
                   Signed(s.hash, s.clientNonce, s.serverNonce, m.value.publicKey, m.value.encryptionKey), m.value.signature)
  {
    hide Open, SignedBinding, Signed;
    if Open(c.crypto, s, frame).Success? {
      var m := c.crypto.decode(Open(c.crypto, s, frame).value);
      if m.Some? && m.value.DeviceAuth? {
        BindingIsSigned(s, m.value.publicKey, m.value.encryptionKey);
      }
    }
  }

  lemma ClientAcceptsAcks(c: Config, s: Session, frame: Bytes)
    ensures forall tag :: (ClientOnAck(c, s, frame).ClientDone? && ClientOnAck(c, s, frame).tag == tag <==>
              && tag != "" && Open(c.crypto, s, frame).Success?
              && c.crypto.decode(Open(c.crypto, s, frame).value) == Some(DeviceAuthOk(tag)))
  {
    hide Open;
  }
}
