/** client_handshake and server_handshake run against each other, each step of
    either side interleaved freely over two FIFO channels of frames. */
module HandshakeProtocol {
  import opened Bytes
  import opened Results
  import opened SessionCipher
  import opened Handshake
  import opened Framing
  import opened Tunnel

  // Everything the two sides bring along; `serverKeyExchange` and
  // `serverCipher` are None for "auto".
  datatype Config = Config(
    crypto: Crypto,
    keyExchange: KeyExchange,
    cipher: CipherName,
    serverKeyExchange: Option<KeyExchange>,
    serverCipher: Option<CipherName>,
    serverHasMlKem: bool,
    vpnIp: string,
    tag: string,                  // what the device directory answers
    clientPrivate: Bytes, clientChain: seq<Bytes>, clientNonce: Bytes,
    serverPrivate: Bytes, serverChain: seq<Bytes>, serverNonce: Bytes,
    secret: Bytes, coins: Bytes,  // for the two key transports
    device: Bytes, encryption: Bytes)
  {
    ghost predicate Valid() {
      crypto.Lawful() && |clientChain| == |serverChain| == 3 && tag != ""
    }

    // Whether the server takes the client's selection.
    predicate Compatible() {
      && (keyExchange == MlKem ==> serverHasMlKem)
      && (serverKeyExchange.None? || serverKeyExchange.value == keyExchange)
      && (serverCipher.None? || serverCipher.value == cipher)
    }
  }

  // One side's session: what both agreed on, the two direction keys and the
  // two counters.
  datatype Session = Session(
    hash: Bytes, shared: Bytes, keyExchange: KeyExchange, cipher: CipherName, vpnIp: string,
    clientNonce: Bytes, serverNonce: Bytes,
    sendKey: Bytes, receiveKey: Bytes, sent: nat, received: nat)

  datatype Client =
    | ClientStart
    | AwaitHello
    | AwaitFinished(s: Session)
    | SendFinished(s: Session)
    | SendAuth(s: Session)
    | AwaitAck(s: Session)
    | ClientDone(s: Session, tag: string)
    | ClientFailed

  datatype Server =
    | ServerStart
    | SendHello(frame: Bytes, s: Session)
    | SendServerFinished(s: Session)
    | AwaitClientFinished(s: Session)
    | AwaitAuth(s: Session)
    | SendAck(s: Session, tag: string)
    | ServerDone(s: Session, tag: string)
    | ServerFailed

  datatype State = State(client: Client, server: Server, toServer: seq<Bytes>, toClient: seq<Bytes>)

  function Finished(hash: Bytes): Bytes {
    Ascii("Finished") + hash
  }

  function SignedBinding(s: Session, publicKey: Bytes, encryptionKey: Bytes): Bytes {
    Ascii("vpn1 device authentication v1") + [0] + (Ascii("vpn1 device auth binding v1") + [0]
    + s.hash + s.clientNonce + s.serverNonce) + publicKey + encryptionKey
  }

  function Seal(c: Crypto, s: Session, text: Bytes): Bytes {
    Record(c.aead(s.cipher), s.sendKey, s.sent, text)
  }

  function Open(c: Crypto, s: Session, frame: Bytes): Result<Bytes, RecordError> {
    OpenRecord(c.aead(s.cipher), s.receiveKey, s.received, frame)
  }

  // derive_session_keys
  function SessionKeys(c: Crypto, shared: Bytes, clientNonce: Bytes, serverNonce: Bytes, hash: Bytes): Bytes {
    var salt := c.sha256(Ascii("vpn session salt v1") + clientNonce + serverNonce);
    c.hkdf(shared, salt, Ascii("vpn session keys v1") + hash, 64)
  }

  function MakeSession(c: Crypto, shared: Bytes, hash: Bytes, hello: Message, client: bool, clientNonce: Bytes): Session
    requires hello.ServerHello?
  {
    var keys := SessionKeys(c, shared, clientNonce, hello.nonce, hash);
    var up, down := if |keys| < 32 then keys else keys[..32], if |keys| < 32 then [] else keys[32..];
    Session(hash, shared, hello.keyExchange, hello.cipher, hello.vpnIp, clientNonce, hello.nonce,
            if client then up else down, if client then down else up, 0, 0)
  }

  function ClientHelloOf(c: Config): Message {
    ClientHello(PROTOCOL_VERSION, c.keyExchange, c.cipher, c.clientNonce,
                c.crypto.ClientPayload(c.keyExchange, c.clientPrivate, c.clientChain))
  }

  // The client's side of the server hello.
  function ClientOnHello(c: Config, frame: Bytes): Client {
    match c.crypto.decode(frame)
    case Some(hello) =>
      if !hello.ServerHello? || hello.version != PROTOCOL_VERSION
         || hello.keyExchange != c.keyExchange || hello.cipher != c.cipher then ClientFailed
      else (
        var own := ClientHelloOf(c);
        match c.crypto.ClientFinish(c.keyExchange, c.clientPrivate, c.clientChain, own.payload, hello.payload)
        case None => ClientFailed
        case Some(shared) =>
          var hash := c.crypto.sha256(c.crypto.encode(own) + frame);
          AwaitFinished(MakeSession(c.crypto, shared, hash, hello, true, c.clientNonce))
      )
    case None => ClientFailed
  }

  function ClientOnFinished(c: Config, s: Session, frame: Bytes): Client {
    if Open(c.crypto, s, frame) == Success(Finished(s.hash)) then SendFinished(s.(received := s.received + 1))
    else ClientFailed
  }

  function AuthMessage(c: Config, s: Session): Message {
    var publicKey, encryptionKey := c.crypto.edPublic(c.device), c.crypto.xPublic(c.encryption);
    DeviceAuth(publicKey, encryptionKey, c.crypto.sign(c.device, SignedBinding(s, publicKey, encryptionKey)))
  }

  function ClientOnAck(c: Config, s: Session, frame: Bytes): Client {
    match Open(c.crypto, s, frame)
    case Failure(_) => ClientFailed
    case Success(text) =>
      match c.crypto.decode(text)
      case Some(DeviceAuthOk(tag)) => if tag == "" then ClientFailed else ClientDone(s.(received := s.received + 1), tag)
      case _ => ClientFailed
  }

  // The server's side of the client hello, up to its answer.
  function ServerOnHello(c: Config, frame: Bytes): Server {
    match c.crypto.decode(frame)
    case Some(ClientHello(version, kx, cipher, nonce, payload)) =>
      if version != PROTOCOL_VERSION then ServerFailed
      else if kx == MlKem && !c.serverHasMlKem then ServerFailed
      else if c.serverKeyExchange.Some? && c.serverKeyExchange.value != kx then ServerFailed
      else if c.serverCipher.Some? && c.serverCipher.value != cipher then ServerFailed
      else (
        match c.crypto.ServerResponse(kx, payload, c.serverPrivate, c.serverChain, c.secret, c.coins)
        case None => ServerFailed
        case Some((shared, answer)) =>
          var hello := ServerHello(PROTOCOL_VERSION, kx, cipher, c.serverNonce, c.vpnIp, answer);
          var bytes := c.crypto.encode(hello);
          SendHello(bytes, MakeSession(c.crypto, shared, c.crypto.sha256(frame + bytes), hello, false, nonce))
      )
    case _ => ServerFailed
  }

  function ServerOnFinished(c: Config, s: Session, frame: Bytes): Server {
    if Open(c.crypto, s, frame) == Success(Finished(s.hash)) then AwaitAuth(s.(received := s.received + 1))
    else ServerFailed
  }

  function ServerOnAuth(c: Config, s: Session, frame: Bytes): Server {
    match Open(c.crypto, s, frame)
    case Failure(_) => ServerFailed
    case Success(text) =>
      match c.crypto.decode(text)
      case Some(DeviceAuth(publicKey, encryptionKey, signature)) =>
        if |encryptionKey| != 32 || |publicKey| != 32
           || !c.crypto.verify(publicKey, SignedBinding(s, publicKey, encryptionKey), signature) then ServerFailed
        else SendAck(s.(received := s.received + 1), c.tag)
      case _ => ServerFailed
  }

  // ---------------------------------------------------------------------
  // Steps
  // ---------------------------------------------------------------------

  datatype Side = TheClient | TheServer

  predicate Over(s: State, side: Side) {
    match side
    case TheClient => s.client.ClientDone? || s.client.ClientFailed?
    case TheServer => s.server.ServerDone? || s.server.ServerFailed?
  }

  // A side waiting for a frame goes on when there is one, and fails when its
  // peer has failed and closed the connection.
  predicate Enabled(s: State, side: Side) {
    match side
    case TheClient =>
      if s.client.AwaitHello? || s.client.AwaitFinished? || s.client.AwaitAck?
      then s.toClient != [] || s.server.ServerFailed? else !Over(s, side)
    case TheServer =>
      if s.server.ServerStart? || s.server.AwaitClientFinished? || s.server.AwaitAuth?
      then s.toServer != [] || s.client.ClientFailed? else !Over(s, side)
  }

  function Step(c: Config, s: State, side: Side): State {
    if !Enabled(s, side) then s
    else match side
      case TheClient => ClientStep(c, s)
      case TheServer => ServerStep(c, s)
  }

  function ClientStep(c: Config, s: State): State
    requires Enabled(s, TheClient)
  {
    match s.client
    case ClientStart => s.(client := AwaitHello, toServer := s.toServer + [c.crypto.encode(ClientHelloOf(c))])
    case SendFinished(k) =>
      s.(client := SendAuth(k.(sent := k.sent + 1)), toServer := s.toServer + [Seal(c.crypto, k, Finished(k.hash))])
    case SendAuth(k) =>
      s.(client := AwaitAck(k.(sent := k.sent + 1)),
         toServer := s.toServer + [Seal(c.crypto, k, c.crypto.encode(AuthMessage(c, k)))])
    case _ =>
      if s.toClient == [] then s.(client := ClientFailed)
      else
        var frame := s.toClient[0];
        var next := match s.client
                    case AwaitFinished(k) => ClientOnFinished(c, k, frame)
                    case AwaitAck(k) => ClientOnAck(c, k, frame)
                    case _ => ClientOnHello(c, frame);
        s.(client := next, toClient := s.toClient[1..])
  }

  function ServerStep(c: Config, s: State): State
    requires Enabled(s, TheServer)
  {
    match s.server
    case SendHello(frame, k) => s.(server := SendServerFinished(k), toClient := s.toClient + [frame])
    case SendServerFinished(k) =>
      s.(server := AwaitClientFinished(k.(sent := k.sent + 1)), toClient := s.toClient + [Seal(c.crypto, k, Finished(k.hash))])
    case SendAck(k, tag) =>
      s.(server := ServerDone(k.(sent := k.sent + 1), tag),
         toClient := s.toClient + [Seal(c.crypto, k, c.crypto.encode(DeviceAuthOk(tag)))])
    case _ =>
      if s.toServer == [] then s.(server := ServerFailed)
      else
        var frame := s.toServer[0];
        var next := match s.server
                    case AwaitClientFinished(k) => ServerOnFinished(c, k, frame)
                    case AwaitAuth(k) => ServerOnAuth(c, k, frame)
                    case _ => ServerOnHello(c, frame);
        s.(server := next, toServer := s.toServer[1..])
  }

  function Run(c: Config, s: State, schedule: seq<Side>): State
    decreases |schedule|
  {
    if schedule == [] then s else Run(c, Step(c, s, schedule[0]), schedule[1..])
  }

  const Start: State := State(ClientStart, ServerStart, [], [])

  // ---------------------------------------------------------------------
  // The only run
  // ---------------------------------------------------------------------

  // What either side has done is a stage number; the channels then hold what
  // one has sent and the other not read.
  function Answer(c: Config): Server {
    ServerOnHello(c, c.crypto.encode(ClientHelloOf(c)))
  }

  // The server's session before any record, when it answers at all.
  function Base(c: Config): Session
    requires Answer(c).SendHello?
  {
    Answer(c).s
  }

  function Mirror(s: Session): Session {
    s.(sendKey := s.receiveKey, receiveKey := s.sendKey)
  }

  function At(s: Session, sent: nat, received: nat): Session {
    s.(sent := sent, received := received)
  }

  function ClientAt(c: Config, stage: nat): Client
    requires Answer(c).SendHello? && stage <= 6
  {
    var m := Mirror(Base(c));
    match stage
    case 0 => ClientStart
    case 1 => AwaitHello
    case 2 => AwaitFinished(m)
    case 3 => SendFinished(At(m, 0, 1))
    case 4 => SendAuth(At(m, 1, 1))
    case 5 => AwaitAck(At(m, 2, 1))
    case _ => ClientDone(At(m, 2, 2), c.tag)
  }

  function ServerAt(c: Config, stage: nat): Server
    requires Answer(c).SendHello? && stage <= 6
  {
    var b := Base(c);
    match stage
    case 0 => ServerStart
    case 1 => Answer(c)
    case 2 => SendServerFinished(b)
    case 3 => AwaitClientFinished(At(b, 1, 0))
    case 4 => AwaitAuth(At(b, 1, 1))
    case 5 => SendAck(At(b, 1, 2), c.tag)
    case _ => ServerDone(At(b, 2, 2), c.tag)
  }

  // Frames sent and read at each stage.
  function ClientSent(stage: nat): nat { if stage == 0 then 0 else if stage <= 3 then 1 else if stage == 4 then 2 else 3 }
  function ClientRead(stage: nat): nat { if stage <= 1 then 0 else if stage == 2 then 1 else if stage <= 5 then 2 else 3 }
  function ServerSent(stage: nat): nat { if stage <= 1 then 0 else if stage == 2 then 1 else if stage <= 5 then 2 else 3 }
  function ServerRead(stage: nat): nat { if stage == 0 then 0 else if stage <= 3 then 1 else if stage == 4 then 2 else 3 }

  function ClientFrames(c: Config): (frames: seq<Bytes>)
    requires Answer(c).SendHello?
    ensures |frames| == 3
  {
    var m := Mirror(Base(c));
    [c.crypto.encode(ClientHelloOf(c)),
     Seal(c.crypto, At(m, 0, 1), Finished(m.hash)),
     Seal(c.crypto, At(m, 1, 1), c.crypto.encode(AuthMessage(c, At(m, 1, 1))))]
  }

  function ServerFrames(c: Config): (frames: seq<Bytes>)
    requires Answer(c).SendHello?
    ensures |frames| == 3
  {
    var b := Base(c);
    [Answer(c).frame,
     Seal(c.crypto, b, Finished(b.hash)),
     Seal(c.crypto, At(b, 1, 2), c.crypto.encode(DeviceAuthOk(c.tag)))]
  }

  predicate Causal(i: nat, j: nat) {
    i <= 6 && j <= 6 && ServerRead(j) <= ClientSent(i) && ClientRead(i) <= ServerSent(j)
  }

  function StateAt(c: Config, i: nat, j: nat): State
    requires Answer(c).SendHello? && Causal(i, j)
  {
    State(ClientAt(c, i), ServerAt(c, j),
          ClientFrames(c)[ServerRead(j)..ClientSent(i)], ServerFrames(c)[ClientRead(i)..ServerSent(j)])
  }

  // The server answers exactly the compatible selections; its session starts
  // from the client's hello.
  lemma AnswerIffCompatible(c: Config)
    requires c.Valid()
    ensures Answer(c).SendHello? <==> c.Compatible()
    ensures !c.Compatible() ==> Answer(c) == ServerFailed
  {
    assert c.crypto.CodecLaw(ClientHelloOf(c));
    c.crypto.KeyExchangeAgrees(c.keyExchange, c.clientPrivate, c.clientChain, c.serverPrivate, c.serverChain, c.secret, c.coins);
    hide Crypto.ServerResponse, Crypto.ClientFinish, Crypto.ClientPayload, Ascii;
  }

  // Reading the server hello gives the client the mirrored session.
  lemma ClientMirrors(c: Config)
    requires c.Valid() && Answer(c).SendHello?
    ensures ClientOnHello(c, Answer(c).frame) == AwaitFinished(Mirror(Base(c)))
  {
    hide Crypto.ServerResponse, Crypto.ClientFinish, Crypto.ClientPayload, Ascii, SessionKeys;
    AnswerIffCompatible(c);
    var own := ClientHelloOf(c);
    assert c.crypto.CodecLaw(own);
    c.crypto.KeyExchangeAgrees(c.keyExchange, c.clientPrivate, c.clientChain, c.serverPrivate, c.serverChain, c.secret, c.coins);
    var (shared, answer) := c.crypto.ServerResponse(c.keyExchange, own.payload, c.serverPrivate, c.serverChain, c.secret, c.coins).value;
    var hello := ServerHello(PROTOCOL_VERSION, c.keyExchange, c.cipher, c.serverNonce, c.vpnIp, answer);
    assert Answer(c).frame == c.crypto.encode(hello);
    assert c.crypto.CodecLaw(hello);
  }

  lemma SealedOpens(c: Crypto, from: Session, to: Session, text: Bytes)
    requires c.Lawful() && from.cipher == to.cipher && from.sendKey == to.receiveKey && from.sent == to.received < TWO_64
    ensures Open(c, to, Seal(c, from, text)) == Success(text)
  {
    assert c.CipherLaw(from.cipher);
    OpenOfRecord(c.aead(from.cipher), from.sendKey, to.received, from.sent, text);
  }

  lemma ClientReads(c: Config, stage: nat)
    requires c.Valid() && Answer(c).SendHello? && (stage == 1 || stage == 2 || stage == 5)
    ensures var frame := ServerFrames(c)[ClientRead(stage)];
            ClientAt(c, stage + 1) == match ClientAt(c, stage)
                                      case AwaitFinished(k) => ClientOnFinished(c, k, frame)
                                      case AwaitAck(k) => ClientOnAck(c, k, frame)
                                      case _ => ClientOnHello(c, frame)
  {
    hide Ascii, Seal, Open, ServerOnHello, ClientOnHello;
    var b := Base(c);
    if stage == 1 {
      ClientMirrors(c);
    } else if stage == 2 {
      BaseCounters(c);
      SealedOpens(c.crypto, b, Mirror(b), Finished(b.hash));
    } else {
      var ack := DeviceAuthOk(c.tag);
      SealedOpens(c.crypto, At(b, 1, 2), At(Mirror(b), 2, 1), c.crypto.encode(ack));
      assert c.crypto.CodecLaw(ack);
    }
  }

  lemma ServerReads(c: Config, stage: nat)
    requires c.Valid() && Answer(c).SendHello? && (stage == 0 || stage == 3 || stage == 4)
    ensures var frame := ClientFrames(c)[ServerRead(stage)];
            ServerAt(c, stage + 1) == match ServerAt(c, stage)
                                      case AwaitClientFinished(k) => ServerOnFinished(c, k, frame)
                                      case AwaitAuth(k) => ServerOnAuth(c, k, frame)
                                      case _ => ServerOnHello(c, frame)
  {
    hide Ascii, Seal, Open, ServerOnHello, ClientOnHello, SignedBinding;
    var m := Mirror(Base(c));
    if stage == 3 {
      SealedOpens(c.crypto, At(m, 0, 1), At(Base(c), 1, 0), Finished(m.hash));
    } else if stage == 4 {
      var from, to := At(m, 1, 1), At(Base(c), 1, 1);
      var auth := AuthMessage(c, from);
      SealedOpens(c.crypto, from, to, c.crypto.encode(auth));
      assert c.crypto.CodecLaw(auth);
      SameBinding(from, to, auth.publicKey, auth.encryptionKey);
      assert c.crypto.SignatureLaw(c.device, SignedBinding(from, auth.publicKey, auth.encryptionKey));
      assert c.crypto.DhLaw(c.encryption, []);
    }
  }

  // Both sides bind the authentication to the same transcript and nonces.
  lemma SameBinding(a: Session, b: Session, publicKey: Bytes, encryptionKey: Bytes)
    requires a.hash == b.hash && a.clientNonce == b.clientNonce && a.serverNonce == b.serverNonce
    ensures SignedBinding(a, publicKey, encryptionKey) == SignedBinding(b, publicKey, encryptionKey)
  {
  }

  lemma BaseCounters(c: Config)
    requires Answer(c).SendHello?
    ensures Base(c).sent == 0 && Base(c).received == 0
  {
    hide Crypto.ServerResponse, Crypto.ClientPayload, Ascii, SessionKeys;
  }

  predicate Waits(stage: nat, side: Side) {
    if side == TheClient then stage == 1 || stage == 2 || stage == 5 else stage == 0 || stage == 3 || stage == 4
  }

  lemma ClientTakes(c: Config, s: State, i: nat)
    requires c.Valid() && Answer(c).SendHello? && i < 6 && Waits(i, TheClient)
    requires s.client == ClientAt(c, i) && !s.server.ServerFailed?
    ensures Enabled(s, TheClient) <==> s.toClient != []
    ensures s.toClient != [] && s.toClient[0] == ServerFrames(c)[ClientRead(i)] ==>
              Step(c, s, TheClient) == s.(client := ClientAt(c, i + 1), toClient := s.toClient[1..])
  {
    hide Seal, ServerFrames, ServerStep, ClientOnHello, ClientOnFinished, ClientOnAck, ServerOnHello;
    ClientReads(c, i);
  }

  lemma ClientSends(c: Config, s: State, i: nat)
    requires c.Valid() && Answer(c).SendHello? && i < 6 && !Waits(i, TheClient)
    requires s.client == ClientAt(c, i)
    ensures Enabled(s, TheClient)
    ensures Step(c, s, TheClient) == s.(client := ClientAt(c, i + 1), toServer := s.toServer + [ClientFrames(c)[ClientSent(i)]])
  {
    hide Seal, ServerFrames, ServerStep, ClientOnHello, ClientOnFinished, ClientOnAck, ServerOnHello, ClientHelloOf, AuthMessage, Finished;
    BaseCounters(c);
  }

  lemma ServerTakes(c: Config, s: State, j: nat)
    requires c.Valid() && Answer(c).SendHello? && j < 6 && Waits(j, TheServer)
    requires s.server == ServerAt(c, j) && !s.client.ClientFailed?
    ensures Enabled(s, TheServer) <==> s.toServer != []
    ensures s.toServer != [] && s.toServer[0] == ClientFrames(c)[ServerRead(j)] ==>
              Step(c, s, TheServer) == s.(server := ServerAt(c, j + 1), toServer := s.toServer[1..])
  {
    hide Seal, ClientFrames, ClientStep, ServerOnHello, ServerOnFinished, ServerOnAuth;
    ServerReads(c, j);
  }

  lemma ServerSends(c: Config, s: State, j: nat)
    requires c.Valid() && Answer(c).SendHello? && j < 6 && !Waits(j, TheServer)
    requires s.server == ServerAt(c, j)
    ensures Enabled(s, TheServer)
    ensures Step(c, s, TheServer) == s.(server := ServerAt(c, j + 1), toClient := s.toClient + [ServerFrames(c)[ServerSent(j)]])
  {
    hide Seal, ClientFrames, ClientStep, ServerOnHello, ServerOnFinished, ServerOnAuth, Finished;
    BaseCounters(c);
  }

  lemma NeverFailing(c: Config, i: nat, j: nat)
    requires Answer(c).SendHello? && i <= 6 && j <= 6
    ensures !ClientAt(c, i).ClientFailed? && !ServerAt(c, j).ServerFailed?
    ensures (ClientAt(c, i).ClientDone? <==> i == 6) && (ServerAt(c, j).ServerDone? <==> j == 6)
  {
    hide ServerOnHello;
  }

  lemma ClientAdvances(c: Config, i: nat, j: nat)
    requires c.Valid() && Answer(c).SendHello? && Causal(i, j)
    ensures Enabled(StateAt(c, i, j), TheClient) <==> Causal(i + 1, j)
    ensures Causal(i + 1, j) ==> Step(c, StateAt(c, i, j), TheClient) == StateAt(c, i + 1, j)
  {
    hide ClientAt, ServerAt, ClientFrames, ServerFrames, Step, ServerOnHello;
    var s := StateAt(c, i, j);
    NeverFailing(c, i, j);
    if i == 6 {
    } else if Waits(i, TheClient) {
      ClientTakes(c, s, i);
      if Causal(i + 1, j) {
        var queue := ServerFrames(c)[ClientRead(i)..ServerSent(j)];
        assert queue[0] == ServerFrames(c)[ClientRead(i)];
        assert queue[1..] == ServerFrames(c)[ClientRead(i + 1)..ServerSent(j)];
      }
    } else {
      hide Enabled;
      ClientSends(c, s, i);
      var frames := ClientFrames(c);
      assert frames[ServerRead(j)..ClientSent(i + 1)]
          == frames[ServerRead(j)..ClientSent(i)] + [frames[ClientSent(i)]];
    }
  }

  lemma ServerAdvances(c: Config, i: nat, j: nat)
    requires c.Valid() && Answer(c).SendHello? && Causal(i, j)
    ensures Enabled(StateAt(c, i, j), TheServer) <==> Causal(i, j + 1)
    ensures Causal(i, j + 1) ==> Step(c, StateAt(c, i, j), TheServer) == StateAt(c, i, j + 1)
  {
    hide ClientAt, ServerAt, ClientFrames, ServerFrames, Step, ServerOnHello;
    var s := StateAt(c, i, j);
    NeverFailing(c, i, j);
    if j == 6 {
    } else if Waits(j, TheServer) {
      ServerTakes(c, s, j);
      if Causal(i, j + 1) {
        var queue := ClientFrames(c)[ServerRead(j)..ClientSent(i)];
        assert queue[0] == ClientFrames(c)[ServerRead(j)];
        assert queue[1..] == ClientFrames(c)[ServerRead(j + 1)..ClientSent(i)];
      }
    } else {
      hide Enabled;
      ServerSends(c, s, j);
      var frames := ServerFrames(c);
      assert frames[ClientRead(i)..ServerSent(j + 1)]
          == frames[ClientRead(i)..ServerSent(j)] + [frames[ServerSent(j)]];
    }
  }

  // How many scheduled steps did anything.
  function Effective(c: Config, s: State, schedule: seq<Side>): nat
    decreases |schedule|
  {
    if schedule == [] then 0
    else (if Enabled(s, schedule[0]) then 1 else 0) + Effective(c, Step(c, s, schedule[0]), schedule[1..])
  }

  lemma {:induction false} RunFollowsStages(c: Config, i: nat, j: nat, schedule: seq<Side>) returns (i': nat, j': nat)
    requires c.Valid() && Answer(c).SendHello? && Causal(i, j)
    ensures Causal(i', j') && Run(c, StateAt(c, i, j), schedule) == StateAt(c, i', j')
    ensures i + j + Effective(c, StateAt(c, i, j), schedule) == i' + j'
    decreases |schedule|
  {
    hide StateAt, Enabled, Step, Causal, ServerOnHello;
    if schedule == [] {
      i', j' := i, j;
    } else {
      ClientAdvances(c, i, j);
      ServerAdvances(c, i, j);
      var s := StateAt(c, i, j);
      if !Enabled(s, schedule[0]) {
        StutterWhenDisabled(c, s, schedule[0]);
        i', j' := RunFollowsStages(c, i, j, schedule[1..]);
      } else if schedule[0] == TheClient {
        i', j' := RunFollowsStages(c, i + 1, j, schedule[1..]);
      } else {
        i', j' := RunFollowsStages(c, i, j + 1, schedule[1..]);
      }
    }
  }

  lemma StutterWhenDisabled(c: Config, s: State, side: Side)
    requires !Enabled(s, side)
    ensures Step(c, s, side) == s
  {
  }

  predicate Stuck(s: State) {
    !Enabled(s, TheClient) && !Enabled(s, TheServer)
  }

  // The two ends agree on everything, hash both hellos, hold each other's direction keys, the
  // client's first in the material derived from secret, nonces and transcript, and all four
  // counters stand at two.
  predicate Agreed(c: Config, s: State) {
    && s.client.ClientDone? && s.server.ServerDone? && s.toServer == [] && s.toClient == []
    && s.client.tag == s.server.tag == c.tag
    && Some(s.client.s.shared) == Secret(c)
    && var k, l := s.client.s, s.server.s;
    && k.hash == l.hash && k.shared == l.shared && k.vpnIp == l.vpnIp == c.vpnIp
    && k.keyExchange == l.keyExchange == c.keyExchange && k.cipher == l.cipher == c.cipher
    && k.sendKey == l.receiveKey && k.receiveKey == l.sendKey
    && k.sent == k.received == l.sent == l.received == 2
    && k.clientNonce == c.clientNonce && k.serverNonce == c.serverNonce
    && Answer(c).SendHello? && k.hash == c.crypto.sha256(c.crypto.encode(ClientHelloOf(c)) + Answer(c).frame)
    && |k.sendKey| == |k.receiveKey| == 32
    && k.sendKey + k.receiveKey
         == c.crypto.hkdf(k.shared, c.crypto.sha256(Ascii("vpn session salt v1") + c.clientNonce + c.serverNonce),
                          Ascii("vpn session keys v1") + k.hash, 64)
  }

  // With compatible selections, every interleaving ends after twelve steps, is
  // never stuck before, never fails, and ends in agreement.
  lemma CompatibleSidesAgree(c: Config, schedule: seq<Side>)
    requires c.Valid() && c.Compatible()
    ensures var s := Run(c, Start, schedule);
            && !s.client.ClientFailed? && !s.server.ServerFailed?
            && Effective(c, Start, schedule) <= 12
            && (Stuck(s) <==> Effective(c, Start, schedule) == 12)
            && (Stuck(s) <==> Agreed(c, s))
  {
    AnswerIffCompatible(c);
    assert Start == StateAt(c, 0, 0);
    var i, j := RunFollowsStages(c, 0, 0, schedule);
    ClientAdvances(c, i, j);
    ServerAdvances(c, i, j);
    SomeoneAdvances(i, j);
    StagesAgreeAtTheEnd(c, i, j);
    hide StateAt, Enabled, Agreed, Causal, ServerOnHello;
  }

  lemma SomeoneAdvances(i: nat, j: nat)
    requires Causal(i, j)
    ensures Causal(i + 1, j) || Causal(i, j + 1) <==> i + j < 12
  {
  }

  lemma StagesAgreeAtTheEnd(c: Config, i: nat, j: nat)
    requires c.Valid() && Answer(c).SendHello? && Causal(i, j)
    ensures Agreed(c, StateAt(c, i, j)) <==> i + j == 12
    ensures !StateAt(c, i, j).client.ClientFailed? && !StateAt(c, i, j).server.ServerFailed?
  {
    hide ClientAt, ServerAt, ClientFrames, ServerFrames, Answer, Ascii, ClientHelloOf;
    NeverFailing(c, i, j);
    if i + j == 12 {
      LastStagesAgree(c);
    }
  }

  lemma LastStagesAgree(c: Config)
    requires c.Valid() && Answer(c).SendHello?
    ensures Agreed(c, StateAt(c, 6, 6))
  {
    hide ClientFrames, ServerFrames, Answer, Ascii, ClientHelloOf;
    AnswerContents(c);
    assert |StateAt(c, 6, 6).toServer| == 0 && |StateAt(c, 6, 6).toClient| == 0;
  }

  // The secret of the key exchange (SharedSecret says which).
  function Secret(c: Config): Option<Bytes> {
    var payload := c.crypto.ClientPayload(c.keyExchange, c.clientPrivate, c.clientChain);
    match c.crypto.ServerResponse(c.keyExchange, payload, c.serverPrivate, c.serverChain, c.secret, c.coins)
    case None => None
    case Some((shared, _)) => Some(shared)
  }

  lemma AnswerContents(c: Config)
    requires c.Valid() && Answer(c).SendHello?
    ensures var b := Base(c);
            && b.vpnIp == c.vpnIp && b.keyExchange == c.keyExchange && b.cipher == c.cipher
            && b.clientNonce == c.clientNonce && b.serverNonce == c.serverNonce
            && b.hash == c.crypto.sha256(c.crypto.encode(ClientHelloOf(c)) + Answer(c).frame)
            && Some(b.shared) == Secret(c) && |b.sendKey| == |b.receiveKey| == 32
            && b.receiveKey + b.sendKey == SessionKeys(c.crypto, b.shared, c.clientNonce, c.serverNonce, b.hash)
  {
    hide Crypto.ServerResponse, Crypto.ClientPayload, Ascii;
    assert c.crypto.CodecLaw(ClientHelloOf(c));
    var b := Base(c);
    assert c.crypto.DerivationLaw(b.shared, c.crypto.sha256(Ascii("vpn session salt v1") + c.clientNonce + c.serverNonce),
                                  Ascii("vpn session keys v1") + b.hash, 64);
    var keys := SessionKeys(c.crypto, b.shared, c.clientNonce, c.serverNonce, b.hash);
    assert keys[..32] + keys[32..] == keys;
  }

  // With any other selections, every interleaving ends with both sides failed.
  ghost predicate Refused(c: Config, s: State) {
    && s.toClient == []
    && (s.client == ClientStart && s.server == ServerStart ==> s.toServer == [])
    && (s.client == AwaitHello && s.server == ServerStart ==> s.toServer == [c.crypto.encode(ClientHelloOf(c))])
    && ((s.server == ServerStart && (s.client == ClientStart || s.client == AwaitHello))
        || (s.server == ServerFailed && (s.client == AwaitHello || s.client == ClientFailed)))
  }

  // The hello is sent, refused, and its refusal noticed.
  function RefusedStages(s: State): nat {
    if s.client == ClientStart then 0
    else if s.server == ServerStart then 1
    else if s.client == AwaitHello then 2 else 3
  }

  lemma StepStaysRefused(c: Config, s: State, side: Side)
    requires c.Valid() && !c.Compatible() && Refused(c, s)
    ensures Refused(c, Step(c, s, side))
    ensures RefusedStages(Step(c, s, side)) == RefusedStages(s) + (if Enabled(s, side) then 1 else 0)
    ensures Stuck(s) <==> RefusedStages(s) == 3
  {
    hide ServerOnHello, Ascii, ClientHelloOf;
    AnswerIffCompatible(c);
  }

  lemma {:induction false} RunStaysRefused(c: Config, s: State, schedule: seq<Side>)
    requires c.Valid() && !c.Compatible() && Refused(c, s)
    ensures Refused(c, Run(c, s, schedule))
    ensures RefusedStages(Run(c, s, schedule)) == RefusedStages(s) + Effective(c, s, schedule)
    decreases |schedule|
  {
    hide Refused, Step, Enabled, RefusedStages;
    if schedule != [] {
      StepStaysRefused(c, s, schedule[0]);
      RunStaysRefused(c, Step(c, s, schedule[0]), schedule[1..]);
    }
  }

  lemma IncompatibleSidesFail(c: Config, schedule: seq<Side>)
    requires c.Valid() && !c.Compatible()
    ensures var s := Run(c, Start, schedule);
            && !s.client.ClientDone? && !s.server.ServerDone?
            && Effective(c, Start, schedule) <= 3
            && (Stuck(s) <==> Effective(c, Start, schedule) == 3)
            && (Stuck(s) <==> s.client == ClientFailed && s.server == ServerFailed)
  {
    hide ServerOnHello, Ascii, ClientHelloOf, Run, Effective;
    RunStaysRefused(c, Start, schedule);
    StepStaysRefused(c, Run(c, Start, schedule), TheClient);
  }

  // The finished handshake is where the data channel starts: with the keys and
  // counters it leaves, either side's packets reach the other, however the
  // network cuts the bytes.
  lemma DataFollowsHandshake(c: Config, schedule: seq<Side>, up: bool, packets: seq<Bytes>, segments: seq<Bytes>)
    requires c.Valid() && c.Compatible() && Agreed(c, Run(c, Start, schedule))
    requires AllSendable(2, packets)
    requires var s := Run(c, Start, schedule);
             var sender := if up then s.client.s else s.server.s;
             Flatten(segments) == Wire(SentRecords(c.crypto.aead(c.cipher), sender.sendKey, sender.sent, packets))
    ensures var s := Run(c, Start, schedule);
            var receiver := if up then s.server.s else s.client.s;
            Receive(c.crypto.aead(c.cipher), receiver.receiveKey, receiver.received, Decode(Flatten(segments)).frames)
              == Received(packets, false)
  {
    hide Run, Receive, SentRecords, Decode;
    assert c.crypto.CipherLaw(c.cipher);
    var s := Run(c, Start, schedule);
    var key := if up then s.client.s.sendKey else s.server.s.sendKey;
    TunnelDelivers(c.crypto.aead(c.cipher), key, 2, packets, segments, |segments|);
    assert segments[..|segments|] == segments;
  }

  // The bytes a device signs fix the transcript, both keys and the two nonces
  // together, and each nonce as soon as one of the lengths is known.
  lemma BindingInjective(a: Session, b: Session, publicA: Bytes, publicB: Bytes, encryptionA: Bytes, encryptionB: Bytes)
    requires |a.hash| == |b.hash| && |publicA| == |publicB| && |encryptionA| == |encryptionB|
    requires SignedBinding(a, publicA, encryptionA) == SignedBinding(b, publicB, encryptionB)
    ensures a.hash == b.hash && publicA == publicB && encryptionA == encryptionB
    ensures a.clientNonce + a.serverNonce == b.clientNonce + b.serverNonce
    ensures |a.clientNonce| == |b.clientNonce| || |a.serverNonce| == |b.serverNonce| ==>
              a.clientNonce == b.clientNonce && a.serverNonce == b.serverNonce
  {
    hide Ascii;
    var lead := Ascii("vpn1 device authentication v1") + [0] + (Ascii("vpn1 device auth binding v1") + [0]);
    var noncesA, noncesB := a.clientNonce + a.serverNonce, b.clientNonce + b.serverNonce;
    assert SignedBinding(a, publicA, encryptionA) == lead + (a.hash + (noncesA + (publicA + encryptionA)));
    assert SignedBinding(b, publicB, encryptionB) == lead + (b.hash + (noncesB + (publicB + encryptionB)));
    SameParts(lead, a.hash + (noncesA + (publicA + encryptionA)), lead, b.hash + (noncesB + (publicB + encryptionB)));
    SameParts(a.hash, noncesA + (publicA + encryptionA), b.hash, noncesB + (publicB + encryptionB));
    SameParts(noncesA, publicA + encryptionA, noncesB, publicB + encryptionB);
    SameParts(publicA, encryptionA, publicB, encryptionB);
    if |a.clientNonce| == |b.clientNonce| || |a.serverNonce| == |b.serverNonce| {
      SameParts(a.clientNonce, a.serverNonce, b.clientNonce, b.serverNonce);
    }
  }

  lemma SameParts(a: Bytes, x: Bytes, b: Bytes, y: Bytes)
    requires (|a| == |b| || |x| == |y|) && a + x == b + y
    ensures a == b && x == y
  {
    assert |a| + |x| == |a + x| == |b + y| == |b| + |y|;
    assert (a + x)[..|a|] == a && (b + y)[..|b|] == b;
    assert (a + x)[|a|..] == x && (b + y)[|b|..] == y;
  }

  // Ideal signatures: whatever is presented and verifies under this key is a
  // binding that the device signed in one of its sessions.
  ghost predicate UnforgedSignatures(c: Crypto, publicKey: Bytes, signed: set<Session>, presented: set<(Bytes, Bytes)>) {
    forall p :: p in presented && c.verify(publicKey, p.0, p.1) ==> SignedIn(publicKey, signed, p.0)
  }

  ghost predicate SignedIn(publicKey: Bytes, signed: set<Session>, message: Bytes) {
    exists t, e: Bytes :: t in signed && |e| == 32 && message == SignedBinding(t, publicKey, e)
  }

  // With unforged signatures the server accepts a device only in a session
  // whose transcript and nonces the device signed.  Neither side checks the
  // length of the other's nonce, so the two nonces are told apart only when
  // one of the lengths agrees, as for a client and a server that both draw 16.
  lemma AcceptedDeviceSignedThisSession(c: Config, s: Session, frame: Bytes, signed: set<Session>, presented: set<(Bytes, Bytes)>)
    requires ServerOnAuth(c, s, frame).SendAck?
    requires var auth := c.crypto.decode(Open(c.crypto, s, frame).value).value;
             && (SignedBinding(s, auth.publicKey, auth.encryptionKey), auth.signature) in presented
             && UnforgedSignatures(c.crypto, auth.publicKey, signed, presented)
    requires forall t :: t in signed ==> |t.hash| == |s.hash|
    ensures exists t :: t in signed && SameSession(t, s)
  {
    hide SignedBinding, Open;
    var auth := c.crypto.decode(Open(c.crypto, s, frame).value).value;
    var message := SignedBinding(s, auth.publicKey, auth.encryptionKey);
    assert SignedIn(auth.publicKey, signed, (message, auth.signature).0);
    var t, e: Bytes :| t in signed && |e| == 32 && message == SignedBinding(t, auth.publicKey, e);
    BindingInjective(s, t, auth.publicKey, auth.publicKey, auth.encryptionKey, e);
    assert SameSession(t, s);
  }

  predicate SameSession(t: Session, s: Session) {
    && t.hash == s.hash && t.clientNonce + t.serverNonce == s.clientNonce + s.serverNonce
    && (|t.clientNonce| == |s.clientNonce| || |t.serverNonce| == |s.serverNonce| ==>
          t.clientNonce == s.clientNonce && t.serverNonce == s.serverNonce)
  }

  // A genuine device meets these hypotheses, and is accepted.
  lemma GenuineDeviceIsAccepted(c: Config)
    requires c.Valid() && Answer(c).SendHello?
    ensures var device, session := At(Mirror(Base(c)), 1, 1), At(Base(c), 1, 1);
            var auth := AuthMessage(c, device);
            var presented := {(SignedBinding(session, auth.publicKey, auth.encryptionKey), auth.signature)};
            && ServerOnAuth(c, session, ClientFrames(c)[2]).SendAck?
            && c.crypto.decode(Open(c.crypto, session, ClientFrames(c)[2]).value) == Some(auth)
            && c.crypto.verify(auth.publicKey, SignedBinding(session, auth.publicKey, auth.encryptionKey), auth.signature)
            && UnforgedSignatures(c.crypto, auth.publicKey, {device}, presented)
  {
    hide Ascii, Seal, Open, ServerOnHello, ClientOnHello, SignedBinding;
    var from, to := At(Mirror(Base(c)), 1, 1), At(Base(c), 1, 1);
    var auth := AuthMessage(c, from);
    ServerReads(c, 4);
    SealedOpens(c.crypto, from, to, c.crypto.encode(auth));
    assert c.crypto.CodecLaw(auth);
    assert c.crypto.DhLaw(c.encryption, []);
    SameBinding(from, to, auth.publicKey, auth.encryptionKey);
    assert SignedIn(auth.publicKey, {from}, SignedBinding(to, auth.publicKey, auth.encryptionKey));
  }
}
