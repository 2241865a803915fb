/** handshake.py: client and server exchange hellos, Finished records and the
    device authentication over two FIFO channels of frames. */
module Handshake {
  import opened Bytes
  import opened Results
  import opened SessionCipher
  import opened ChainDigest

  datatype KeyExchange = Ecdh | DhChain | TreeKem | ChainedKdf | RsaOaep | MlKem

  datatype CipherName = Aes256Gcm | ChaCha20Poly1305

  datatype KeyPayload =
    | Public(kind: KeyExchange, public: Bytes)
    | Publics(kind: KeyExchange, publics: seq<Bytes>)
    | Ciphertext(kind: KeyExchange, ciphertext: Bytes)

  datatype Message =
    | ClientHello(version: nat, keyExchange: KeyExchange, cipher: CipherName, nonce: Bytes, payload: KeyPayload)
    | ServerHello(version: nat, keyExchange: KeyExchange, cipher: CipherName, nonce: Bytes, vpnIp: string, payload: KeyPayload)
    | DeviceAuth(publicKey: Bytes, encryptionKey: Bytes, signature: Bytes)
    | DeviceAuthOk(tag: string)

  const PROTOCOL_VERSION: nat := 1

  function Ascii(s: string): Bytes {
    seq(|s|, i requires 0 <= i < |s| => s[i] as int % 256)
  }

  lemma AsciiCodes(s: string)
    requires forall i :: 0 <= i < |s| ==> s[i] as int < 128
    ensures |Ascii(s)| == |s| && forall i :: 0 <= i < |s| ==> Ascii(s)[i] == s[i] as int
  {
  }

  // The primitives, known only by their laws.
  datatype Crypto = Crypto(
    ecPublic: Bytes -> Bytes, ecShared: (Bytes, Bytes) -> Bytes,
    xPublic: Bytes -> Bytes, xShared: (Bytes, Bytes) -> Bytes,
    rsaPublic: Bytes -> Bytes, rsaEncrypt: (Bytes, Bytes, Bytes) -> Bytes, rsaDecrypt: (Bytes, Bytes) -> Bytes,
    kemPublic: Bytes -> Bytes, kemEncapsulate: (Bytes, Bytes) -> (Bytes, Bytes), kemDecapsulate: (Bytes, Bytes) -> Bytes,
    edPublic: Bytes -> Bytes, sign: (Bytes, Bytes) -> Bytes, verify: (Bytes, Bytes, Bytes) -> bool,
    sha256: Bytes -> Bytes, hkdf: (Bytes, Bytes, Bytes, nat) -> Bytes,
    aead: CipherName -> Aead,
    encode: Message -> Bytes, decode: Bytes -> Option<Message>,
    utf8: string -> Bytes)
  {
    // Both sides of a Diffie-Hellman exchange compute the same secret.
    ghost predicate DhLaw(a: Bytes, b: Bytes) {
      && ecShared(a, ecPublic(b)) == ecShared(b, ecPublic(a))
      && xShared(a, xPublic(b)) == xShared(b, xPublic(a))
      && |xPublic(a)| == 32 && |xShared(a, b)| == 32
    }

    ghost predicate TransportLaw(private: Bytes, secret: Bytes, coins: Bytes) {
      && rsaDecrypt(private, rsaEncrypt(rsaPublic(private), secret, coins)) == secret
      && kemDecapsulate(private, kemEncapsulate(kemPublic(private), coins).1) == kemEncapsulate(kemPublic(private), coins).0
    }

    ghost predicate SignatureLaw(private: Bytes, message: Bytes) {
      verify(edPublic(private), message, sign(private, message)) && |edPublic(private)| == 32
    }

    ghost predicate DerivationLaw(secret: Bytes, salt: Bytes, info: Bytes, length: nat) {
      |hkdf(secret, salt, info, length)| == length
    }

    ghost predicate CodecLaw(m: Message) {
      decode(encode(m)) == Some(m)
    }

    ghost predicate CipherLaw(c: CipherName) {
      aead(c).Lawful()
    }

    ghost predicate TextLaw(s: string, t: string) {
      utf8(s) == utf8(t) ==> s == t
    }

    ghost predicate Lawful() {
      && (forall a, b :: DhLaw(a, b))
      && (forall k, s, r :: TransportLaw(k, s, r))
      && (forall k, m :: SignatureLaw(k, m))
      && (forall s, t, i, n :: DerivationLaw(s, t, i, n))
      && (forall m :: CodecLaw(m))
      && (forall c :: CipherLaw(c))
      && (forall s, t :: TextLaw(s, t))
    }

    function ChainedKdf(secret: Bytes): Bytes {
      var one := hkdf(secret, [], Ascii("vpn chained-kdf stage 1"), 32);
      var two := hkdf(one, [], Ascii("vpn chained-kdf stage 2"), 32);
      hkdf(two, [], Ascii("vpn chained-kdf stage 3"), 32)
    }

    // -------------------------------------------------------------------
    // The six key exchanges
    // -------------------------------------------------------------------

    // `private` is the one fresh key of most exchanges and `chain` the three
    // keys of dh-chain.
    function ClientPayload(kx: KeyExchange, private: Bytes, chain: seq<Bytes>): KeyPayload {
      match kx
      case Ecdh => Public(kx, ecPublic(private))
      case DhChain => Publics(kx, XPublics(chain))
      case TreeKem | ChainedKdf => Public(kx, xPublic(private))
      case RsaOaep => Public(kx, rsaPublic(private))
      case MlKem => Public(kx, kemPublic(private))
    }

    function XPublics(privates: seq<Bytes>): seq<Bytes> {
      if privates == [] then [] else [xPublic(privates[0])] + XPublics(privates[1..])
    }

    // zip of own private and foreign public keys
    function XShareds(privates: seq<Bytes>, publics: seq<Bytes>): seq<Bytes> {
      if privates == [] || publics == [] then []
      else [xShared(privates[0], publics[0])] + XShareds(privates[1..], publics[1..])
    }

    function ServerResponse(kx: KeyExchange, client: KeyPayload, private: Bytes, chain: seq<Bytes>, secret: Bytes, coins: Bytes)
      : Option<(Bytes, KeyPayload)>
    {
      if client.kind != kx then None
      else match kx
        case DhChain =>
          if !client.Publics? || |client.publics| != 3 then None
          else DigestOr(XShareds(chain, client.publics), "vpn dh-chain v1", Publics(kx, XPublics(chain)))
        case Ecdh =>
          if !client.Public? then None
          else Some((ecShared(private, client.public), Public(kx, ecPublic(private))))
        case TreeKem =>
          if !client.Public? then None
          else
            var shared := xShared(private, client.public);
            DigestOr([client.public, xPublic(private), shared], "vpn treekem two-party root v1", Public(kx, xPublic(private)))
        case ChainedKdf =>
          if !client.Public? then None
          else Some((ChainedKdf(xShared(private, client.public)), Public(kx, xPublic(private))))
        case RsaOaep =>
          if !client.Public? then None
          else Some((secret, Ciphertext(kx, rsaEncrypt(client.public, secret, coins))))
        case MlKem =>
          if !client.Public? then None
          else var (shared, ciphertext) := kemEncapsulate(client.public, coins); Some((shared, Ciphertext(kx, ciphertext)))
    }

    function DigestOr(parts: seq<Bytes>, context: string, payload: KeyPayload): Option<(Bytes, KeyPayload)> {
      match Digest(sha256, parts, Ascii(context))
      case None => None
      case Some(digest) => Some((digest, payload))
    }

    function ClientFinish(kx: KeyExchange, private: Bytes, chain: seq<Bytes>, client: KeyPayload, server: KeyPayload): Option<Bytes> {
      if server.kind != kx then None
      else match kx
        case DhChain =>
          if !server.Publics? || |server.publics| != 3 then None
          else Digest(sha256, XShareds(chain, server.publics), Ascii("vpn dh-chain v1"))
        case Ecdh => if !server.Public? then None else Some(ecShared(private, server.public))
        case TreeKem =>
          if !server.Public? || !client.Public? then None
          else Digest(sha256, [client.public, server.public, xShared(private, server.public)], Ascii("vpn treekem two-party root v1"))
        case ChainedKdf => if !server.Public? then None else Some(ChainedKdf(xShared(private, server.public)))
        case RsaOaep => if !server.Ciphertext? then None else Some(rsaDecrypt(private, server.ciphertext))
        case MlKem => if !server.Ciphertext? then None else Some(kemDecapsulate(private, server.ciphertext))
    }

    // The server's dh-chain: a fresh key for each of the client's three.
    method AnswerChain(privates: seq<Bytes>, clientPublics: seq<Bytes>) returns (publics: seq<Bytes>, shared: seq<Bytes>)
      requires |privates| == |clientPublics|
      ensures publics == XPublics(privates) && shared == XShareds(privates, clientPublics)
    {
      publics, shared := [], [];
      for i := 0 to |clientPublics|
        invariant XPublics(privates) == publics + XPublics(privates[i..])
        invariant XShareds(privates, clientPublics) == shared + XShareds(privates[i..], clientPublics[i..])
      {
        assert privates[i..][1..] == privates[i + 1..] && clientPublics[i..][1..] == clientPublics[i + 1..];
        publics := publics + [xPublic(privates[i])];
        shared := shared + [xShared(privates[i], clientPublics[i])];
      }
    }

    lemma {:induction false} SharedSecretsMirror(a: seq<Bytes>, b: seq<Bytes>)
      requires Lawful() && |a| == |b|
      ensures XShareds(a, XPublics(b)) == XShareds(b, XPublics(a)) && |XPublics(a)| == |a|
      ensures Short(XShareds(a, XPublics(b)))
    {
      if a != [] {
        assert DhLaw(a[0], b[0]) && DhLaw(a[0], xPublic(b[0]));
        SharedSecretsMirror(a[1..], b[1..]);
        assert XPublics(a)[1..] == XPublics(a[1..]) && XPublics(b)[1..] == XPublics(b[1..]);
      }
    }

    // Every key exchange succeeds and leaves both sides with one secret.
    lemma KeyExchangeAgrees(kx: KeyExchange, a: Bytes, chainA: seq<Bytes>, b: Bytes, chainB: seq<Bytes>, secret: Bytes, coins: Bytes)
      requires Lawful() && |chainA| == |chainB| == 3
      ensures var client := ClientPayload(kx, a, chainA);
              var answer := ServerResponse(kx, client, b, chainB, secret, coins);
              answer.Some? && ClientFinish(kx, a, chainA, client, answer.value.1) == Some(answer.value.0)
    {
      hide Digest;
      match kx
      case DhChain =>
        SharedSecretsMirror(chainA, chainB);
        SharedSecretsMirror(chainB, chainA);
        DigestOfShort(XShareds(chainB, XPublics(chainA)), "vpn dh-chain v1");
      case Ecdh => assert DhLaw(a, b);
      case TreeKem =>
        assert DhLaw(a, b) && DhLaw(b, xPublic(a));
        DigestOfShort([xPublic(a), xPublic(b), xShared(b, xPublic(a))], "vpn treekem two-party root v1");
      case ChainedKdf => assert DhLaw(a, b);
      case RsaOaep => assert TransportLaw(a, secret, coins);
      case MlKem => assert TransportLaw(a, secret, coins);
    }

    // Which secret each exchange gives both sides.
    lemma SharedSecret(kx: KeyExchange, a: Bytes, chainA: seq<Bytes>, b: Bytes, chainB: seq<Bytes>, secret: Bytes, coins: Bytes)
      requires Lawful() && |chainA| == |chainB| == 3
      ensures var answer := ServerResponse(kx, ClientPayload(kx, a, chainA), b, chainB, secret, coins);
              answer.Some? && answer.value.0 == match kx
                case Ecdh => ecShared(a, ecPublic(b))
                case DhChain =>
                  sha256(Ascii("vpn dh-chain v1")
                         + ([0, 32] + xShared(chainA[0], xPublic(chainB[0])))
                         + ([0, 32] + xShared(chainA[1], xPublic(chainB[1])))
                         + ([0, 32] + xShared(chainA[2], xPublic(chainB[2]))))
                case TreeKem =>
                  sha256(Ascii("vpn treekem two-party root v1")
                         + ([0, 32] + xPublic(a)) + ([0, 32] + xPublic(b)) + ([0, 32] + xShared(a, xPublic(b))))
                case ChainedKdf =>
                  hkdf(hkdf(hkdf(xShared(a, xPublic(b)), [], Ascii("vpn chained-kdf stage 1"), 32),
                            [], Ascii("vpn chained-kdf stage 2"), 32),
                       [], Ascii("vpn chained-kdf stage 3"), 32)
                case RsaOaep => secret
                case MlKem => kemEncapsulate(kemPublic(a), coins).0
    {
      hide Ascii, Digest, PartsInput;
      assert DhLaw(a, b) && DhLaw(b, xPublic(a));
      match kx
      case DhChain =>
        assert DhLaw(chainA[0], chainB[0]) && DhLaw(chainA[1], chainB[1]) && DhLaw(chainA[2], chainB[2]);
        assert DhLaw(chainB[0], xPublic(chainA[0])) && DhLaw(chainB[1], xPublic(chainA[1])) && DhLaw(chainB[2], xPublic(chainA[2]));
        SharedsInOrder(chainB, chainA);
        var shareds := XShareds(chainB, XPublics(chainA));
        assert shareds == [shareds[0], shareds[1], shareds[2]];
        DigestOfThree(xShared(chainB[0], xPublic(chainA[0])), xShared(chainB[1], xPublic(chainA[1])),
                      xShared(chainB[2], xPublic(chainA[2])), "vpn dh-chain v1");
      case TreeKem =>
        DigestOfThree(xPublic(a), xPublic(b), xShared(b, xPublic(a)), "vpn treekem two-party root v1");
      case _ =>
    }

    // A side goes on with a key payload of the shape of its exchange only.
    lemma ServerAcceptsPayloads(kx: KeyExchange, client: KeyPayload, private: Bytes, chain: seq<Bytes>, secret: Bytes, coins: Bytes)
      requires Lawful() && |chain| == 3
      ensures ServerResponse(kx, client, private, chain, secret, coins).Some? <==>
                && client.kind == kx
                && if kx == DhChain then client.Publics? && |client.publics| == 3
                   else client.Public? && (kx == TreeKem ==> |client.public| < 65_536)
    {
      hide Ascii, PartsInput;
      assert DhLaw(private, []);
      SharedsAre32(chain, if client.Publics? then client.publics else []);
      if client.Public? {
        assert DhLaw(private, client.public);
        var parts := [client.public, xPublic(private), xShared(private, client.public)];
        assert Short(parts) <==> |client.public| < 65_536 by {
          assert parts[0] == client.public;
        }
      }
    }

    lemma ClientAcceptsPayloads(kx: KeyExchange, private: Bytes, chain: seq<Bytes>, client: KeyPayload, server: KeyPayload)
      requires Lawful() && |chain| == 3
      ensures ClientFinish(kx, private, chain, client, server).Some? <==>
                && server.kind == kx
                && match kx
                   case DhChain => server.Publics? && |server.publics| == 3
                   case Ecdh | ChainedKdf => server.Public?
                   case TreeKem => server.Public? && client.Public? && |server.public| < 65_536 && |client.public| < 65_536
                   case RsaOaep | MlKem => server.Ciphertext?
    {
      hide Ascii, PartsInput;
      SharedsAre32(chain, if server.Publics? then server.publics else []);
      if server.Public? && client.Public? {
        assert DhLaw(private, server.public);
        var parts := [client.public, server.public, xShared(private, server.public)];
        assert Short(parts) <==> |client.public| < 65_536 && |server.public| < 65_536 by {
          assert parts[0] == client.public && parts[1] == server.public;
        }
      }
    }

    lemma {:induction false} SharedsAre32(privates: seq<Bytes>, publics: seq<Bytes>)
      requires Lawful()
      ensures Short(XShareds(privates, publics))
    {
      if privates != [] && publics != [] {
        assert DhLaw(privates[0], publics[0]);
        SharedsAre32(privates[1..], publics[1..]);
      }
    }

    lemma {:induction false} SharedsInOrder(own: seq<Bytes>, foreign: seq<Bytes>)
      requires |own| == |foreign|
      ensures |XPublics(foreign)| == |XShareds(own, XPublics(foreign))| == |own|
      ensures forall i :: 0 <= i < |own| ==> XShareds(own, XPublics(foreign))[i] == xShared(own[i], xPublic(foreign[i]))
    {
      if own != [] {
        SharedsInOrder(own[1..], foreign[1..]);
        assert XPublics(foreign)[1..] == XPublics(foreign[1..]);
      }
    }

    lemma DigestOfThree(x: Bytes, y: Bytes, z: Bytes, context: string)
      requires |x| == |y| == |z| == 32
      ensures Digest(sha256, [x, y, z], Ascii(context))
           == Some(sha256(Ascii(context) + ([0, 32] + x) + ([0, 32] + y) + ([0, 32] + z)))
    {
      hide Ascii;
      var none: seq<Bytes> := [];
      assert [x] + none == [x] && [y] + [z] == [y, z] && [x] + [y, z] == [x, y, z] && [z] + none == [z];
      PartsInputFront(z, none);
      PartsInputFront(y, [z]);
      PartsInputFront(x, [y, z]);
      assert BigEndian(32, 2) == [0, 32];
      assert Ascii(context) + PartsInput([x, y, z]) == Ascii(context) + ([0, 32] + x) + ([0, 32] + y) + ([0, 32] + z);
    }

    lemma DigestOfShort(parts: seq<Bytes>, context: string)
      requires Short(parts)
      ensures Digest(sha256, parts, Ascii(context)).Some?
    {
    }
  }
}
