/** The laws that the handshake and the group keys rest on can be met, all of
    them at once: a library that is no good as cryptography satisfies them. */
module LawfulCrypto {
  import opened Bytes
  import opened Results
  import opened SessionCipher
  import opened Handshake
  import opened HandshakeProtocol

  // ---------------------------------------------------------------------
  // Lists of byte strings as one byte string
  // ---------------------------------------------------------------------

  function Unary(n: nat): Bytes {
    if n == 0 then [0] else [1] + Unary(n - 1)
  }

  lemma {:induction false} UnaryInjective(m: nat, n: nat, x: Bytes, y: Bytes)
    requires Unary(m) + x == Unary(n) + y
    ensures m == n && x == y
  {
    var a, b := Unary(m) + x, Unary(n) + y;
    assert a[0] == (if m == 0 then 0 else 1) && b[0] == (if n == 0 then 0 else 1);
    if m == 0 {
      assert a[1..] == x && b[1..] == y;
    } else {
      assert a[1..] == Unary(m - 1) + x && b[1..] == Unary(n - 1) + y;
      UnaryInjective(m - 1, n - 1, x, y);
    }
  }

  function Pack(fields: seq<Bytes>): Bytes {
    if fields == [] then [0] else [1] + (Unary(|fields[0]|) + (fields[0] + Pack(fields[1..])))
  }

  lemma {:induction false} PackInjective(a: seq<Bytes>, b: seq<Bytes>)
    requires Pack(a) == Pack(b)
    ensures a == b
    decreases |a|
  {
    assert Pack(a)[0] == (if a == [] then 0 else 1) && Pack(b)[0] == (if b == [] then 0 else 1);
    if a != [] {
      assert Pack(a)[1..] == Unary(|a[0]|) + (a[0] + Pack(a[1..])) && Pack(b)[1..] == Unary(|b[0]|) + (b[0] + Pack(b[1..]));
      UnaryInjective(|a[0]|, |b[0]|, a[0] + Pack(a[1..]), b[0] + Pack(b[1..]));
      var n := |a[0]|;
      assert (a[0] + Pack(a[1..]))[..n] == a[0] && (b[0] + Pack(b[1..]))[..n] == b[0];
      assert (a[0] + Pack(a[1..]))[n..] == Pack(a[1..]) && (b[0] + Pack(b[1..]))[n..] == Pack(b[1..]);
      PackInjective(a[1..], b[1..]);
      assert a == [a[0]] + a[1..] && b == [b[0]] + b[1..];
    }
  }

  // ---------------------------------------------------------------------
  // Texts and messages
  // ---------------------------------------------------------------------

  function Wide(s: string): Bytes {
    if s == "" then [] else BigEndian(s[0] as int, 3) + Wide(s[1..])
  }

  lemma {:induction false} WideInjective(s: string, t: string)
    requires Wide(s) == Wide(t)
    ensures s == t
  {
    hide BigEndian;
    if s != "" && t != "" {
      assert Wide(s)[..3] == BigEndian(s[0] as int, 3) && Wide(t)[..3] == BigEndian(t[0] as int, 3);
      assert Wide(s)[3..] == Wide(s[1..]) && Wide(t)[3..] == Wide(t[1..]);
      ThreeBytesSuffice();
      BigEndianInjective(s[0] as int, t[0] as int, 3);
      WideInjective(s[1..], t[1..]);
      assert s == [s[0]] + s[1..] && t == [t[0]] + t[1..];
    }
  }

  lemma ThreeBytesSuffice()
    ensures Pow256(3) == 0x100_0000
  {
    PowerValues();
  }

  function ExchangeCode(kx: KeyExchange): Byte {
    match kx
    case Ecdh => 0
    case DhChain => 1
    case TreeKem => 2
    case ChainedKdf => 3
    case RsaOaep => 4
    case MlKem => 5
  }

  function CipherCode(c: CipherName): Byte {
    match c
    case Aes256Gcm => 0
    case ChaCha20Poly1305 => 1
  }

  function PayloadFields(p: KeyPayload): seq<Bytes> {
    match p
    case Public(kind, public) => [[0, ExchangeCode(kind)], public]
    case Publics(kind, publics) => [[1, ExchangeCode(kind)]] + publics
    case Ciphertext(kind, ciphertext) => [[2, ExchangeCode(kind)], ciphertext]
  }

  lemma PayloadInjective(p: KeyPayload, q: KeyPayload)
    requires PayloadFields(p) == PayloadFields(q)
    ensures p == q
  {
    var a, b := PayloadFields(p), PayloadFields(q);
    assert a[0] == b[0];
    assert a[0][0] == b[0][0] && a[0][1] == b[0][1];
    assert p.kind == q.kind;
    assert a[1..] == b[1..];
    assert p.Publics? ==> a[1..] == p.publics && b[1..] == q.publics;
    assert !p.Publics? ==> a[1] == b[1];
  }

  function Fields(m: Message): seq<Bytes> {
    match m
    case ClientHello(version, kx, c, nonce, payload) =>
      [[0, ExchangeCode(kx), CipherCode(c)], Unary(version), nonce] + PayloadFields(payload)
    case ServerHello(version, kx, c, nonce, vpnIp, payload) =>
      [[1, ExchangeCode(kx), CipherCode(c)], Unary(version), nonce, Wide(vpnIp)] + PayloadFields(payload)
    case DeviceAuth(publicKey, encryptionKey, signature) => [[2], publicKey, encryptionKey, signature]
    case DeviceAuthOk(tag) => [[3], Wide(tag)]
  }

  lemma FieldsInjective(m: Message, n: Message)
    requires Fields(m) == Fields(n)
    ensures m == n
  {
    hide PayloadFields, Unary, Wide, ExchangeCode, CipherCode;
    var a, b := Fields(m), Fields(n);
    assert a[0][0] == b[0][0];
    match m
    case ClientHello(version, kx, c, nonce, payload) =>
      assert a[0][1] == b[0][1] && a[0][2] == b[0][2];
      CodesInjective(kx, n.keyExchange, c, n.cipher);
      assert a[1] == b[1] && a[2] == b[2];
      UnaryInjective(version, n.version, [], []) by { assert Unary(version) + [] == Unary(n.version) + []; }
      assert a[3..] == PayloadFields(payload) && b[3..] == PayloadFields(n.payload);
      PayloadInjective(payload, n.payload);
    case ServerHello(version, kx, c, nonce, vpnIp, payload) =>
      assert a[0][1] == b[0][1] && a[0][2] == b[0][2];
      CodesInjective(kx, n.keyExchange, c, n.cipher);
      assert a[1] == b[1] && a[2] == b[2] && a[3] == b[3];
      UnaryInjective(version, n.version, [], []) by { assert Unary(version) + [] == Unary(n.version) + []; }
      WideInjective(vpnIp, n.vpnIp);
      assert a[4..] == PayloadFields(payload) && b[4..] == PayloadFields(n.payload);
      PayloadInjective(payload, n.payload);
    case DeviceAuth(publicKey, encryptionKey, signature) =>
      assert a[1] == b[1] && a[2] == b[2] && a[3] == b[3];
    case DeviceAuthOk(tag) =>
      assert a[1] == b[1];
      WideInjective(tag, n.tag);
  }

  lemma CodesInjective(kx: KeyExchange, ky: KeyExchange, c: CipherName, d: CipherName)
    requires ExchangeCode(kx) == ExchangeCode(ky) && CipherCode(c) == CipherCode(d)
    ensures kx == ky && c == d
  {
  }

  ghost function Unpack(b: Bytes): Option<Message> {
    if m: Message :| Pack(Fields(m)) == b then Some(m) else None
  }

  // ---------------------------------------------------------------------
  // The library
  // ---------------------------------------------------------------------

  function Zeros(n: nat): (b: Bytes)
    ensures |b| == n
  {
    seq(n, _ => 0)
  }

  // Every key is alike, every signature is good, and nothing is hidden.
  ghost function Toy(aead: Aead): Crypto {
    var key := Zeros(32);
    Crypto(
      (_: Bytes) => key, (_: Bytes, _: Bytes) => key,
      (_: Bytes) => key, (_: Bytes, _: Bytes) => key,
      (_: Bytes) => key, (_: Bytes, secret: Bytes, _: Bytes) => secret, (_: Bytes, secret: Bytes) => secret,
      (_: Bytes) => key, (_: Bytes, coins: Bytes) => (coins, coins), (_: Bytes, coins: Bytes) => coins,
      (_: Bytes) => key, (_: Bytes, _: Bytes) => key, (_: Bytes, _: Bytes, _: Bytes) => true,
      (_: Bytes) => key, (_: Bytes, _: Bytes, _: Bytes, n: nat) => Zeros(n),
      (_: CipherName) => aead,
      (m: Message) => Pack(Fields(m)), (b: Bytes) => Unpack(b),
      (s: string) => Wide(s))
  }

  lemma SomeCryptoIsLawful() returns (c: Crypto)
    ensures c.Lawful()
  {
    var aead := SomeAeadIsLawful();
    c := Toy(aead);
    forall m ensures c.CodecLaw(m) {
      UnpackInvertsPack(m);
    }
    forall s, t ensures c.TextLaw(s, t) {
      if Wide(s) == Wide(t) {
        WideInjective(s, t);
      }
    }
    hide Pack, Fields, Unpack, Wide, Aead.Lawful;
    assert forall a, b :: c.DhLaw(a, b);
    assert forall k, s, r :: c.TransportLaw(k, s, r);
    assert forall k, m :: c.SignatureLaw(k, m);
    assert forall s, t, i, n :: c.DerivationLaw(s, t, i, n);
    assert forall n :: c.CipherLaw(n);
  }

  // So there are handshakes of all kinds to speak of.
  lemma SomeConfigIsValid(kx: KeyExchange, cipher: CipherName, tag: string) returns (c: Config)
    requires tag != ""
    ensures c.Valid() && c.Compatible() && c.keyExchange == kx && c.cipher == cipher && c.tag == tag
  {
    hide Crypto.Lawful;
    var crypto := SomeCryptoIsLawful();
    var key := Zeros(32);
    c := Config(crypto, kx, cipher, None, None, true, "10.8.0.2", tag, key, [key, key, key], key, key, [key, key, key], key,
                key, key, key, key);
  }

  lemma UnpackInvertsPack(m: Message)
    ensures Unpack(Pack(Fields(m))) == Some(m)
  {
    hide Pack, Fields;
    var b := Pack(Fields(m));
    var n := Unpack(b).value;
    assert Pack(Fields(n)) == b;
    PackInjective(Fields(n), Fields(m));
    FieldsInjective(n, m);
  }
}
