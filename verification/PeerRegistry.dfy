/** PeerRegistry of packet_manager.py: which VPN address and which device tag
    belong to which session, and which addresses a handshake has reserved. */
module PeerRegistry {
  import opened Bytes
  import opened Results
  import opened Framing
  import opened SessionCipher
  import opened Tunnel

  // An IPv4 address as a number.
  type Ip = nat
  type Tag = string

  function Pow2(n: nat): (p: nat)
    ensures p > 0
  {
    if n == 0 then 1 else 2 * Pow2(n - 1)
  }

  // An IPv4 network: the address with its host bits cleared, and the prefix.
  datatype Network = Network(address: nat, prefix: nat) {
    function Size(): nat
      requires prefix <= 32
    {
      Pow2(32 - prefix)
    }

    predicate Valid() {
      prefix <= 32 && address % Size() == 0 && address + Size() <= TWO_32
    }

    predicate Contains(ip: Ip)
      requires Valid()
    {
      address <= ip < address + Size()
    }

    // hosts(): without network and broadcast address, except in the two
    // smallest networks.
    function FirstHost(): nat
      requires Valid()
    {
      if prefix < 31 then address + 1 else address
    }

    function EndOfHosts(): nat
      requires Valid()
    {
      if prefix < 31 then address + Size() - 1 else address + Size()
    }

    predicate Host(ip: Ip)
      requires Valid()
    {
      FirstHost() <= ip < EndOfHosts()
    }

    predicate Assignable(server: Ip, ip: Ip)
      requires Valid()
    {
      Host(ip) && ip != server
    }
  }

  // A device tag counts only when there is one and it is not empty.
  predicate Tagged(tag: Option<Tag>) {
    tag.Some? && tag.value != ""
  }

  lemma TaggedMeaning(name: Tag)
    ensures !Tagged(None) && (Tagged(Some(name)) <==> |name| > 0)
  {
  }

  lemma {:induction false} DivisionOfBlocks(x: nat, y: nat, size: nat)
    requires size > 0 && x % size == 0
    ensures x <= y < x + size <==> y / size == x / size
  {
    assert x == x / size * size && y == y / size * size + y % size;
    if y / size > x / size {
      assert y / size * size >= (x / size + 1) * size;
    } else if y / size < x / size {
      assert (y / size + 1) * size <= x / size * size;
    }
  }

  // The addresses of a network are those with its leading `prefix` bits, and
  // its hosts all of them, or from 4 addresses on all but the lowest and the
  // highest.
  lemma HostsOfNetwork(net: Network, ip: Ip)
    requires net.Valid()
    ensures net.Contains(ip) <==> ip / Pow2(32 - net.prefix) == net.address / Pow2(32 - net.prefix)
    ensures net.Host(ip) <==>
              && net.Contains(ip)
              && (net.prefix < 31 ==> (exists lower: Ip :: lower < ip && net.Contains(lower))
                                      && (exists higher: Ip :: ip < higher && net.Contains(higher)))
  {
    DivisionOfBlocks(net.address, ip, net.Size());
    if net.Contains(ip) && net.prefix < 31 {
      if net.Host(ip) {
        assert net.Contains(ip - 1) && net.Contains(ip + 1);
      }
    }
    assert net.prefix == 32 ==> net.Size() == 1;
  }

  lemma {:induction false} Pow2Splits(m: nat, n: nat)
    ensures Pow2(m + n) == Pow2(m) * Pow2(n)
  {
    if m > 0 {
      Pow2Splits(m - 1, n);
      var p, q := Pow2(m - 1), Pow2(n);
      assert 2 * (p * q) == (2 * p) * q;
    }
  }

  lemma MoreBlocks(a: nat, b: nat, size: nat)
    requires a <= b
    ensures a * size <= b * size
  {
    assert b * size == a * size + (b - a) * size;
  }

  lemma FewerBlocks(a: nat, b: nat, size: nat)
    requires a * size < b * size
    ensures a < b
  {
    if a >= b {
      MoreBlocks(b, a, size);
    }
  }

  lemma BlockIsWhole(block: nat, size: nat)
    requires size > 0
    ensures block * size % size == 0
  {
    var x := block * size;
    assert x == x / size * size + x % size;
    if block > x / size {
      MoreBlocks(x / size + 1, block, size);
    } else if block < x / size {
      MoreBlocks(block, x / size, size);
    } else {
      assert x % size == 0;
    }
    FewerBlocks(x / size, block + 1, size);
  }

  lemma BlockInSpace(address: nat, count: nat, size: nat)
    requires size > 0 && address < count * size
    ensures address / size * size <= address < address / size * size + size <= count * size
    ensures address / size * size % size == 0
  {
    var block := address / size;
    assert address == block * size + address % size;
    FewerBlocks(block, count, size);
    MoreBlocks(block + 1, count, size);
    assert (block + 1) * size == block * size + size;
    BlockIsWhole(block, size);
  }

  // Any address and prefix make a network, the address with its host bits
  // cleared, and it contains the address.
  lemma NetworkOfAddress(address: nat, prefix: nat)
    requires prefix <= 32 && address < TWO_32
    ensures var size := Pow2(32 - prefix);
            var net := Network(address / size * size, prefix);
            net.Valid() && net.Contains(address)
  {
    Pow2Of32();
    Pow2Splits(prefix, 32 - prefix);
    hide Pow2;
    BlockInSpace(address, Pow2(prefix), Pow2(32 - prefix));
  }

  lemma Pow2Of32()
    ensures Pow2(32) == TWO_32
  {
    assert Pow2(4) == 16;
    Pow2Splits(4, 4);
    Pow2Splits(8, 8);
    Pow2Splits(16, 16);
  }

  // 10.8.0.0/24 has the hosts 10.8.0.1 to 10.8.0.254.
  lemma DefaultNetwork(ip: Ip)
    ensures var net := Network(0x0A08_0000, 24);
            net.Valid() && (net.Host(ip) <==> 0x0A08_0001 <= ip <= 0x0A08_00FE)
  {
    assert Pow2(4) == 16;
    assert Pow2(8) == 16 * Pow2(4) == 256;
  }

  // The registry's three tables, for peers of any kind.
  datatype Registry<P(==)> = Registry(peers: map<Ip, P>, tags: map<Tag, P>, reserved: set<Ip>) {
    predicate Free(net: Network, server: Ip, ip: Ip)
      requires net.Valid()
    {
      net.Assignable(server, ip) && ip !in peers && ip !in reserved
    }

    ghost predicate FirstFree(net: Network, server: Ip, ip: Ip)
      requires net.Valid()
    {
      Free(net, server, ip) && forall lower: Ip :: lower < ip ==> !Free(net, server, lower)
    }

    ghost predicate Exhausted(net: Network, server: Ip)
      requires net.Valid()
    {
      forall ip: Ip :: !Free(net, server, ip)
    }

    // Reserved and registered addresses are different hosts of the network,
    // and none of them is the server's.
    ghost predicate PoolInv(net: Network, server: Ip)
      requires net.Valid()
    {
      && reserved !! peers.Keys
      && forall ip :: ip in reserved || ip in peers ==> net.Assignable(server, ip)
    }

    function Reserve(ip: Ip): Registry<P> {
      this.(reserved := reserved + {ip})
    }

    function Release(ip: Ip): Registry<P> {
      this.(reserved := reserved - {ip})
    }

    function Register(ip: Ip, tag: Option<Tag>, p: P): Registry<P> {
      Registry(peers[ip := p], if Tagged(tag) then tags[tag.value := p] else tags, reserved - {ip})
    }

    // The session that a registration under this tag replaces.
    function Previous(tag: Option<Tag>): Option<P> {
      if Tagged(tag) && tag.value in tags then Some(tags[tag.value]) else None
    }

    function Remove(ip: Ip, tag: Option<Tag>, p: P): Registry<P> {
      Registry(
        if ip in peers && peers[ip] == p then peers - {ip} else peers,
        if Tagged(tag) && tag.value in tags && tags[tag.value] == p then tags - {tag.value} else tags,
        reserved)
    }
  }

  // The addresses a session can have.
  function Pool(net: Network, server: Ip): (pool: set<Ip>)
    requires net.Valid()
    ensures forall ip :: ip in pool <==> net.Assignable(server, ip)
  {
    set ip: Ip | net.FirstHost() <= ip < net.EndOfHosts() && net.Assignable(server, ip)
  }

  lemma SubsetCardinality<T>(a: set<T>, b: set<T>)
    requires a <= b
    ensures |a| <= |b|
  {
    if a != {} {
      var x :| x in a;
      SubsetCardinality(a - {x}, b - {x});
    }
  }

  // Sessions, finished and half-open together, never outnumber the pool.
  lemma PoolBoundsSessions<P>(net: Network, server: Ip, r: Registry<P>)
    requires net.Valid() && r.PoolInv(net, server)
    ensures |r.reserved| + |r.peers| <= |Pool(net, server)|
  {
    assert r.reserved + r.peers.Keys <= Pool(net, server);
    SubsetCardinality(r.reserved + r.peers.Keys, Pool(net, server));
    assert |r.peers| == |r.peers.Keys|;
  }

  // One accepted connection with its sending cipher.
  class PeerConnection {
    const sock: Socket
    const sendCipher: SessionCipher
    const vpnIp: Ip
    const deviceTag: Option<Tag>
    var stopped: bool

    constructor (sock: Socket, sendCipher: SessionCipher, vpnIp: Ip, deviceTag: Option<Tag>)
      ensures this.sock == sock && this.sendCipher == sendCipher
      ensures this.vpnIp == vpnIp && this.deviceTag == deviceTag && !stopped
    {
      this.sock, this.sendCipher := sock, sendCipher;
      this.vpnIp, this.deviceTag := vpnIp, deviceTag;
      stopped := false;
    }

    // Encrypt and frame under one lock; a packet that fits no frame fails
    // after its number has been taken.
    method SendPacket(packet: Bytes) returns (r: Result<(), SendError>)
      requires sendCipher.aead.Lawful()
      modifies sock`written, sendCipher`sendSequence
      ensures sendCipher.sendSequence == old(sendCipher.sendSequence) + 1
      ensures r.Success? <==> Sendable(old(sendCipher.sendSequence), packet)
      ensures sock.written == old(sock.written)
                + Wire(SentRecords(sendCipher.aead, sendCipher.key, old(sendCipher.sendSequence), [packet]))
    {
      hide Record, Frame;
      var cipher, sequence := sendCipher, sendCipher.sendSequence;
      var encrypted := cipher.Encrypt(packet);
      SendOne(cipher.aead, cipher.key, sequence, packet);
      if encrypted.Failure? {
        return Failure(SealFailed);
      }
      var sent := SendFrame(sock, encrypted.value);
      if sent.Failure? {
        return Failure(FrameFailed);
      }
      return Success(());
    }

    method Close()
      modifies this`stopped
      ensures stopped
    {
      stopped := true;
    }
  }

  lemma SendOne(aead: Aead, key: Bytes, sequence: nat, packet: Bytes)
    requires aead.Lawful()
    ensures |Record(aead, key, sequence, packet)| == |packet| + RECORD_OVERHEAD
    ensures Wire(SentRecords(aead, key, sequence, [packet]))
         == if Sendable(sequence, packet) then Frame(Record(aead, key, sequence, packet)) else []
  {
    var sealed := aead.seal(key, Nonce(sequence), packet, Aad(sequence));
    assert aead.Law(key, Nonce(sequence), packet, sealed, Aad(sequence));
    var rest: seq<Bytes> := [packet][1..];
    assert rest == [] && SentRecords(aead, key, sequence + 1, rest) == [];
    WireOne(Record(aead, key, sequence, packet));
  }

  datatype RegistryError = PoolExhausted | NotReserved

  class PeerRegistry {
    const network: Network
    const serverIp: Ip
    var peers: map<Ip, PeerConnection>
    var tags: map<Tag, PeerConnection>
    var reserved: set<Ip>

    // Every entry is filed under its own address and its own tag.
    ghost predicate Valid()
      reads this
    {
      && network.Valid() && network.Contains(serverIp)
      && View().PoolInv(network, serverIp)
      && (forall ip :: ip in peers ==> peers[ip].vpnIp == ip)
      && (forall tag :: tag in tags ==> tag != "" && tags[tag].deviceTag == Some(tag))
    }

    function View(): Registry<PeerConnection>
      reads this
    {
      Registry(peers, tags, reserved)
    }

    constructor (network: Network, serverIp: Ip)
      requires network.Valid() && network.Contains(serverIp)
      ensures Valid() && View() == Registry(map[], map[], {})
      ensures this.network == network && this.serverIp == serverIp
    {
      this.network, this.serverIp := network, serverIp;
      peers, tags, reserved := map[], map[], {};
    }

    method ReserveIp() returns (r: Result<Ip, RegistryError>)
      requires Valid()
      modifies this`reserved
      ensures Valid()
      ensures r.Success? ==> old(View()).FirstFree(network, serverIp, r.value) && View() == old(View()).Reserve(r.value)
      ensures r.Failure? ==> r.error == PoolExhausted && old(View()).Exhausted(network, serverIp) && View() == old(View())
    {
      var candidate := network.FirstHost();
      while candidate < network.EndOfHosts()
        invariant Valid() && View() == old(View())
        invariant forall lower: Ip :: lower < candidate ==> !View().Free(network, serverIp, lower)
      {
        if candidate != serverIp && candidate !in peers && candidate !in reserved {
          reserved := reserved + {candidate};
          return Success(candidate);
        }
        candidate := candidate + 1;
      }
      return Failure(PoolExhausted);
    }

    method ReleaseIp(ip: Ip)
      requires Valid()
      modifies this`reserved
      ensures Valid() && View() == old(View()).Release(ip)
    {
      reserved := reserved - {ip};
    }

    // The tables change under the lock; the replaced session is closed after.
    method Register(peer: PeerConnection) returns (r: Result<(), RegistryError>)
      requires Valid()
      modifies this`peers, this`tags, this`reserved, tags.Values
      ensures Valid()
      ensures r.Success? <==> peer.vpnIp in old(reserved)
      ensures View() == if r.Success? then old(View()).Register(peer.vpnIp, peer.deviceTag, peer) else old(View())
      ensures forall p :: p in old(tags.Values) ==>
                p.stopped == (old(p.stopped) || (r.Success? && p != peer && old(View()).Previous(peer.deviceTag) == Some(p)))
    {
      if peer.vpnIp !in reserved {
        return Failure(NotReserved);
      }
      var previous: Option<PeerConnection> := None;
      reserved := reserved - {peer.vpnIp};
      peers := peers[peer.vpnIp := peer];
      if Tagged(peer.deviceTag) {
        if peer.deviceTag.value in tags {
          previous := Some(tags[peer.deviceTag.value]);
        }
        tags := tags[peer.deviceTag.value := peer];
      }
      if previous.Some? && previous.value != peer {
        previous.value.Close();
      }
      return Success(());
    }

    method Remove(peer: PeerConnection)
      requires Valid()
      modifies this`peers, this`tags
      ensures Valid() && View() == old(View()).Remove(peer.vpnIp, peer.deviceTag, peer)
    {
      if peer.vpnIp in peers && peers[peer.vpnIp] == peer {
        peers := peers - {peer.vpnIp};
      }
      if Tagged(peer.deviceTag) && peer.deviceTag.value in tags && tags[peer.deviceTag.value] == peer {
        tags := tags - {peer.deviceTag.value};
      }
    }

    // What a lookup finds is never the server and is filed under that address.
    method Get(ip: Ip) returns (r: Option<PeerConnection>)
      requires Valid()
      ensures r == if ip in peers then Some(peers[ip]) else None
      ensures r.Some? ==> r.value.vpnIp == ip != serverIp && network.Contains(ip)
    {
      if ip in peers {
        assert network.Assignable(serverIp, ip);
        return Some(peers[ip]);
      }
      return None;
    }
  }
}
