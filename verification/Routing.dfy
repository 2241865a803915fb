/** The routing loop of one peer: every decrypted packet goes to the peer that
    holds its destination, to the server's TUN device, or nowhere. */
module Routing {
  import opened Bytes
  import opened Results
  import opened Framing
  import opened SessionCipher
  import opened Tunnel
  import opened PeerRegistry
  import opened SessionLifecycle

  // Source and destination of a complete IPv4 header (RFC 791, section 3.1).
  function Endpoints(packet: Bytes): Option<(Ip, Ip)> {
    if |packet| < 20 || packet[0] / 16 != 4 then None
    else
      var headerLength := packet[0] % 16 * 4;
      if headerLength < 20 || |packet| < headerLength then None
      else Some((FromBigEndian(packet[12..16]), FromBigEndian(packet[16..20])))
  }

  // A whole IPv4 header: the version and the number of header words in the
  // first byte, and as many words.
  predicate WholeHeader(packet: Bytes) {
    |packet| >= 20 && 64 + 5 <= packet[0] <= 64 + 15 && |packet| >= 4 * (packet[0] - 64)
  }

  lemma EndpointsAreHeaderFields(packet: Bytes)
    ensures Endpoints(packet).Some? <==> WholeHeader(packet)
    ensures WholeHeader(packet) ==> Endpoints(packet) == Some((FromBigEndian(packet[12..16]), FromBigEndian(packet[16..20])))
  {
    hide FromBigEndian;
  }

  // Twelve bytes of a header, then the source, then the destination.
  lemma EndpointsOfHeader(head: Bytes, source: Ip, destination: Ip, rest: Bytes)
    requires |head| == 12 && 64 + 5 <= head[0] <= 64 + 15 && 20 + |rest| >= 4 * (head[0] - 64)
    requires source < TWO_32 && destination < TWO_32
    ensures Endpoints(head + BigEndian(source, 4) + BigEndian(destination, 4) + rest) == Some((source, destination))
  {
    hide BigEndian, FromBigEndian;
    PowerValues();
    var packet := head + BigEndian(source, 4) + BigEndian(destination, 4) + rest;
    assert packet[12..16] == BigEndian(source, 4) && packet[16..20] == BigEndian(destination, 4);
    BigEndianRoundTrip(source, 4);
    BigEndianRoundTrip(destination, 4);
    EndpointsAreHeaderFields(packet);
  }

  datatype Outcome = Drop | ToPeer(ip: Ip) | ToTun

  // What the registry answers while one packet is handled: the addresses with
  // a registered session.
  type Lookup = set<Ip>

  datatype Router = Router(net: Network, server: Ip, vpnIp: Ip) {

    function Route(registered: Lookup, packet: Bytes): Outcome
      requires net.Valid()
    {
      match Endpoints(packet)
      case None => Drop
      case Some((source, destination)) =>
        if source != vpnIp then Drop
        else if destination in registered then ToPeer(destination)
        else if net.Contains(destination) && destination != server then Drop
        else ToTun
    }

    // An address of the VPN that only a peer could have.
    predicate InVpn(ip: Ip)
      requires net.Valid()
    {
      net.Contains(ip) && ip != server
    }

    predicate OwnPacket(packet: Bytes) {
      WholeHeader(packet) && FromBigEndian(packet[12..16]) == vpnIp
    }

    function Destination(packet: Bytes): Ip
      requires WholeHeader(packet)
    {
      FromBigEndian(packet[16..20])
    }

    // Everything the loop hands on, in the order it does.
    function Deliveries(lookups: seq<Lookup>, packets: seq<Bytes>): seq<Delivery>
      requires net.Valid() && |lookups| == |packets|
      decreases |packets|
    {
      if packets == [] then [] else
        var last := |packets| - 1;
        var outcome := Route(lookups[last], packets[last]);
        Deliveries(lookups[..last], packets[..last])
        + (if outcome.Drop? then [] else [Delivery(outcome, packets[last])])
    }

    // Deliveries are the routed packets, each once, in input order.
    ghost predicate InInputOrder(lookups: seq<Lookup>, packets: seq<Bytes>, out: seq<Delivery>, at: seq<nat>)
      requires net.Valid() && |lookups| == |packets|
    {
      && |at| == |out|
      && (forall i, j :: 0 <= i < j < |at| ==> at[i] < at[j])
      && (forall k :: 0 <= k < |at| ==>
            && at[k] < |packets|
            && out[k] == Delivery(Route(lookups[at[k]], packets[at[k]]), packets[at[k]])
            && !out[k].outcome.Drop?)
      && (forall i :: 0 <= i < |packets| && i !in at ==> Route(lookups[i], packets[i]).Drop?)
    }

    lemma {:induction false} DeliveriesKeepInputOrder(lookups: seq<Lookup>, packets: seq<Bytes>) returns (at: seq<nat>)
      requires net.Valid() && |lookups| == |packets|
      ensures InInputOrder(lookups, packets, Deliveries(lookups, packets), at)
      decreases |packets|
    {
      if packets == [] {
        at := [];
      } else {
        hide Route, InInputOrder;
        var last := |packets| - 1;
        at := DeliveriesKeepInputOrder(lookups[..last], packets[..last]);
        var out := Deliveries(lookups[..last], packets[..last]);
        assert lookups == lookups[..last] + [lookups[last]] && packets == packets[..last] + [packets[last]];
        if Route(lookups[last], packets[last]).Drop? {
          DroppedKeepsOrder(lookups[..last], packets[..last], out, at, lookups[last], packets[last]);
          assert out + [] == out;
        } else {
          RoutedKeepsOrder(lookups[..last], packets[..last], out, at, lookups[last], packets[last]);
          at := at + [last];
        }
      }
    }

    lemma DroppedKeepsOrder(lookups: seq<Lookup>, packets: seq<Bytes>, out: seq<Delivery>, at: seq<nat>,
                            lookup: Lookup, packet: Bytes)
      requires net.Valid() && |lookups| == |packets| && InInputOrder(lookups, packets, out, at)
      requires Route(lookup, packet).Drop?
      ensures InInputOrder(lookups + [lookup], packets + [packet], out, at)
    {
      hide Route;
    }

    lemma RoutedKeepsOrder(lookups: seq<Lookup>, packets: seq<Bytes>, out: seq<Delivery>, at: seq<nat>,
                           lookup: Lookup, packet: Bytes)
      requires net.Valid() && |lookups| == |packets| && InInputOrder(lookups, packets, out, at)
      requires !Route(lookup, packet).Drop?
      ensures InInputOrder(lookups + [lookup], packets + [packet],
                           out + [Delivery(Route(lookup, packet), packet)], at + [|packets|])
    {
      hide Route;
      var at' := at + [|packets|];
      assert |packets| in at' by { assert at'[|at|] == |packets|; }
    }

    method RouteOne(registered: Lookup, packet: Bytes) returns (outcome: Outcome)
      requires net.Valid()
      ensures outcome == Route(registered, packet)
    {
      var endpoints := Endpoints(packet);
      if endpoints.None? {
        return Drop;
      }
      var (source, destination) := endpoints.value;
      if source != vpnIp {
        return Drop;
      }
      if destination in registered {
        return ToPeer(destination);
      }
      if net.Contains(destination) && destination != server {
        return Drop;
      }
      return ToTun;
    }

    // Draw one peer's frames, open each and route what it holds before the next
    // is drawn.  `lookups` are the registry's answers, one for each packet, as
    // other threads change it in between; `frames` are those drawn.
    method RoutePeer(sock: Socket, cipher: SessionCipher, polls: nat, lookups: nat -> Lookup)
      returns (out: seq<Delivery>, failed: bool, ghost frames: seq<Bytes>, ghost taken: Bytes)
      requires net.Valid() && sock.Valid()
      modifies sock`arrivals, cipher`receiveSequence
      ensures taken + sock.Incoming() == old(sock.Incoming()) && frames <= Decode(taken).frames
      ensures var got := Receive(cipher.aead, cipher.key, old(cipher.receiveSequence), frames);
              && |frames| == |got.packets| + (if got.failed then 1 else 0)
              && (!got.failed ==> frames == Decode(taken).frames)
              && (failed <==> got.failed || Decode(taken).oversized)
              && out == Deliveries(Answers(lookups, |got.packets|), got.packets)
              && cipher.receiveSequence == old(cipher.receiveSequence) + |got.packets|
    {
      hide Receive, OpenRecord, Decode, Route, Deliveries, Answers;
      ghost var from, packets: seq<Bytes> := cipher.receiveSequence, [];
      var reader := new FrameReader(sock, polls);
      var handled: nat := 0;
      out, frames := [], [];
      NoDeliveries(lookups);
      ReceiveNothing(cipher.aead, cipher.key, from);
      while true
        invariant reader.Valid() && fresh(reader) && reader.sock == sock && reader.given == frames
        invariant reader.taken + sock.Incoming() == old(sock.Incoming())
        invariant Receive(cipher.aead, cipher.key, from, frames) == Received(packets, false)
        invariant |frames| == |packets| == handled && cipher.receiveSequence == from + handled
        invariant out == Deliveries(Answers(lookups, handled), packets)
        decreases |reader.buffer| + |sock.Incoming()|
      {
        var next := reader.Next();
        if next.Ended? {
          return out, next.ending.Rejected?, frames, reader.taken;
        }
        ReceiveOneMore(cipher.aead, cipher.key, from, frames, next.frame);
        frames := frames + [next.frame];
        var packet := cipher.Decrypt(next.frame);
        if packet.Failure? {
          return out, true, frames, reader.taken;
        }
        DeliverNext(lookups, packets, packet.value);
        packets := packets + [packet.value];
        var outcome := RouteOne(lookups(handled), packet.value);
        if !outcome.Drop? {
          out := out + [Delivery(outcome, packet.value)];
        }
        handled := handled + 1;
      }
    }

    function Answers(lookups: nat -> Lookup, n: nat): (answers: seq<Lookup>)
      ensures |answers| == n
    {
      seq(n, (i: nat) => lookups(i))
    }

    lemma NoDeliveries(lookups: nat -> Lookup)
      requires net.Valid()
      ensures Deliveries(Answers(lookups, 0), []) == []
    {
    }

    lemma DeliverNext(lookups: nat -> Lookup, packets: seq<Bytes>, packet: Bytes)
      requires net.Valid()
      ensures var outcome := Route(lookups(|packets|), packet);
              Deliveries(Answers(lookups, |packets| + 1), packets + [packet])
                == Deliveries(Answers(lookups, |packets|), packets) + (if outcome.Drop? then [] else [Delivery(outcome, packet)])
    {
      hide Route, Deliveries;
      assert Answers(lookups, |packets| + 1) == Answers(lookups, |packets|) + [lookups(|packets|)];
      DeliverMore(Answers(lookups, |packets|), packets, lookups(|packets|), packet);
    }

    lemma DeliverMore(lookups: seq<Lookup>, packets: seq<Bytes>, lookup: Lookup, packet: Bytes)
      requires net.Valid() && |lookups| == |packets|
      ensures Deliveries(lookups + [lookup], packets + [packet])
           == Deliveries(lookups, packets)
              + (if Route(lookup, packet).Drop? then [] else [Delivery(Route(lookup, packet), packet)])
    {
      hide Route;
      assert (lookups + [lookup])[..|packets|] == lookups && (packets + [packet])[..|packets|] == packets;
    }
  }

  // Who gets a packet, in every run of the server and said without the order
  // of the checks: only packets with the sender's own address are passed on;
  // the TUN device gets exactly what is for the server or outside the VPN, and
  // a peer exactly what is addressed to the live session holding that address.
  lemma RoutesInEveryRun(server: Server, actions: seq<Action>, vpnIp: Ip, packet: Bytes)
    requires server.net.Valid() && server.net.Contains(server.ip)
    ensures var s := server.Run(server.Start, actions);
            var router := Router(server.net, server.ip, vpnIp);
            Rightly(server, router, s, packet, router.Route(s.registry.peers.Keys, packet))
  {
    hide FromBigEndian, Endpoints;
    EndpointsAreHeaderFields(packet);
    server.EveryRun(actions);
    var s := server.Run(server.Start, actions);
    forall ip ensures ip in s.registry.peers <==> LiveAt(server, s, ip) {
      if ip in s.registry.peers {
        assert server.PeerAt(s, ip, s.registry.peers[ip]);
      }
    }
    assert forall ip :: ip in s.registry.peers ==> server.net.Assignable(server.ip, ip);
  }

  ghost predicate LiveAt(server: Server, s: State, ip: Ip) {
    exists t :: server.PeerAt(s, ip, t)
  }

  // While a stream is routed the server goes on: the i-th packet is looked up
  // after moments[i] of its actions.
  ghost predicate LookedUp(server: Server, actions: seq<Action>, moments: seq<nat>, lookups: seq<Lookup>)
    requires server.net.Valid()
  {
    && |moments| == |lookups|
    && (forall i, j :: 0 <= i <= j < |moments| ==> moments[i] <= moments[j] <= |actions|)
    && (forall i :: 0 <= i < |lookups| ==>
          moments[i] <= |actions| && lookups[i] == server.Run(server.Start, actions[..moments[i]]).registry.peers.Keys)
  }

  ghost function LiveAddresses(server: Server, actions: seq<Action>, moment: nat): Lookup
    requires server.net.Valid()
  {
    server.Run(server.Start, if moment <= |actions| then actions[..moment] else actions).registry.peers.Keys
  }

  // Any moments of any run give such lookups.
  lemma LookupsExist(server: Server, actions: seq<Action>, moments: seq<nat>) returns (lookups: seq<Lookup>)
    requires server.net.Valid()
    requires forall i, j :: 0 <= i <= j < |moments| ==> moments[i] <= moments[j] <= |actions|
    ensures LookedUp(server, actions, moments, lookups)
  {
    lookups := seq(|moments|, i requires 0 <= i < |moments| => LiveAddresses(server, actions, moments[i]));
  }

  // What may become of a packet at a moment.
  ghost predicate Rightly(server: Server, router: Router, s: State, packet: Bytes, outcome: Outcome)
    requires router.net.Valid()
  {
    && (outcome == ToTun <==> router.OwnPacket(packet) && !router.InVpn(router.Destination(packet)))
    && (forall ip :: outcome == ToPeer(ip) <==>
          router.OwnPacket(packet) && router.Destination(packet) == ip && LiveAt(server, s, ip))
    && (outcome == Drop <==>
          !router.OwnPacket(packet)
          || (router.InVpn(router.Destination(packet)) && !LiveAt(server, s, router.Destination(packet))))
  }

  // Over a whole stream, in every run of the server that goes on meanwhile: the
  // deliveries are packets of the stream in input order, each with the
  // sender's own address and each handed on as the registry stood at its own
  // moment, and every packet left out had nowhere to go at its moment.
  lemma StreamRoutedInEveryRun(server: Server, actions: seq<Action>, moments: seq<nat>, vpnIp: Ip,
                               lookups: seq<Lookup>, packets: seq<Bytes>)
    returns (at: seq<nat>)
    requires server.net.Valid() && server.net.Contains(server.ip)
    requires |lookups| == |packets| && LookedUp(server, actions, moments, lookups)
    ensures var router := Router(server.net, server.ip, vpnIp);
            var out := router.Deliveries(lookups, packets);
            && |at| == |out|
            && (forall i, j :: 0 <= i < j < |at| ==> at[i] < at[j])
            && (forall k :: 0 <= k < |at| ==>
                  && at[k] < |packets| && out[k].packet == packets[at[k]]
                  && !out[k].outcome.Drop? && router.OwnPacket(out[k].packet)
                  && moments[at[k]] <= |actions|
                  && Rightly(server, router, server.Run(server.Start, actions[..moments[at[k]]]), out[k].packet, out[k].outcome))
            && (forall i :: 0 <= i < |packets| && i !in at ==>
                  moments[i] <= |actions|
                  && Rightly(server, router, server.Run(server.Start, actions[..moments[i]]), packets[i], Drop))
  {
    var router := Router(server.net, server.ip, vpnIp);
    at := router.DeliveriesKeepInputOrder(lookups, packets);
    forall i | 0 <= i < |packets|
      ensures moments[i] <= |actions|
      ensures Rightly(server, router, server.Run(server.Start, actions[..moments[i]]), packets[i],
                      router.Route(lookups[i], packets[i]))
    {
      RoutesInEveryRun(server, actions[..moments[i]], vpnIp, packets[i]);
    }
    hide Router.Route, Router.Deliveries, Server.Run, Router.InVpn;
  }

  datatype Delivery = Delivery(outcome: Outcome, packet: Bytes)
}
