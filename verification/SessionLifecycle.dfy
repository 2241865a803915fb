/** _serve_peer of server.py: one thread a connection, all of them sharing the
    registry.  A thread goes through its steps on every success and failure
    path; between two steps any other thread may run. */
module SessionLifecycle {
  import opened Results
  import Framing
  import SessionCipher
  import opened PeerRegistry

  type Thread = nat

  datatype Phase =
    | Fresh
    | Reserved(ip: Ip)                                             // address held, handshake running
    | Rejected(ip: Ip)                                             // handshake raised
    | Built(ip: Ip, tag: Option<Tag>)                              // PeerConnection made
    | Joined(ip: Ip, tag: Option<Tag>, previous: Option<Thread>)   // registered, replaced session not closed yet
    | Active(ip: Ip, tag: Option<Tag>)                             // publishing events, then routing
    | Leaving(ip: Ip, tag: Option<Tag>)                            // about to remove itself
    | Gone(ip: Ip, tag: Option<Tag>)                               // removed, about to close
    | Finished
  {
    predicate HoldsReservation() {
      Reserved? || Rejected? || Built?
    }

    predicate HoldsPeer() {
      Joined? || Active? || Leaving?
    }
  }

  // A thread's PeerConnection is named by the thread.
  datatype State = State(registry: Registry<Thread>, threads: map<Thread, Phase>, stopped: set<Thread>) {
    predicate Has(t: Thread) {
      t in threads
    }

    function At(t: Thread, phase: Phase): State {
      this.(threads := threads[t := phase])
    }
  }

  datatype Action =
    | Accept(t: Thread)
    | Reserve(t: Thread, ip: Ip)
    | PoolExhausted(t: Thread)
    | HandshakeFails(t: Thread)
    | HandshakeSucceeds(t: Thread, tag: Option<Tag>)
    | Release(t: Thread)
    | Register(t: Thread)
    | ClosePrevious(t: Thread)
    | PublishFails(t: Thread)
    | RoutingEnds(t: Thread)
    | Remove(t: Thread)
    | Close(t: Thread)

  datatype Server = Server(net: Network, ip: Ip) {

    // One atomic step; an action that is not enabled changes nothing.
    ghost function Step(s: State, a: Action): State
      requires net.Valid()
    {
      if a.Accept? then
        if s.Has(a.t) then s else s.At(a.t, Fresh)
      else if !s.Has(a.t) then s
      else ThreadStep(s, a, s.threads[a.t])
    }

    ghost function ThreadStep(s: State, a: Action, phase: Phase): State
      requires net.Valid() && s.Has(a.t) && s.threads[a.t] == phase
    {
      match (a, phase)
      case (Reserve(t, address), Fresh) =>
        if s.registry.FirstFree(net, ip, address)
        then s.At(t, Reserved(address)).(registry := s.registry.Reserve(address)) else s
      case (PoolExhausted(t), Fresh) =>
        if s.registry.Exhausted(net, ip) then s.At(t, Finished) else s
      case (HandshakeFails(t), Reserved(address)) => s.At(t, Rejected(address))
      case (HandshakeSucceeds(t, tag), Reserved(address)) => s.At(t, Built(address, tag))
      case (Release(t), Rejected(address)) =>
        s.At(t, Finished).(registry := s.registry.Release(address))
      case (Register(t), Built(address, tag)) =>
        if address in s.registry.reserved
        then s.At(t, Joined(address, tag, s.registry.Previous(tag))).(registry := s.registry.Register(address, tag, t))
        else s.At(t, Leaving(address, tag)) // register raises, having changed nothing
      case (ClosePrevious(t), Joined(address, tag, previous)) =>
        s.At(t, Active(address, tag)).(stopped := if previous.Some? then s.stopped + {previous.value} else s.stopped)
      case (PublishFails(t), Active(address, tag)) => s.At(t, Leaving(address, tag))
      case (RoutingEnds(t), Active(address, tag)) =>
        s.At(t, Leaving(address, tag)).(stopped := s.stopped + {t})
      case (Remove(t), Leaving(address, tag)) =>
        s.At(t, Gone(address, tag)).(registry := s.registry.Remove(address, tag, t))
      case (Close(t), Gone(address, tag)) => s.At(t, Finished).(stopped := s.stopped + {t})
      case _ => s
    }

    ghost function Run(s: State, actions: seq<Action>): State
      requires net.Valid()
      decreases |actions|
    {
      if actions == [] then s else Run(Step(s, actions[0]), actions[1..])
    }

    const Start: State := State(Registry(map[], map[], {}), map[], {})

    // The reserved addresses are exactly those of the threads between
    // reservation and registration or release, one thread each.
    ghost predicate ReservedInv(s: State) {
      && (forall t :: t in s.threads && s.threads[t].HoldsReservation() ==> s.threads[t].ip in s.registry.reserved)
      && (forall address :: address in s.registry.reserved ==> exists t :: ReservedBy(s, address, t))
      && (forall t, u, address :: ReservedBy(s, address, t) && ReservedBy(s, address, u) ==> t == u)
    }

    ghost predicate ReservedBy(s: State, address: Ip, t: Thread) {
      t in s.threads && s.threads[t].HoldsReservation() && s.threads[t].ip == address
    }

    // The peer map is exactly the threads between registration and removal.
    ghost predicate PeersInv(s: State) {
      && (forall t :: t in s.threads && s.threads[t].HoldsPeer() ==>
            s.threads[t].ip in s.registry.peers && s.registry.peers[s.threads[t].ip] == t)
      && (forall address :: address in s.registry.peers ==> PeerAt(s, address, s.registry.peers[address]))
    }

    ghost predicate PeerAt(s: State, address: Ip, t: Thread) {
      t in s.threads && s.threads[t].HoldsPeer() && s.threads[t].ip == address
    }

    // A tag's entry is a registered session with that tag.
    ghost predicate TagsInv(s: State) {
      forall tag :: tag in s.registry.tags ==>
        var t := s.registry.tags[tag];
        tag != "" && t in s.threads && s.threads[t].HoldsPeer() && s.threads[t].tag == Some(tag)
    }

    // A registered session that its tag no longer leads to has been stopped,
    // or the session that replaced it is about to close it.
    ghost predicate ReplacedInv(s: State) {
      forall t :: t in s.threads && s.threads[t].HoldsPeer() && Tagged(s.threads[t].tag) ==> Reachable(s, t)
    }

    ghost predicate Reachable(s: State, t: Thread)
      requires t in s.threads && s.threads[t].HoldsPeer() && Tagged(s.threads[t].tag)
    {
      var tag := s.threads[t].tag.value;
      || (tag in s.registry.tags && s.registry.tags[tag] == t)
      || t in s.stopped
      || exists u :: ClosingNext(s, u, t)
    }

    ghost predicate ClosingNext(s: State, u: Thread, t: Thread) {
      u in s.threads && s.threads[u].Joined? && s.threads[u].previous == Some(t)
    }

    ghost predicate Inv(s: State)
      requires net.Valid()
    {
      s.registry.PoolInv(net, ip) && ReservedInv(s) && PeersInv(s) && TagsInv(s) && ReplacedInv(s)
    }

    lemma StepKeepsReserved(s: State, a: Action)
      requires net.Valid() && Inv(s)
      ensures ReservedInv(Step(s, a))
    {
      var s' := Step(s, a);
      forall address | address in s'.registry.reserved ensures exists t :: ReservedBy(s', address, t) {
        if address in s.registry.reserved {
          var t :| ReservedBy(s, address, t);
          assert ReservedBy(s', address, t);
        } else {
          assert ReservedBy(s', address, a.t);
        }
      }
      forall t | t in s'.threads && s'.threads[t].HoldsReservation() ensures s'.threads[t].ip in s'.registry.reserved {
        StepKeepsReservation(s, a, t);
      }
      forall t, u, address | ReservedBy(s', address, t) && ReservedBy(s', address, u) ensures t == u {
        if t != u {
          StepKeepsDistinct(s, a, t, u);
        }
      }
    }

    lemma StepKeepsReservation(s: State, a: Action, t: Thread)
      requires net.Valid() && Inv(s)
      requires t in Step(s, a).threads && Step(s, a).threads[t].HoldsReservation()
      ensures Step(s, a).threads[t].ip in Step(s, a).registry.reserved
    {
      if t != a.t {
        assert ReservedBy(s, s.threads[t].ip, t);
        assert a.t in s.threads && s.threads[a.t].HoldsReservation() ==> ReservedBy(s, s.threads[a.t].ip, a.t);
      }
    }

    // What a thread reserves, or goes on holding, is no other thread's.
    lemma OthersKeepReservation(s: State, a: Action, u: Thread)
      requires net.Valid() && Inv(s) && u != a.t
      requires u in s.threads && s.threads[u].HoldsReservation()
      requires a.t in Step(s, a).threads && Step(s, a).threads[a.t].HoldsReservation()
      ensures Step(s, a).threads[a.t].ip != s.threads[u].ip
    {
      assert ReservedBy(s, s.threads[u].ip, u);
      if a.t in s.threads && s.threads[a.t].HoldsReservation() {
        assert ReservedBy(s, s.threads[a.t].ip, a.t);
      }
    }

    lemma StepKeepsDistinct(s: State, a: Action, t: Thread, u: Thread)
      requires net.Valid() && Inv(s) && t != u
      requires t in Step(s, a).threads && Step(s, a).threads[t].HoldsReservation()
      requires u in Step(s, a).threads && Step(s, a).threads[u].HoldsReservation()
      ensures Step(s, a).threads[t].ip != Step(s, a).threads[u].ip
    {
      var s' := Step(s, a);
      if t == a.t {
        OthersKeepReservation(s, a, u);
      } else if u == a.t {
        OthersKeepReservation(s, a, t);
      } else {
        assert ReservedBy(s, s'.threads[t].ip, t) && ReservedBy(s, s'.threads[u].ip, u);
      }
    }

    lemma StepKeepsPool(s: State, a: Action)
      requires net.Valid() && Inv(s)
      ensures Step(s, a).registry.PoolInv(net, ip)
    {
    }

    lemma StepKeepsPeers(s: State, a: Action)
      requires net.Valid() && Inv(s)
      ensures PeersInv(Step(s, a))
    {
      var s' := Step(s, a);
      forall address | address in s'.registry.peers ensures PeerAt(s', address, s'.registry.peers[address]) {
        if address in s.registry.peers && s.registry.peers[address] == s'.registry.peers[address] {
          assert PeerAt(s, address, s.registry.peers[address]);
        }
      }
    }

    lemma StepKeepsTags(s: State, a: Action)
      requires net.Valid() && Inv(s)
      ensures TagsInv(Step(s, a))
    {
    }

    lemma StepKeepsReplaced(s: State, a: Action)
      requires net.Valid() && Inv(s)
      ensures ReplacedInv(Step(s, a))
    {
      var s' := Step(s, a);
      forall t | t in s'.threads && s'.threads[t].HoldsPeer() && Tagged(s'.threads[t].tag) ensures Reachable(s', t) {
        if t in s.threads && s.threads[t].HoldsPeer() {
          assert s'.threads[t].tag == s.threads[t].tag && Reachable(s, t);
          if u :| ClosingNext(s, u, t) {
            assert u != a.t ==> ClosingNext(s', u, t);
          } else if t !in s.stopped {
            StillReachable(s, a, t);
          }
        } else {
          JoiningTakesTag(s, a, t);
        }
      }
    }

    lemma JoiningTakesTag(s: State, a: Action, t: Thread)
      requires net.Valid() && Inv(s)
      requires t in s.threads ==> !s.threads[t].HoldsPeer()
      requires var s' := Step(s, a); t in s'.threads && s'.threads[t].HoldsPeer() && Tagged(s'.threads[t].tag)
      ensures Reachable(Step(s, a), t)
    {
      assert a.Register? && a.t == t && s.threads[t].Built?;
    }

    lemma StillReachable(s: State, a: Action, t: Thread)
      requires net.Valid() && Inv(s)
      requires t in s.threads && s.threads[t].HoldsPeer() && Tagged(s.threads[t].tag)
      requires t in Step(s, a).threads && Step(s, a).threads[t].HoldsPeer() && Step(s, a).threads[t].tag == s.threads[t].tag
      requires s.threads[t].tag.value in s.registry.tags && s.registry.tags[s.threads[t].tag.value] == t
      ensures Reachable(Step(s, a), t)
    {
      var s' := Step(s, a);
      if a.Register? && a.t in s.threads && s.threads[a.t].Built? && s.threads[a.t].tag == s.threads[t].tag {
        assert ClosingNext(s', a.t, t);
      }
    }

    lemma {:induction false} RunKeepsInv(s: State, actions: seq<Action>)
      requires net.Valid() && Inv(s)
      ensures Inv(Run(s, actions))
      decreases |actions|
    {
      if actions != [] {
        StepKeepsReserved(s, actions[0]);
        StepKeepsPool(s, actions[0]);
        StepKeepsPeers(s, actions[0]);
        StepKeepsTags(s, actions[0]);
        StepKeepsReplaced(s, actions[0]);
        RunKeepsInv(Step(s, actions[0]), actions[1..]);
      }
    }

    // In every interleaving of any number of sessions over all their paths.
    lemma EveryRun(actions: seq<Action>)
      requires net.Valid()
      ensures Inv(Run(Start, actions))
    {
      RunKeepsInv(Start, actions);
    }

    // register never raises: whoever gets there still holds its reservation.
    lemma RegisterNeverFails(actions: seq<Action>, t: Thread)
      requires net.Valid()
      ensures var s := Run(Start, actions);
              t in s.threads && s.threads[t].Built? ==> s.threads[t].ip in s.registry.reserved
    {
      EveryRun(actions);
    }

    // Once every session has ended nothing is left behind.
    lemma NothingLeaks(actions: seq<Action>)
      requires net.Valid()
      requires forall t :: t in Run(Start, actions).threads ==> Run(Start, actions).threads[t].Finished?
      ensures Run(Start, actions).registry == Registry(map[], map[], {})
    {
      EveryRun(actions);
      var s := Run(Start, actions);
      assert s.registry.reserved == {} by {
        assert forall address, t :: !ReservedBy(s, address, t);
      }
      assert s.registry.peers == map[] by {
        assert forall address :: address in s.registry.peers ==> PeerAt(s, address, s.registry.peers[address]);
      }
      assert s.registry.tags == map[];
    }

    // Removing a session, however late and however often, takes nothing from
    // another one that holds the same address or the same tag by now.
    lemma RemoveSparesOthers(actions: seq<Action>, t: Thread, address: Ip, tag: Option<Tag>, u: Thread)
      requires net.Valid() && t != u
      ensures var s := Run(Start, actions);
              var after := s.registry.Remove(address, tag, t);
              && (u in s.threads && s.threads[u].HoldsPeer() ==>
                    s.threads[u].ip in after.peers && after.peers[s.threads[u].ip] == u)
              && (forall name :: name in s.registry.tags && s.registry.tags[name] == u ==>
                    name in after.tags && after.tags[name] == u)
    {
      EveryRun(actions);
    }

    // No two live sessions share an address.
    lemma AddressesDistinct(actions: seq<Action>, t: Thread, u: Thread)
      requires net.Valid() && t != u
      ensures var s := Run(Start, actions);
              var live := (p: Phase) => p.HoldsReservation() || p.HoldsPeer();
              t in s.threads && u in s.threads && live(s.threads[t]) && live(s.threads[u]) ==>
                s.threads[t].ip != s.threads[u].ip && s.threads[t].ip != ip && net.Host(s.threads[t].ip)
    {
      EveryRun(actions);
      var s := Run(Start, actions);
      if t in s.threads && u in s.threads && s.threads[t].HoldsReservation() && s.threads[u].HoldsReservation() {
        assert ReservedBy(s, s.threads[t].ip, t) && ReservedBy(s, s.threads[u].ip, u);
      }
    }
  }

  // ---------------------------------------------------------------------
  // One thread on its own
  // ---------------------------------------------------------------------

  lemma ReserveAndRelease<P>(r: Registry<P>, ip: Ip)
    requires ip !in r.reserved
    ensures r.Reserve(ip).Release(ip) == r
  {
    assert r.reserved + {ip} - {ip} == r.reserved;
  }

  lemma JoinAndLeave<P>(r: Registry<P>, ip: Ip, tag: Option<Tag>, p: P)
    requires ip !in r.peers && ip !in r.reserved
    ensures ip in r.Reserve(ip).reserved && r.Reserve(ip).Previous(tag) == r.Previous(tag)
    ensures r.Reserve(ip).Register(ip, tag, p).Remove(ip, tag, p) == Left(r, tag)
  {
    assert r.reserved + {ip} - {ip} == r.reserved;
    assert r.peers[ip := p] - {ip} == r.peers;
    if Tagged(tag) {
      assert r.tags[tag.value := p] - {tag.value} == r.tags - {tag.value};
    }
  }

  // The registry after a session with this tag has come and gone.
  function Left<P>(r: Registry<P>, tag: Option<Tag>): Registry<P> {
    if Tagged(tag) then r.(tags := r.tags - {tag.value}) else r
  }

  // _serve_peer for one connection: `handshake` is the device tag it ends with,
  // or None when it raises, and `publishFails` whether announcing the session
  // raises.  On every path the registry is left as it was found, except that
  // the tag, if the session got as far as taking it, leads nowhere and the
  // session it led to is closed.
  method ServePeer(registry: PeerRegistry, sock: Framing.Socket, cipher: SessionCipher.SessionCipher,
                   handshake: Option<Option<Tag>>, publishFails: bool)
    returns (served: bool)
    requires registry.Valid()
    modifies registry, registry.tags.Values
    ensures registry.Valid()
    ensures var before := old(registry.View());
            var joins := handshake.Some? && !before.Exhausted(registry.network, registry.serverIp);
            && (served <==> joins && !publishFails)
            && registry.View() == (if joins then Left(before, handshake.value) else before)
            && (joins && before.Previous(handshake.value).Some? ==> before.Previous(handshake.value).value.stopped)
  {
    hide PeerRegistry.Valid, Registry.Register, Registry.Remove, Registry.Reserve, Registry.Release, Left;
    ghost var before := registry.View();
    var reservedIp: Option<Ip> := None;
    var peer: PeerConnection? := null;
    served := false;
    var reservation := registry.ReserveIp();
    if reservation.Success? {
      reservedIp := Some(reservation.value);
      if handshake.Some? {
        peer := new PeerConnection(sock, cipher, reservation.value, handshake.value);
        JoinAndLeave(before, reservation.value, handshake.value, peer);
        var registered := registry.Register(peer);
        if registered.Success? && !publishFails {
          // the packet manager, which cleans up when its loop ends
          served := true;
          peer.stopped := true;
          registry.Remove(peer);
          peer.Close();
        }
      } else {
        ReserveAndRelease(before, reservation.value);
      }
    }
    if !served {
      if peer != null {
        registry.Remove(peer);
        peer.Close();
      } else if reservedIp.Some? {
        registry.ReleaseIp(reservedIp.value);
      }
    }
  }
}
