/** What every step of a session does to the registry, and that sessions come to
    an end: from any point of any run they can, and then nothing is left. */
module SessionProgress {
  import opened Results
  import opened PeerRegistry
  import opened SessionLifecycle

  // ---------------------------------------------------------------------
  // Step by step
  // ---------------------------------------------------------------------

  predicate Named(tag: Option<Tag>) {
    tag.Some? && |tag.value| > 0
  }

  // Taking an address, and giving it back when the pool or the handshake fails.
  lemma HalfOpenSteps(server: Server, s: State, t: Thread)
    requires server.net.Valid() && s.Has(t)
    ensures var r := s.registry;
            match s.threads[t]
            case Fresh =>
              && (forall ip :: r.FirstFree(server.net, server.ip, ip) ==>
                    server.Step(s, Reserve(t, ip))
                      == State(Registry(r.peers, r.tags, r.reserved + {ip}), s.threads[t := Reserved(ip)], s.stopped))
              && (r.Exhausted(server.net, server.ip) ==>
                    server.Step(s, Action.PoolExhausted(t)) == State(r, s.threads[t := Finished], s.stopped))
            case Reserved(ip) =>
              && server.Step(s, HandshakeFails(t)) == State(r, s.threads[t := Rejected(ip)], s.stopped)
              && forall tag :: server.Step(s, HandshakeSucceeds(t, tag)) == State(r, s.threads[t := Built(ip, tag)], s.stopped)
            case Rejected(ip) =>
              server.Step(s, Release(t))
                == State(Registry(r.peers, r.tags, r.reserved - {ip}), s.threads[t := Finished], s.stopped)
            case _ => true
  {
  }

  // Joining and leaving.
  lemma OpenSteps(server: Server, s: State, t: Thread)
    requires server.net.Valid() && s.Has(t)
    ensures var r := s.registry;
            match s.threads[t]
            case Built(ip, tag) =>
              if ip !in r.reserved then server.Step(s, Register(t)) == State(r, s.threads[t := Leaving(ip, tag)], s.stopped)
              else
                var previous := if Named(tag) && tag.value in r.tags then Some(r.tags[tag.value]) else None;
                server.Step(s, Register(t))
                  == State(Registry(r.peers[ip := t], if Named(tag) then r.tags[tag.value := t] else r.tags, r.reserved - {ip}),
                           s.threads[t := Joined(ip, tag, previous)], s.stopped)
            case Joined(ip, tag, previous) =>
              server.Step(s, ClosePrevious(t))
                == State(r, s.threads[t := Active(ip, tag)], if previous.Some? then s.stopped + {previous.value} else s.stopped)
            case Active(ip, tag) =>
              && server.Step(s, PublishFails(t)) == State(r, s.threads[t := Leaving(ip, tag)], s.stopped)
              && server.Step(s, RoutingEnds(t)) == State(r, s.threads[t := Leaving(ip, tag)], s.stopped + {t})
            case Leaving(ip, tag) =>
              server.Step(s, Remove(t))
                == State(Registry(if ip in r.peers && r.peers[ip] == t then r.peers - {ip} else r.peers,
                                  if Named(tag) && tag.value in r.tags && r.tags[tag.value] == t then r.tags - {tag.value} else r.tags,
                                  r.reserved),
                         s.threads[t := Gone(ip, tag)], s.stopped)
            case Gone(_, _) => server.Step(s, Close(t)) == State(r, s.threads[t := Finished], s.stopped + {t})
            case _ => true
  {
  }

  // ---------------------------------------------------------------------
  // One session undisturbed
  // ---------------------------------------------------------------------

  lemma RunUnfold(server: Server, s: State, a: Action, more: seq<Action>)
    requires server.net.Valid()
    ensures server.Run(s, [a] + more) == server.Run(server.Step(s, a), more)
    ensures server.Run(s, []) == s
  {
    hide Server.Step;
    assert ([a] + more)[1..] == more;
  }

  // What is left to do after a handshake with this tag.
  function JoinAndEnd(t: Thread, publishFails: bool): seq<Action> {
    [Register(t)] + ([ClosePrevious(t)] + ([if publishFails then PublishFails(t) else RoutingEnds(t)] + ([Remove(t)] + ([Close(t)] + []))))
  }

  // The state machine's session, with no other thread in between, does to the
  // registry what ServePeer promises.
  lemma UndisturbedSession(server: Server, s: State, t: Thread, ip: Ip, handshake: Option<Option<Tag>>, publishFails: bool)
    requires server.net.Valid() && !s.Has(t) && s.registry.FirstFree(server.net, server.ip, ip)
    ensures var path := match handshake
                        case None => [HandshakeFails(t)] + ([Release(t)] + [])
                        case Some(tag) => [HandshakeSucceeds(t, tag)] + JoinAndEnd(t, publishFails);
            var after := server.Run(s, [Accept(t)] + ([Reserve(t, ip)] + path));
            && after.threads == s.threads[t := Finished]
            && after.registry == (if handshake.Some? then Left(s.registry, handshake.value) else s.registry)
            && (handshake.Some? && s.registry.Previous(handshake.value).Some? ==>
                  s.registry.Previous(handshake.value).value in after.stopped)
  {
    hide Server.Run, Server.ThreadStep;
    var path := match handshake
                case None => [HandshakeFails(t)] + ([Release(t)] + [])
                case Some(tag) => [HandshakeSucceeds(t, tag)] + JoinAndEnd(t, publishFails);
    var s1 := server.Step(s, Accept(t));
    assert s1 == State(s.registry, s.threads[t := Fresh], s.stopped);
    RunUnfold(server, s, Accept(t), [Reserve(t, ip)] + path);
    HalfOpenSteps(server, s1, t);
    var s2 := server.Step(s1, Reserve(t, ip));
    RunUnfold(server, s1, Reserve(t, ip), path);
    HalfOpenSteps(server, s2, t);
    match handshake
    case None =>
      var s3 := server.Step(s2, HandshakeFails(t));
      HalfOpenSteps(server, s3, t);
      RunUnfold(server, s2, HandshakeFails(t), [Release(t)] + []);
      RunUnfold(server, s3, Release(t), []);
      RunUnfold(server, server.Step(s3, Release(t)), Release(t), []);
      assert s.registry.reserved + {ip} - {ip} == s.registry.reserved;
      assert server.Step(s3, Release(t)).threads == s.threads[t := Finished];
    case Some(tag) =>
      var s3 := server.Step(s2, HandshakeSucceeds(t, tag));
      RunUnfold(server, s2, HandshakeSucceeds(t, tag), JoinAndEnd(t, publishFails));
      assert s3 == State(s.registry.Reserve(ip), s.threads[t := Built(ip, tag)], s.stopped);
      UndisturbedJoin(server, s3, t, s.registry, ip, tag, publishFails);
      assert s3.threads[t := Finished] == s.threads[t := Finished];
  }

  lemma UndisturbedJoin(server: Server, s: State, t: Thread, before: Registry<Thread>, ip: Ip, tag: Option<Tag>, publishFails: bool)
    requires server.net.Valid() && s.Has(t) && s.threads[t] == Built(ip, tag)
    requires ip !in before.peers && ip !in before.reserved && s.registry == before.Reserve(ip)
    ensures var after := server.Run(s, JoinAndEnd(t, publishFails));
            && after.threads == s.threads[t := Finished] && after.registry == Left(before, tag)
            && (before.Previous(tag).Some? ==> before.Previous(tag).value in after.stopped)
  {
    hide Server.Run, Server.Step;
    JoinAndLeave(before, ip, tag, t);
    var ending := if publishFails then PublishFails(t) else RoutingEnds(t);
    OpenSteps(server, s, t);
    var s1 := server.Step(s, Register(t));
    RunUnfold(server, s, Register(t), [ClosePrevious(t)] + ([ending] + ([Remove(t)] + ([Close(t)] + []))));
    OpenSteps(server, s1, t);
    var s2 := server.Step(s1, ClosePrevious(t));
    RunUnfold(server, s1, ClosePrevious(t), [ending] + ([Remove(t)] + ([Close(t)] + [])));
    OpenSteps(server, s2, t);
    var s3 := server.Step(s2, ending);
    RunUnfold(server, s2, ending, [Remove(t)] + ([Close(t)] + []));
    OpenSteps(server, s3, t);
    var s4 := server.Step(s3, Remove(t));
    RunUnfold(server, s3, Remove(t), [Close(t)] + []);
    OpenSteps(server, s4, t);
    RunUnfold(server, s4, Close(t), []);
    RunUnfold(server, server.Step(s4, Close(t)), Close(t), []);
  }

  // ---------------------------------------------------------------------
  // Every session can end
  // ---------------------------------------------------------------------

  function StepsLeft(phase: Phase): nat {
    match phase
    case Fresh => 7
    case Reserved(_) => 6
    case Built(_, _) => 5
    case Joined(_, _, _) => 4
    case Active(_, _) => 3
    case Leaving(_, _) => 2
    case Rejected(_) => 1
    case Gone(_, _) => 1
    case Finished => 0
  }

  lemma LowestFree(r: Registry<Thread>, net: Network, server: Ip, ip: Ip) returns (first: Ip)
    requires net.Valid() && r.Free(net, server, ip)
    ensures r.FirstFree(net, server, first)
  {
    if lower: Ip :| lower < ip && r.Free(net, server, lower) {
      first := LowestFree(r, net, server, lower);
    } else {
      first := ip;
    }
  }

  // Whatever the others do, a session that is not over can take a step of its
  // own towards its end.
  lemma NextStep(server: Server, s: State, t: Thread) returns (a: Action)
    requires server.net.Valid() && server.Inv(s) && s.Has(t) && !s.threads[t].Finished?
    ensures a.t == t && var after := server.Step(s, a);
            after.Has(t) && StepsLeft(after.threads[t]) < StepsLeft(s.threads[t]) && after.threads == s.threads[t := after.threads[t]]
  {
    HalfOpenSteps(server, s, t);
    OpenSteps(server, s, t);
    hide Server.Step, Server.PeersInv, Server.TagsInv, Server.ReplacedInv;
    match s.threads[t]
    case Fresh =>
      if ip :| s.registry.Free(server.net, server.ip, ip) {
        var first := LowestFree(s.registry, server.net, server.ip, ip);
        a := Reserve(t, first);
      } else {
        a := Action.PoolExhausted(t);
      }
    case Reserved(_) => a := HandshakeFails(t);
    case Rejected(_) => a := Release(t);
    case Built(_, _) => a := Register(t);
    case Joined(_, _, _) => a := ClosePrevious(t);
    case Active(_, _) => a := RoutingEnds(t);
    case Leaving(_, _) => a := Remove(t);
    case Gone(_, _) => a := Close(t);
  }

  lemma {:induction false} EndOne(server: Server, s: State, t: Thread) returns (actions: seq<Action>)
    requires server.net.Valid() && server.Inv(s) && s.Has(t)
    ensures server.Run(s, actions).threads == s.threads[t := Finished]
    decreases StepsLeft(s.threads[t])
  {
    hide Server.Run, Server.Step, Server.Inv;
    if s.threads[t].Finished? {
      actions := [];
      RunUnfold(server, s, Accept(t), []);
      assert s.threads == s.threads[t := Finished];
    } else {
      var a := NextStep(server, s, t);
      OneStepKeepsInv(server, s, a);
      var next := server.Step(s, a);
      var more := EndOne(server, next, t);
      RunUnfold(server, s, a, more);
      actions := [a] + more;
      assert next.threads[t := Finished] == s.threads[t := Finished];
    }
  }

  lemma OneStepKeepsInv(server: Server, s: State, a: Action)
    requires server.net.Valid() && server.Inv(s)
    ensures server.Inv(server.Step(s, a))
  {
    hide Server.Step, Server.Inv, Server.Run;
    RunUnfold(server, s, a, []);
    RunUnfold(server, server.Step(s, a), a, []);
    server.RunKeepsInv(s, [a] + []);
  }

  lemma {:induction false} RunAppend(server: Server, s: State, a: seq<Action>, b: seq<Action>)
    requires server.net.Valid()
    ensures server.Run(s, a + b) == server.Run(server.Run(s, a), b)
    decreases |a|
  {
    hide Server.Step;
    if a == [] {
      assert a + b == b;
    } else {
      RunAppend(server, server.Step(s, a[0]), a[1..], b);
      assert (a + b)[1..] == a[1..] + b;
    }
  }

  lemma {:induction false} EndAll(server: Server, s: State, open: set<Thread>) returns (actions: seq<Action>)
    requires server.net.Valid() && server.Inv(s) && open <= s.threads.Keys
    requires forall t :: t in s.threads && t !in open ==> s.threads[t].Finished?
    ensures forall t :: t in server.Run(s, actions).threads ==> server.Run(s, actions).threads[t].Finished?
    decreases |open|
  {
    hide Server.Run, Server.Inv;
    if open == {} {
      actions := [];
      RunUnfold(server, s, Accept(0), []);
    } else {
      var t :| t in open;
      var first := EndOne(server, s, t);
      server.RunKeepsInv(s, first);
      var more := EndAll(server, server.Run(s, first), open - {t});
      RunAppend(server, s, first, more);
      actions := first + more;
    }
  }

  // From every point of every run all sessions can come to their end, and the
  // registry is then empty.
  lemma EveryRunCanEnd(server: Server, actions: seq<Action>) returns (more: seq<Action>)
    requires server.net.Valid()
    ensures var s := server.Run(server.Start, actions + more);
            && (forall t :: t in s.threads ==> s.threads[t].Finished?)
            && s.registry == Registry(map[], map[], {})
  {
    server.EveryRun(actions);
    hide Server.Run, Server.Inv;
    var s := server.Run(server.Start, actions);
    more := EndAll(server, s, s.threads.Keys);
    RunAppend(server, server.Start, actions, more);
    server.NothingLeaks(actions + more);
  }
}
