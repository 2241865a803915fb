/** A private message arriving while a WebSocket connects.  The consumer thread
    inserts the message and then chooses the sockets to push it to; the handler
    registers its socket and then reads what is pending. */
module ConnectRace {
  import opened DeliveryView

  datatype Socket = Socket(tag: Tag, number: nat)

  // `choosing` are messages inserted whose targets are not chosen yet; `seen`
  // (history) those ever inserted; `snapshots` what each socket read on connect;
  // `targets` (history) the sockets each message was pushed to.
  datatype State = State(
    view: View,
    choosing: set<Key>,
    seen: set<Key>,
    sockets: set<Socket>,
    snapshots: map<Socket, Mailbox>,
    targets: map<Key, set<Socket>>)

  datatype Action =
    | Insert(message: Message)
    | Choose(m: Key)
    | Register(w: Socket)
    | Snapshot(w: Socket)
    | Report(state: string, recipient: Tag, id: MessageId)
    | Acknowledge(recipient: Tag, id: MessageId)
    | Disconnect(w: Socket)

  const Start: State := State(View(map[], {}), {}, {}, {}, map[], map[])

  // Each action is one region under the service's lock.
  function Step(s: State, a: Action): State {
    match a
    case Insert(m) =>
      if m.recipient == "" || m.id == "" || Key(m.recipient, m.id) in s.view.delivered then s
      else
        var key := Key(m.recipient, m.id);
        s.(view := DeliveryView.Step(s.view, Private(m)), choosing := s.choosing + {key}, seen := s.seen + {key})
    case Choose(m) =>
      if m !in s.choosing then s
      else s.(choosing := s.choosing - {m}, targets := s.targets[m := Targets(s, m) + set w | w in s.sockets && w.tag == m.recipient])
    case Register(w) =>
      if w in s.snapshots then s else s.(sockets := s.sockets + {w})
    case Snapshot(w) =>
      if w !in s.sockets || w in s.snapshots then s
      else s.(snapshots := s.snapshots[w := s.view.Pending(w.tag)])
    case Report(state, recipient, id) => s.(view := DeliveryView.Step(s.view, Delivery(state, recipient, id)))
    case Acknowledge(recipient, id) => s.(view := DeliveryView.Step(s.view, Acked(recipient, id)))
    case Disconnect(w) => s.(sockets := s.sockets - {w})
  }

  function Targets(s: State, m: Key): set<Socket> {
    if m in s.targets then s.targets[m] else {}
  }

  function Run(actions: seq<Action>): State {
    if actions == [] then Start else Step(Run(actions[..|actions| - 1]), actions[|actions| - 1])
  }

  // ---------------------------------------------------------------------
  // The view is the one the logs and handlers make
  // ---------------------------------------------------------------------

  function Events(actions: seq<Action>): seq<Event> {
    if actions == [] then [] else Events(actions[..|actions| - 1]) + EventOf(actions[|actions| - 1])
  }

  function EventOf(a: Action): seq<Event> {
    match a
    case Insert(m) => [Private(m)]
    case Report(state, recipient, id) => [Delivery(state, recipient, id)]
    case Acknowledge(recipient, id) => [Acked(recipient, id)]
    case _ => []
  }

  lemma StepsTheView(s: State, a: Action)
    ensures Step(s, a).view == if EventOf(a) == [] then s.view else DeliveryView.Step(s.view, EventOf(a)[0])
  {
  }

  lemma RunOneMore(events: seq<Event>, e: Event)
    ensures DeliveryView.Run(events + [e]) == DeliveryView.Step(DeliveryView.Run(events), e)
  {
    hide DeliveryView.Step;
    assert (events + [e])[..|events|] == events;
  }

  // What a socket finds pending is what the logs and handlers have made.
  lemma {:induction false} ViewOfRun(actions: seq<Action>)
    ensures Run(actions).view == DeliveryView.Run(Events(actions))
  {
    hide Step, EventOf, DeliveryView.Step;
    if actions != [] {
      hide DeliveryView.Run;
      var front, last := actions[..|actions| - 1], actions[|actions| - 1];
      ViewOfRun(front);
      StepsTheView(Run(front), last);
      OneEventAtMost(last);
      if EventOf(last) == [] {
        assert Events(front) + [] == Events(front);
      } else {
        RunOneMore(Events(front), EventOf(last)[0]);
      }
    }
  }

  lemma OneEventAtMost(a: Action)
    ensures EventOf(a) == [] || EventOf(a) == [EventOf(a)[0]]
  {
  }

  // ---------------------------------------------------------------------
  // Nothing is missed
  // ---------------------------------------------------------------------

  predicate IsPending(v: View, m: Key) {
    m.id in Ids(v.Pending(m.recipient))
  }

  ghost predicate Reaches(s: State, m: Key, w: Socket) {
    || m in s.view.delivered
    || (w in s.snapshots && m.id in Ids(s.snapshots[w]))
    || w in Targets(s, m)
  }

  ghost predicate Kept(s: State) {
    forall m :: m in s.seen ==> IsPending(s.view, m) || m in s.view.delivered
  }

  ghost predicate Inv(s: State) {
    && Kept(s)
    && s.choosing <= s.seen
    && (forall m, w :: m in s.seen && w in s.sockets && w in s.snapshots && w.tag == m.recipient ==>
          m in s.choosing || Reaches(s, m, w))
  }

  lemma {:induction false} WithoutIds(box: Mailbox, id: MessageId, other: MessageId)
    requires other != id && other in Ids(box)
    ensures other in Ids(Without(box, id))
  {
    assert Ids(box) == [box[0].id] + Ids(box[1..]);
    if box[0].id == id {
      WithoutIds(box[1..], id, other);
    } else {
      var rest := Without(box[1..], id);
      assert Ids([box[0]] + rest) == [box[0].id] + Ids(rest);
      if box[0].id != other {
        WithoutIds(box[1..], id, other);
      }
    }
  }

  lemma InsertedStays(v: View, message: Message, m: Key)
    requires IsPending(v, m) || (m == Key(message.recipient, message.id) && message.recipient != "" && message.id != "")
    requires m !in v.delivered
    ensures IsPending(DeliveryView.Step(v, Private(message)), m)
  {
    hide Put, Ids;
    PutIds(v.Pending(message.recipient), message);
  }

  lemma UndeliveredStays(v: View, recipient: Tag, id: MessageId, m: Key)
    requires IsPending(v, m) && m != Key(recipient, id)
    ensures IsPending(Deliver(v, recipient, id), m)
  {
    hide Without, Ids;
    if m.recipient == recipient {
      WithoutIds(v.Pending(recipient), id, m.id);
    }
  }

  lemma StepKeepsSeen(s: State, a: Action)
    requires Kept(s)
    ensures Kept(Step(s, a))
  {
    hide Put, Without, Ids, IsPending, Deliver;
    var s' := Step(s, a);
    forall m | m in s'.seen ensures IsPending(s'.view, m) || m in s'.view.delivered {
      match a
      case Insert(message) =>
        if m !in s.view.delivered && s' != s {
          InsertedStays(s.view, message, m);
        }
      case Report(state, recipient, id) =>
        StaysUnlessDelivered(s.view, recipient, id, m);
      case Acknowledge(recipient, id) =>
        StaysUnlessDelivered(s.view, recipient, id, m);
      case _ =>
    }
  }

  lemma StaysUnlessDelivered(v: View, recipient: Tag, id: MessageId, m: Key)
    requires IsPending(v, m) || m in v.delivered
    ensures IsPending(Deliver(v, recipient, id), m) || m in Deliver(v, recipient, id).delivered
  {
    hide Without, Ids, IsPending;
    if IsPending(v, m) && m != Key(recipient, id) {
      UndeliveredStays(v, recipient, id, m);
    }
  }

  lemma DeliveredGrows(s: State, a: Action)
    ensures s.view.delivered <= Step(s, a).view.delivered
  {
  }

  lemma StepKeepsInv(s: State, a: Action)
    requires Inv(s)
    ensures Inv(Step(s, a))
  {
    hide Put, Without, Ids, Deliver;
    StepKeepsSeen(s, a);
    DeliveredGrows(s, a);
    var s' := Step(s, a);
    forall m, w | m in s'.seen && w in s'.sockets && w in s'.snapshots && w.tag == m.recipient
      ensures m in s'.choosing || Reaches(s', m, w)
    {
      if m in s.seen && w in s.sockets && w in s.snapshots {
        assert m in s.choosing || Reaches(s, m, w);
      } else if a == Snapshot(w) {
        assert IsPending(s.view, m) || m in s.view.delivered;
      }
    }
  }

  lemma {:induction false} RunKeepsInv(actions: seq<Action>)
    ensures Inv(Run(actions))
  {
    if actions != [] {
      RunKeepsInv(actions[..|actions| - 1]);
      StepKeepsInv(Run(actions[..|actions| - 1]), actions[|actions| - 1]);
    }
  }

  // In every interleaving, a handled message of a connected recipient has been
  // delivered, was pending when the socket asked, or was pushed to the socket.
  lemma NoMessageIsMissed(actions: seq<Action>, m: Key, w: Socket)
    ensures var s := Run(actions);
            m in s.seen && m !in s.choosing && w in s.sockets && w in s.snapshots && w.tag == m.recipient ==>
              Reaches(s, m, w)
  {
    RunKeepsInv(actions);
  }

  // ---------------------------------------------------------------------
  // Said by what was done
  // ---------------------------------------------------------------------

  function RunFrom(s: State, actions: seq<Action>): State
    decreases |actions|
  {
    if actions == [] then s else RunFrom(Step(s, actions[0]), actions[1..])
  }

  lemma {:induction false} RunFromFront(s: State, actions: seq<Action>, a: Action)
    ensures RunFrom(s, actions + [a]) == Step(RunFrom(s, actions), a)
    decreases |actions|
  {
    hide Step;
    if actions == [] {
      var one: seq<Action> := [a];
      assert actions + [a] == one && one[1..] == [];
    } else {
      RunFromFront(Step(s, actions[0]), actions[1..], a);
      assert (actions + [a])[1..] == actions[1..] + [a];
    }
  }

  lemma {:induction false} RunIsRunFrom(actions: seq<Action>, i: nat)
    requires i <= |actions|
    ensures Run(actions) == RunFrom(Run(actions[..i]), actions[i..])
    decreases |actions| - i
  {
    hide Step;
    if i < |actions| {
      RunIsRunFrom(actions, i + 1);
      assert actions[..i + 1][..i] == actions[..i];
      assert actions[i..][1..] == actions[i + 1..];
    } else {
      assert actions[..i] == actions;
    }
  }

  lemma {:induction false} ReachedStays(s: State, actions: seq<Action>, m: Key, w: Socket)
    requires Reaches(s, m, w)
    ensures Reaches(RunFrom(s, actions), m, w)
    decreases |actions|
  {
    hide Ids;
    if actions != [] {
      DeliveredGrows(s, actions[0]);
      ReachedStays(Step(s, actions[0]), actions[1..], m, w);
    }
  }

  // A socket that is there while the targets are chosen is one of them.
  lemma {:induction false} ChosenReaches(s: State, actions: seq<Action>, m: Key, w: Socket)
    requires m in s.choosing && w in s.sockets && w.tag == m.recipient
    requires Disconnect(w) !in actions && Choose(m) in actions
    ensures Reaches(RunFrom(s, actions), m, w)
    decreases |actions|
  {
    hide Ids;
    var s' := Step(s, actions[0]);
    assert actions == [actions[0]] + actions[1..];
    if actions[0] == Choose(m) {
      assert Reaches(s', m, w);
      ReachedStays(s', actions[1..], m, w);
    } else {
      assert actions[0] != Disconnect(w);
      ChosenReaches(s', actions[1..], m, w);
    }
  }

  lemma {:induction false} SocketStays(s: State, actions: seq<Action>, w: Socket)
    requires w in s.sockets && Disconnect(w) !in actions
    ensures w in RunFrom(s, actions).sockets
    decreases |actions|
  {
    if actions != [] {
      assert actions[0] != Disconnect(w);
      SocketStays(Step(s, actions[0]), actions[1..], w);
    }
  }

  lemma {:induction false} SeenStays(s: State, actions: seq<Action>, m: Key)
    requires m in s.seen || m in s.view.delivered
    ensures m in RunFrom(s, actions).seen || m in RunFrom(s, actions).view.delivered
    decreases |actions|
  {
    if actions != [] {
      DeliveredGrows(s, actions[0]);
      SeenStays(Step(s, actions[0]), actions[1..], m);
    }
  }

  lemma {:induction false} NoSnapshotYet(actions: seq<Action>, w: Socket)
    requires Register(w) !in actions
    ensures w !in Run(actions).sockets && w !in Run(actions).snapshots
  {
    if actions != [] {
      NoSnapshotYet(actions[..|actions| - 1], w);
    }
  }

  lemma InsertedIsSeen(s: State, message: Message)
    requires message.recipient != "" && message.id != ""
    ensures var s', m := Step(s, Insert(message)), Key(message.recipient, message.id);
            m in s'.view.delivered || (m in s'.seen && m in s'.choosing)
  {
  }

  lemma SnapshotReaches(s: State, m: Key, w: Socket)
    requires Inv(s) && (m in s.seen || m in s.view.delivered) && w in s.sockets && w.tag == m.recipient
    requires w !in s.snapshots
    ensures Reaches(Step(s, Snapshot(w)), m, w)
  {
    hide Ids;
    assert Kept(s);
  }

  // Where the run stands after action i, and how it goes on.
  lemma Splits(actions: seq<Action>, i: nat)
    requires i < |actions|
    ensures Run(actions[..i + 1]) == Step(Run(actions[..i]), actions[i])
    ensures Run(actions) == RunFrom(Run(actions[..i + 1]), actions[i + 1..])
  {
    hide Step;
    RunIsRunFrom(actions, i + 1);
    assert actions[..i + 1][..i] == actions[..i];
  }

  lemma Between(actions: seq<Action>, i: nat, j: nat)
    requires i <= j <= |actions|
    ensures Run(actions[..j]) == RunFrom(Run(actions[..i]), actions[i..j])
  {
    hide Step;
    RunIsRunFrom(actions[..j], i);
    assert actions[..j][..i] == actions[..i] && actions[..j][i..] == actions[i..j];
  }

  // A message is consumed at i and its targets chosen at j; a new socket of its
  // recipient is registered at p, reads what is pending at q, and stays.
  // However these four fall between each other and among all else, the message
  // is acknowledged, or in what the socket read, or pushed to it.
  lemma MessageReachesSocket(actions: seq<Action>, message: Message, w: Socket, i: nat, j: nat, p: nat, q: nat)
    requires i < j < |actions| && p < q < |actions|
    requires message.recipient != "" && message.id != "" && w.tag == message.recipient
    requires actions[i] == Insert(message) && actions[j] == Choose(Key(message.recipient, message.id))
    requires actions[p] == Register(w) && actions[q] == Snapshot(w)
    requires Register(w) !in actions[..p] && Snapshot(w) !in actions[..q] && Disconnect(w) !in actions[p..]
    ensures Reaches(Run(actions), Key(message.recipient, message.id), w)
  {
    hide Step, Reaches, Inv, Ids;
    var m := Key(message.recipient, message.id);
    Splits(actions, i);
    InsertedIsSeen(Run(actions[..i]), message);
    RegisteredStays(actions, w, p, q);
    if i < q {
      Between(actions, i + 1, q);
      SeenStays(Run(actions[..i + 1]), actions[i + 1..q], m);
      RunKeepsInv(actions[..q]);
      SnapshotReaches(Run(actions[..q]), m, w);
      Splits(actions, q);
      ReachedStays(Run(actions[..q + 1]), actions[q + 1..], m, w);
    } else {
      RegisteredStays(actions, w, p, i + 1);
      var s := Run(actions[..i + 1]);
      if m in s.view.delivered {
        DeliveredReaches(s, m, w);
        ReachedStays(s, actions[i + 1..], m, w);
      } else {
        assert actions[j] == actions[i + 1..][j - i - 1];
        assert forall a :: a in actions[i + 1..] ==> a in actions[p..] by { assert actions[i + 1..] == actions[p..][i + 1 - p..]; }
        ChosenReaches(s, actions[i + 1..], m, w);
      }
    }
  }

  lemma DeliveredReaches(s: State, m: Key, w: Socket)
    requires m in s.view.delivered
    ensures Reaches(s, m, w)
  {
  }

  lemma RegisteredStays(actions: seq<Action>, w: Socket, p: nat, k: nat)
    requires p < k <= |actions| && actions[p] == Register(w)
    requires Register(w) !in actions[..p] && Disconnect(w) !in actions[p..]
    ensures w in Run(actions[..k]).sockets
    ensures Snapshot(w) !in actions[..k] ==> w !in Run(actions[..k]).snapshots
  {
    hide Step;
    NoSnapshotYet(actions[..p], w);
    Splits(actions, p);
    RegisterAdds(Run(actions[..p]), w);
    Between(actions, p + 1, k);
    assert actions[p + 1..k] == actions[p..][1..k - p];
    SocketStays(Run(actions[..p + 1]), actions[p + 1..k], w);
    if Snapshot(w) !in actions[..k] {
      SnapshotOnly(actions[..k], w);
    }
  }

  lemma RegisterAdds(s: State, w: Socket)
    requires w !in s.snapshots
    ensures w in Step(s, Register(w)).sockets
  {
  }

  lemma {:induction false} SnapshotOnly(actions: seq<Action>, w: Socket)
    requires Snapshot(w) !in actions
    ensures w !in Run(actions).snapshots
  {
    if actions != [] {
      SnapshotOnly(actions[..|actions| - 1], w);
    }
  }

  // ---------------------------------------------------------------------
  // And to nobody else
  // ---------------------------------------------------------------------

  // A socket that has gone gets no message, as long as it does not come back.
  lemma {:induction false} GoneGetsNothing(s: State, actions: seq<Action>, w: Socket)
    requires w !in s.sockets && Register(w) !in actions
    ensures forall m :: w in Targets(RunFrom(s, actions), m) <==> w in Targets(s, m)
    decreases |actions|
  {
    if actions != [] {
      assert actions[0] != Register(w);
      GoneGetsNothing(Step(s, actions[0]), actions[1..], w);
    }
  }

  lemma DisconnectedGetsNothing(s: State, actions: seq<Action>, w: Socket)
    requires Register(w) !in actions
    ensures forall m :: w in Targets(RunFrom(Step(s, Disconnect(w)), actions), m) <==> w in Targets(s, m)
  {
    hide RunFrom;
    GoneGetsNothing(Step(s, Disconnect(w)), actions, w);
  }

  ghost predicate Addressed(v: View) {
    forall r, m :: r in v.pending && m in v.pending[r] ==> m.recipient == r
  }

  lemma {:induction false} WithoutMembers(box: Mailbox, id: MessageId)
    ensures forall m :: m in Without(box, id) ==> m in box
  {
    if box != [] {
      WithoutMembers(box[1..], id);
    }
  }

  lemma {:induction false} PutAdds(box: Mailbox, message: Message)
    ensures forall m :: m in Put(box, message) ==> m in box || m == message
  {
    if box != [] {
      PutAdds(box[1..], message);
    }
  }

  lemma ViewStaysAddressed(v: View, e: Event)
    requires Addressed(v)
    ensures Addressed(DeliveryView.Step(v, e))
  {
    hide Put, Without;
    match e
    case Private(message) => PutAdds(v.Pending(message.recipient), message);
    case Delivery(_, recipient, id) => WithoutMembers(v.Pending(recipient), id);
    case Acked(recipient, id) => WithoutMembers(v.Pending(recipient), id);
  }

  ghost predicate OnlyOwn(s: State, actions: seq<Action>) {
    && Addressed(s.view)
    && (forall w :: w in s.sockets ==> Register(w) in actions)
    && (forall w, m :: w in Targets(s, m) ==> w.tag == m.recipient && Register(w) in actions)
    && (forall w, m :: w in s.snapshots && m in s.snapshots[w] ==> m.recipient == w.tag)
  }

  lemma StepKeepsOwn(s: State, actions: seq<Action>, a: Action)
    requires OnlyOwn(s, actions)
    ensures OnlyOwn(Step(s, a), actions + [a])
  {
    StepsTheView(s, a);
    if EventOf(a) != [] {
      ViewStaysAddressed(s.view, EventOf(a)[0]);
    }
    hide Addressed, DeliveryView.Step, EventOf;
    assert a in actions + [a];
    if a.Snapshot? {
      PendingIsAddressed(s.view, a.w.tag);
    }
  }

  lemma PendingIsAddressed(v: View, tag: Tag)
    requires Addressed(v)
    ensures forall m :: m in v.Pending(tag) ==> m.recipient == tag
  {
  }

  // A message is pushed or shown to registered sockets of its recipient only.
  lemma {:induction false} OnlyTheRecipientSees(actions: seq<Action>)
    ensures OnlyOwn(Run(actions), actions)
  {
    if actions == [] {
      assert Run(actions) == Start;
    } else {
      hide OnlyOwn, Step;
      var front, last := actions[..|actions| - 1], actions[|actions| - 1];
      OnlyTheRecipientSees(front);
      StepKeepsOwn(Run(front), front, last);
      assert actions == front + [last];
    }
  }
}
