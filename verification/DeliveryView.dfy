/** Pending and delivered private messages: a view that two Kafka consumers and
    the acknowledgement handlers update in any order, and that a restart
    rebuilds from the private log and a compacted delivery log. */
module DeliveryView {
  type Tag = string
  type MessageId = string

  // A record whose recipient or id is missing has the empty text there.
  datatype Message = Message(recipient: Tag, id: MessageId, body: string)

  datatype Key = Key(recipient: Tag, id: MessageId)

  // One recipient's dictionary from ids to messages, in insertion order.
  type Mailbox = seq<Message>

  // d[id] = m: an id that is there keeps its place.
  function Put(box: Mailbox, m: Message): Mailbox {
    if box == [] then [m]
    else if box[0].id == m.id then [m] + box[1..]
    else [box[0]] + Put(box[1..], m)
  }

  // d.pop(id, None)
  function Without(box: Mailbox, id: MessageId): Mailbox {
    if box == [] then []
    else if box[0].id == id then Without(box[1..], id)
    else [box[0]] + Without(box[1..], id)
  }

  datatype View = View(pending: map<Tag, Mailbox>, delivered: set<Key>) {
    function Pending(recipient: Tag): Mailbox {
      if recipient in pending then pending[recipient] else []
    }
  }

  datatype Event =
    | Private(message: Message)                                      // consumed from chat-private
    | Delivery(state: string, recipient: Tag, id: MessageId)         // consumed from delivery-state
    | Acked(recipient: Tag, id: MessageId)                           // locked part of an ack handler

  function Deliver(v: View, recipient: Tag, id: MessageId): View {
    View(v.pending[recipient := Without(v.Pending(recipient), id)], v.delivered + {Key(recipient, id)})
  }

  function Step(v: View, e: Event): View {
    match e
    case Private(m) =>
      if m.recipient == "" || m.id == "" || Key(m.recipient, m.id) in v.delivered then v
      else v.(pending := v.pending[m.recipient := Put(v.Pending(m.recipient), m)])
    case Delivery(state, recipient, id) =>
      if state != "delivered" || recipient == "" || id == "" then v else Deliver(v, recipient, id)
    case Acked(recipient, id) => Deliver(v, recipient, id)
  }

  function Run(events: seq<Event>): View {
    if events == [] then View(map[], {}) else Step(Run(events[..|events| - 1]), events[|events| - 1])
  }

  class ChatService {
    var pending: map<Tag, Mailbox>
    var delivered: set<Key>

    function CurrentView(): View
      reads this
    {
      View(pending, delivered)
    }

    constructor ()
      ensures CurrentView() == Run([])
    {
      pending, delivered := map[], {};
    }

    method ConsumePrivate(m: Message)
      modifies this
      ensures CurrentView() == Step(old(CurrentView()), Private(m))
    {
      if m.recipient == "" || m.id == "" {
        return;
      }
      if Key(m.recipient, m.id) in delivered {
        return;
      }
      var box := if m.recipient in pending then pending[m.recipient] else [];
      pending := pending[m.recipient := Put(box, m)];
    }

    method ConsumeDelivery(state: string, recipient: Tag, id: MessageId)
      modifies this
      ensures CurrentView() == Step(old(CurrentView()), Delivery(state, recipient, id))
    {
      if state != "delivered" {
        return;
      }
      if recipient == "" || id == "" {
        return;
      }
      MarkDelivered(recipient, id);
    }

    method MarkDelivered(recipient: Tag, id: MessageId)
      modifies this
      ensures CurrentView() == Step(old(CurrentView()), Acked(recipient, id))
    {
      delivered := delivered + {Key(recipient, id)};
      var box := if recipient in pending then pending[recipient] else [];
      pending := pending[recipient := Without(box, id)];
    }
  }

  // ---------------------------------------------------------------------
  // The specification over the logs
  // ---------------------------------------------------------------------

  // The messages to one recipient, in the order they were consumed.
  function MessagesTo(events: seq<Event>, recipient: Tag): seq<Message> {
    if events == [] then [] else
      var e := events[|events| - 1];
      MessagesTo(events[..|events| - 1], recipient)
      + (if e.Private? && e.message.recipient == recipient && recipient != "" && e.message.id != "" then [e.message] else [])
  }

  // Everything reported or acknowledged as delivered.
  function DeliveredBy(events: seq<Event>): set<Key> {
    if events == [] then {} else
      DeliveredBy(events[..|events| - 1]) + DeliveredKey(events[|events| - 1])
  }

  function DeliveredKey(e: Event): set<Key> {
    match e
    case Private(_) => {}
    case Delivery(state, recipient, id) =>
      if state != "delivered" || recipient == "" || id == "" then {} else {Key(recipient, id)}
    case Acked(recipient, id) => {Key(recipient, id)}
  }

  function Collect(messages: seq<Message>): Mailbox {
    if messages == [] then [] else Put(Collect(messages[..|messages| - 1]), messages[|messages| - 1])
  }

  function Undelivered(box: Mailbox, recipient: Tag, delivered: set<Key>): Mailbox {
    if box == [] then []
    else if Key(recipient, box[0].id) in delivered then Undelivered(box[1..], recipient, delivered)
    else [box[0]] + Undelivered(box[1..], recipient, delivered)
  }

  // What a recipient should have pending: the messages, each once, without the
  // delivered ones.
  function Expected(messages: seq<Message>, recipient: Tag, delivered: set<Key>): Mailbox {
    Undelivered(Collect(messages), recipient, delivered)
  }

  // ---------------------------------------------------------------------
  // Confluence
  // ---------------------------------------------------------------------

  ghost predicate DistinctIds(box: Mailbox) {
    forall i, j :: 0 <= i < j < |box| ==> box[i].id != box[j].id
  }

  lemma {:induction false} UndeliveredPut(box: Mailbox, m: Message, recipient: Tag, delivered: set<Key>)
    requires DistinctIds(box)
    ensures Undelivered(Put(box, m), recipient, delivered)
         == if Key(recipient, m.id) in delivered then Undelivered(box, recipient, delivered)
            else Put(Undelivered(box, recipient, delivered), m)
  {
    if box == [] {
      var one: Mailbox := [m];
      assert one[1..] == [];
    } else {
      var rest := box[1..];
      assert DistinctIds(rest);
      if box[0].id == m.id {
        assert ([m] + rest)[1..] == rest;
      } else {
        UndeliveredPut(rest, m, recipient, delivered);
        assert ([box[0]] + Put(rest, m))[1..] == Put(rest, m);
        assert ([box[0]] + Undelivered(rest, recipient, delivered))[1..] == Undelivered(rest, recipient, delivered);
      }
    }
  }

  lemma {:induction false} UndeliveredMore(box: Mailbox, recipient: Tag, delivered: set<Key>, key: Key)
    ensures Undelivered(box, recipient, delivered + {key})
         == if key.recipient == recipient then Without(Undelivered(box, recipient, delivered), key.id)
            else Undelivered(box, recipient, delivered)
  {
    if box != [] {
      var rest := box[1..];
      UndeliveredMore(rest, recipient, delivered, key);
      assert ([box[0]] + Undelivered(rest, recipient, delivered))[1..] == Undelivered(rest, recipient, delivered);
    }
  }

  // What Collect holds, independently of dictionaries: each id once, in the
  // order of its first message, with the content of its last one.
  ghost predicate Latest(messages: seq<Message>, m: Message) {
    exists i :: LatestAt(messages, m, i)
  }

  ghost predicate LatestAt(messages: seq<Message>, m: Message, i: nat) {
    i < |messages| && messages[i] == m && forall j :: i < j < |messages| ==> messages[j].id != m.id
  }

  function FirstIds(messages: seq<Message>): seq<MessageId> {
    if messages == [] then [] else
      AddId(FirstIds(messages[..|messages| - 1]), messages[|messages| - 1].id)
  }

  function AddId(ids: seq<MessageId>, id: MessageId): seq<MessageId> {
    if id in ids then ids else ids + [id]
  }

  function Ids(box: Mailbox): seq<MessageId> {
    seq(|box|, i requires 0 <= i < |box| => box[i].id)
  }

  lemma {:induction false} PutIds(box: Mailbox, m: Message)
    ensures Ids(Put(box, m)) == AddId(Ids(box), m.id)
  {
    if box != [] {
      var rest := box[1..];
      assert Ids(box) == [box[0].id] + Ids(rest);
      if box[0].id == m.id {
        assert Ids([m] + rest) == Ids(box);
      } else {
        PutIds(rest, m);
        assert Ids([box[0]] + Put(rest, m)) == [box[0].id] + Ids(Put(rest, m));
      }
    }
  }

  lemma {:induction false} PutMembers(box: Mailbox, m: Message)
    requires DistinctIds(box)
    ensures forall q :: q in Put(box, m) ==> q == m || (q in box && q.id != m.id)
  {
    if box != [] {
      var rest := box[1..];
      assert box == [box[0]] + rest;
      if box[0].id == m.id {
        assert forall q :: q in rest ==> q.id != m.id;
      } else {
        assert DistinctIds(rest);
        PutMembers(rest, m);
      }
    }
  }

  lemma DistinctByIds(box: Mailbox)
    ensures DistinctIds(box) <==> forall i, j :: 0 <= i < j < |Ids(box)| ==> Ids(box)[i] != Ids(box)[j]
  {
    if DistinctIds(box) {
      forall i, j | 0 <= i < j < |Ids(box)| ensures Ids(box)[i] != Ids(box)[j] {
        assert box[i].id != box[j].id;
      }
    }
    if forall i, j :: 0 <= i < j < |Ids(box)| ==> Ids(box)[i] != Ids(box)[j] {
      forall i, j | 0 <= i < j < |box| ensures box[i].id != box[j].id {
        assert Ids(box)[i] != Ids(box)[j];
      }
    }
  }

  // Replacing keeps the ids, and a new id goes to the end.
  lemma PutKeepsDistinct(box: Mailbox, m: Message)
    requires DistinctIds(box)
    ensures DistinctIds(Put(box, m))
  {
    hide Put, Ids;
    DistinctByIds(box);
    PutIds(box, m);
    DistinctByIds(Put(box, m));
  }

  lemma {:induction false} CollectIds(messages: seq<Message>)
    ensures DistinctIds(Collect(messages)) && Ids(Collect(messages)) == FirstIds(messages)
  {
    hide Put, Ids, DistinctIds;
    if messages == [] {
      NothingCollected();
    } else {
      var front, last := messages[..|messages| - 1], messages[|messages| - 1];
      CollectIds(front);
      PutKeepsDistinct(Collect(front), last);
      PutIds(Collect(front), last);
    }
  }

  lemma NothingCollected()
    ensures DistinctIds(Collect([])) && Ids(Collect([])) == []
  {
  }

  lemma {:induction false} CollectMeaning(messages: seq<Message>)
    ensures DistinctIds(Collect(messages))
    ensures Ids(Collect(messages)) == FirstIds(messages)
    ensures forall m :: m in Collect(messages) ==> Latest(messages, m)
  {
    hide Put, DistinctIds, Latest, Ids, FirstIds;
    CollectIds(messages);
    if messages != [] {
      var front, last := messages[..|messages| - 1], messages[|messages| - 1];
      CollectMeaning(front);
      PutMembers(Collect(front), last);
      assert messages == front + [last];
      forall m | m in Collect(messages) ensures Latest(messages, m) {
        LatestExtends(front, last, m);
      }
    }
  }

  lemma LatestExtends(front: seq<Message>, last: Message, m: Message)
    requires m == last || (m.id != last.id && Latest(front, m))
    ensures Latest(front + [last], m)
  {
    if m == last {
      assert LatestAt(front + [last], m, |front|);
    } else {
      var i: nat :| LatestAt(front, m, i);
      assert LatestAt(front + [last], m, i);
    }
  }

  // In every interleaving of the logs and the handlers, with redeliveries, each
  // recipient's pending messages are a function of the messages consumed for
  // it, in their order, and of the set delivered.
  lemma {:induction false} ViewMeetsSpecification(events: seq<Event>, recipient: Tag)
    ensures Run(events).delivered == DeliveredBy(events)
    ensures Run(events).Pending(recipient) == Expected(MessagesTo(events, recipient), recipient, DeliveredBy(events))
  {
    hide Put, Without, Undelivered, DistinctIds;
    if events == [] {
      NothingExpected(recipient);
    } else {
      var before, e := events[..|events| - 1], events[|events| - 1];
      ViewMeetsSpecification(before, recipient);
      var messages, delivered := MessagesTo(before, recipient), DeliveredBy(before);
      match e
      case Private(m) =>
        assert messages + [] == messages;
        CollectMeaning(messages);
        UndeliveredPut(Collect(messages), m, recipient, delivered);
        assert (messages + [m])[..|messages|] == messages;
      case Delivery(state, r, id) =>
        assert messages + [] == messages;
        UndeliveredMore(Collect(messages), recipient, delivered, Key(r, id));
      case Acked(r, id) =>
        assert messages + [] == messages;
        UndeliveredMore(Collect(messages), recipient, delivered, Key(r, id));
    }
  }

  lemma NothingExpected(recipient: Tag)
    ensures Expected([], recipient, {}) == []
  {
  }

  lemma ViewsConverge(a: seq<Event>, b: seq<Event>, recipient: Tag)
    requires MessagesTo(a, recipient) == MessagesTo(b, recipient)
    requires DeliveredBy(a) == DeliveredBy(b)
    ensures Run(a).Pending(recipient) == Run(b).Pending(recipient)
  {
    ViewMeetsSpecification(a, recipient);
    ViewMeetsSpecification(b, recipient);
  }

  function Remaining(ids: seq<MessageId>, recipient: Tag, delivered: set<Key>): seq<MessageId> {
    if ids == [] then []
    else if Key(recipient, ids[0]) in delivered then Remaining(ids[1..], recipient, delivered)
    else [ids[0]] + Remaining(ids[1..], recipient, delivered)
  }

  // Nothing consumed is lost, nothing delivered reappears, and what is pending
  // is in the order of the log.
  lemma PendingIds(events: seq<Event>, recipient: Tag)
    ensures Ids(Run(events).Pending(recipient))
         == Remaining(FirstIds(MessagesTo(events, recipient)), recipient, DeliveredBy(events))
  {
    var messages := MessagesTo(events, recipient);
    ViewMeetsSpecification(events, recipient);
    UndeliveredIds(Collect(messages), recipient, DeliveredBy(events));
    CollectMeaning(messages);
  }

  lemma {:induction false} UndeliveredIds(box: Mailbox, recipient: Tag, delivered: set<Key>)
    ensures Ids(Undelivered(box, recipient, delivered)) == Remaining(Ids(box), recipient, delivered)
  {
    if box != [] {
      UndeliveredIds(box[1..], recipient, delivered);
      assert Ids(box) == [box[0].id] + Ids(box[1..]) && Ids(box)[1..] == Ids(box[1..]);
      var rest := Undelivered(box[1..], recipient, delivered);
      assert Ids([box[0]] + rest) == [box[0].id] + Ids(rest);
    }
  }
}
