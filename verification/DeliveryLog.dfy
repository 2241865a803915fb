/** The delivery-state topic: who writes it, what compaction may remove, and
    what a restarted service makes of it. */
module DeliveryLog {
  import opened DeliveryView

  datatype DeliveryState = Pending | Delivered

  datatype Record = Record(state: DeliveryState, recipient: Tag, id: MessageId) {
    // The topic's key; compaction keeps the last record of each key.
    function TopicKey(): string {
      recipient + ":" + id
    }

    function StateText(): string {
      if state == Delivered then "delivered" else "pending"
    }
  }

  predicate NoColon(tag: Tag) {
    ':' !in tag
  }

  function FirstColon(s: string): nat {
    if s == "" || s[0] == ':' then 0 else 1 + FirstColon(s[1..])
  }

  lemma {:induction false} FirstColonAfter(tag: Tag, rest: string)
    requires NoColon(tag)
    ensures FirstColon(tag + ":" + rest) == |tag|
  {
    if tag != "" {
      FirstColonAfter(tag[1..], rest);
      assert (tag + ":" + rest)[1..] == tag[1..] + ":" + rest;
    }
  }

  // The key names recipient and message, because no tag contains a colon.
  lemma TopicKeyInjective(r: Record, q: Record)
    requires NoColon(r.recipient) && NoColon(q.recipient) && r.TopicKey() == q.TopicKey()
    ensures r.recipient == q.recipient && r.id == q.id
  {
    FirstColonAfter(r.recipient, r.id);
    FirstColonAfter(q.recipient, q.id);
    var k, n := r.TopicKey(), |r.recipient|;
    assert k[..n] == r.recipient && k[..n] == q.recipient;
    assert k[n + 1..] == r.id && k[n + 1..] == q.id;
  }

  // Device tags: dev- and eight random bytes in lower-case base32, which is
  // thirteen digits for the 64 bits and one padding bit.
  const BASE32: string := "abcdefghijklmnopqrstuvwxyz234567"

  function Base32(n: nat, digits: nat): (s: string)
    ensures |s| == digits && forall i :: 0 <= i < digits ==> s[i] in BASE32
  {
    if digits == 0 then [] else Base32(n / 32, digits - 1) + [BASE32[n % 32]]
  }

  function TagFromRandom(random: nat): Tag {
    "dev-" + Base32(random * 2, 13)
  }

  lemma TagsHaveNoColon(random: nat)
    ensures NoColon(TagFromRandom(random)) && TagFromRandom(random) != ""
  {
    assert ':' !in BASE32;
  }

  lemma {:induction false} Base32Injective(m: nat, n: nat, digits: nat)
    requires m < Power32(digits) && n < Power32(digits) && Base32(m, digits) == Base32(n, digits)
    ensures m == n
  {
    if digits > 0 {
      var a, b := Base32(m, digits), Base32(n, digits);
      assert a[..digits - 1] == Base32(m / 32, digits - 1) && b[..digits - 1] == Base32(n / 32, digits - 1);
      Base32Injective(m / 32, n / 32, digits - 1);
      DigitsDiffer(m % 32, n % 32);
    }
  }

  function Power32(n: nat): nat {
    if n == 0 then 1 else 32 * Power32(n - 1)
  }

  lemma CodeOfDigit(d: nat)
    requires d < 32
    ensures BASE32[d] as int == if d < 26 then 97 + d else 50 + (d - 26)
  {
  }

  lemma DigitsDiffer(i: nat, j: nat)
    requires i < 32 && j < 32 && BASE32[i] == BASE32[j]
    ensures i == j
  {
    CodeOfDigit(i);
    CodeOfDigit(j);
  }

  // Different random bytes make different tags.
  lemma TagsDiffer(m: nat, n: nat)
    requires m < 0x1_0000_0000_0000_0000 && n < 0x1_0000_0000_0000_0000 && TagFromRandom(m) == TagFromRandom(n)
    ensures m == n
  {
    assert Power32(4) == 32 * (32 * (32 * Power32(1)));
    assert Power32(8) == 32 * (32 * (32 * (32 * Power32(4))));
    assert Power32(12) == 32 * (32 * (32 * (32 * Power32(8))));
    assert Power32(13) == 32 * Power32(12);
    assert TagFromRandom(m)[4..] == Base32(m * 2, 13) && TagFromRandom(n)[4..] == Base32(n * 2, 13);
    Base32Injective(m * 2, n * 2, 13);
  }

  // ---------------------------------------------------------------------
  // Compaction
  // ---------------------------------------------------------------------

  function DeliveredKeys(log: seq<Record>): set<Key> {
    set r | r in log && r.state == Delivered && r.recipient != "" && r.id != "" :: Key(r.recipient, r.id)
  }

  lemma ReportOf(log: seq<Record>, key: Key) returns (r: Record)
    requires key in DeliveredKeys(log)
    ensures r in log && r.state == Delivered && r.recipient != "" && r.id != "" && key == Key(r.recipient, r.id)
  {
    r :| r in log && r.state == Delivered && r.recipient != "" && r.id != "" && key == Key(r.recipient, r.id);
  }

  ghost predicate LastOfKey(log: seq<Record>, i: nat) {
    i < |log| && forall j :: i < j < |log| ==> log[j].TopicKey() != log[i].TopicKey()
  }

  // Compaction removes records, but never the last one of a key.
  ghost predicate Compaction(log: seq<Record>, kept: seq<Record>) {
    && (forall r :: r in kept ==> r in log)
    && (forall i: nat :: LastOfKey(log, i) ==> log[i] in kept)
  }

  // Once delivered, a key stays delivered.
  ghost predicate Settled(log: seq<Record>) {
    forall r, j: nat :: r in log && Reports(r) && LastOfKey(log, j) && r.TopicKey() == log[j].TopicKey() ==>
      log[j].state == Delivered
  }

  predicate Reports(r: Record) {
    r.state == Delivered && r.recipient != "" && r.id != ""
  }

  ghost predicate TagsOnly(log: seq<Record>) {
    forall r :: r in log ==> NoColon(r.recipient)
  }

  lemma {:induction false} LastExists(log: seq<Record>, i: nat) returns (j: nat)
    requires i < |log|
    ensures LastOfKey(log, j) && log[j].TopicKey() == log[i].TopicKey()
    decreases |log| - i
  {
    if k :| i < k < |log| && log[k].TopicKey() == log[i].TopicKey() {
      j := LastExists(log, k);
    } else {
      j := i;
    }
  }

  // Whatever compaction removes, the delivered messages stay the same, if and
  // only if no key ends with a pending record after a delivered one.
  lemma CompactionPreservesDelivered(log: seq<Record>)
    requires TagsOnly(log)
    ensures (forall kept :: Compaction(log, kept) ==> DeliveredKeys(kept) == DeliveredKeys(log)) <==> Settled(log)
  {
    if Settled(log) {
      forall kept | Compaction(log, kept) ensures DeliveredKeys(kept) == DeliveredKeys(log) {
        SettledSurvives(log, kept);
      }
    }
    if forall kept :: Compaction(log, kept) ==> DeliveredKeys(kept) == DeliveredKeys(log) {
      LastOnlyIsCompaction(log);
      LastOnlyShows(log);
    }
  }

  lemma LastOnlyShows(log: seq<Record>)
    requires DeliveredKeys(LastOnly(log)) == DeliveredKeys(log)
    ensures Settled(log)
  {
    forall r, j: nat | r in log && Reports(r) && LastOfKey(log, j) && r.TopicKey() == log[j].TopicKey()
      ensures log[j].state == Delivered
    {
      var kept := LastOnly(log);
      assert Key(r.recipient, r.id) in DeliveredKeys(log);
      var q := ReportOf(kept, Key(r.recipient, r.id));
      LastOnlyMembers(log, q);
      var k: nat :| LastOfKey(log, k) && log[k] == q;
      assert q.TopicKey() == r.TopicKey();
      assert log[k].TopicKey() == log[j].TopicKey();
      assert k <= j && j <= k;
      assert log[j] == q;
    }
  }

  lemma SettledSurvives(log: seq<Record>, kept: seq<Record>)
    requires TagsOnly(log) && Settled(log) && Compaction(log, kept)
    ensures DeliveredKeys(kept) == DeliveredKeys(log)
  {
    forall key | key in DeliveredKeys(log) ensures key in DeliveredKeys(kept) {
      var r := ReportOf(log, key);
      var i :| 0 <= i < |log| && log[i] == r;
      var j := LastExists(log, i);
      TopicKeyInjective(r, log[j]);
      assert log[j] in kept;
    }
  }

  // The most that compaction can remove.
  function LastOnly(log: seq<Record>): seq<Record> {
    if log == [] then [] else
      if exists j :: 0 < j < |log| && log[j].TopicKey() == log[0].TopicKey() then LastOnly(log[1..])
      else [log[0]] + LastOnly(log[1..])
  }

  lemma {:induction false} LastOnlyMembers(log: seq<Record>, r: Record)
    ensures r in LastOnly(log) <==> exists i: nat :: LastOfKey(log, i) && log[i] == r
  {
    if log != [] {
      var rest := log[1..];
      LastOnlyMembers(rest, r);
      forall i: nat | 0 < i < |log| ensures LastOfKey(log, i) <==> LastOfKey(rest, i - 1) {
        if LastOfKey(log, i) {
          forall j | i - 1 < j < |rest| ensures rest[j].TopicKey() != rest[i - 1].TopicKey() {
            assert log[j + 1].TopicKey() != log[i].TopicKey();
          }
        }
      }
      assert LastOfKey(log, 0) <==> !exists j :: 0 < j < |log| && log[j].TopicKey() == log[0].TopicKey();
      if i: nat :| LastOfKey(rest, i) && rest[i] == r {
        assert LastOfKey(log, i + 1) && log[i + 1] == r;
      }
    }
  }

  lemma LastOnlyIsCompaction(log: seq<Record>)
    ensures Compaction(log, LastOnly(log))
  {
    var kept := LastOnly(log);
    forall r | r in kept ensures r in log {
      LastOnlyMembers(log, r);
    }
    forall i: nat | LastOfKey(log, i) ensures log[i] in kept {
      LastOnlyMembers(log, log[i]);
    }
  }

  // ---------------------------------------------------------------------
  // The writers
  // ---------------------------------------------------------------------

  datatype Topics = Topics(private: seq<Message>, delivery: seq<Record>)

  // Sending a message writes both topics in one step of the event loop; an
  // acknowledgement may name any id.
  datatype Action = Send(message: Message) | Acknowledge(recipient: Tag, id: MessageId)

  // Message ids are fresh: nothing written so far mentions them.
  predicate Fresh(t: Topics, m: Message) {
    && m.recipient != "" && m.id != "" && NoColon(m.recipient)
    && (forall r :: r in t.delivery ==> r.id != m.id)
    && (forall q :: q in t.private ==> q.id != m.id)
  }

  function Step(t: Topics, a: Action): Topics {
    match a
    case Send(m) =>
      if Fresh(t, m) then Topics(t.private + [m], t.delivery + [Record(Pending, m.recipient, m.id)]) else t
    case Acknowledge(recipient, id) =>
      if recipient != "" && NoColon(recipient) then t.(delivery := t.delivery + [Record(Delivered, recipient, id)]) else t
  }

  function Run(actions: seq<Action>): Topics {
    if actions == [] then Topics([], []) else Step(Run(actions[..|actions| - 1]), actions[|actions| - 1])
  }

  // A pending record is the first of its key.
  ghost predicate PendingFirst(log: seq<Record>) {
    forall i, j :: 0 <= i < j < |log| && log[j].state == Pending ==> log[i].id != log[j].id
  }

  lemma PendingFirstSettles(log: seq<Record>)
    requires TagsOnly(log) && PendingFirst(log)
    ensures Settled(log)
  {
    forall r, j: nat | r in log && Reports(r) && LastOfKey(log, j) && r.TopicKey() == log[j].TopicKey()
      ensures log[j].state == Delivered
    {
      var i :| 0 <= i < |log| && log[i] == r;
      TopicKeyInjective(r, log[j]);
    }
  }

  lemma StepKeepsLog(t: Topics, a: Action)
    requires TagsOnly(t.delivery) && PendingFirst(t.delivery)
    ensures TagsOnly(Step(t, a).delivery) && PendingFirst(Step(t, a).delivery)
  {
  }

  lemma {:induction false} EveryRunSettles(actions: seq<Action>)
    ensures TagsOnly(Run(actions).delivery) && PendingFirst(Run(actions).delivery) && Settled(Run(actions).delivery)
  {
    hide Settled, PendingFirst, Step;
    if actions == [] {
      NothingSettled();
    } else {
      EveryRunSettles(actions[..|actions| - 1]);
      StepKeepsLog(Run(actions[..|actions| - 1]), actions[|actions| - 1]);
    }
    PendingFirstSettles(Run(actions).delivery);
  }

  lemma NothingSettled()
    ensures TagsOnly(Run([]).delivery) && PendingFirst(Run([]).delivery)
  {
  }

  // ---------------------------------------------------------------------
  // What was done is what the topics hold
  // ---------------------------------------------------------------------

  // An acknowledgement by a device; it may name any id.
  predicate Acks(a: Action) {
    a.Acknowledge? && a.recipient != "" && ':' !in a.recipient
  }

  // A message to a device.
  predicate Sends(a: Action) {
    a.Send? && a.message.recipient != "" && ':' !in a.message.recipient && a.message.id != ""
  }

  predicate Mentions(a: Action, id: MessageId) {
    (Acks(a) && a.id == id) || (Sends(a) && a.message.id == id)
  }

  predicate IsNew(actions: seq<Action>, id: MessageId) {
    forall a :: a in actions ==> !Mentions(a, id)
  }

  // The messages sent under ids that were new, in order.
  function SentBy(actions: seq<Action>): seq<Message> {
    if actions == [] then [] else
      var front, last := actions[..|actions| - 1], actions[|actions| - 1];
      SentBy(front) + (if Sends(last) && IsNew(front, last.message.id) then [last.message] else [])
  }

  function AcknowledgedBy(actions: seq<Action>): set<Key> {
    set a | a in actions && Acks(a) && a.id != "" :: Key(a.recipient, a.id)
  }

  predicate IdWritten(t: Topics, id: MessageId) {
    exists r :: r in t.delivery && r.id == id
  }

  ghost predicate Told(t: Topics, actions: seq<Action>) {
    && t.private == SentBy(actions)
    && (forall q :: q in t.private ==> IdWritten(t, q.id))
    && (forall id :: IdWritten(t, id) <==> !IsNew(actions, id))
  }

  lemma FreshIsNew(t: Topics, actions: seq<Action>, m: Message)
    requires Told(t, actions)
    ensures Fresh(t, m) <==> Sends(Send(m)) && IsNew(actions, m.id)
  {
    hide IsNew, SentBy;
    assert IdWritten(t, m.id) <==> !IsNew(actions, m.id);
  }

  lemma WrittenAfter(t: Topics, r: Record, id: MessageId)
    ensures IdWritten(t.(delivery := t.delivery + [r]), id) <==> IdWritten(t, id) || r.id == id
  {
    var more := t.delivery + [r];
    assert r in more;
    assert forall q :: q in more <==> q in t.delivery || q == r;
  }

  lemma NewAfter(actions: seq<Action>, a: Action, id: MessageId)
    ensures IsNew(actions + [a], id) <==> IsNew(actions, id) && !Mentions(a, id)
  {
    assert a in actions + [a];
    assert forall b :: b in actions + [a] <==> b in actions || b == a;
  }

  lemma StepIsTold(t: Topics, actions: seq<Action>, a: Action)
    requires Told(t, actions)
    ensures Told(Step(t, a), actions + [a])
  {
    hide IsNew, IdWritten, Fresh;
    var t', all := Step(t, a), actions + [a];
    assert all[..|actions|] == actions;
    if a.Send? {
      FreshIsNew(t, actions, a.message);
    }
    forall id ensures IdWritten(t', id) <==> !IsNew(all, id) {
      NewAfter(actions, a, id);
      if t' != t {
        WrittenAfter(t, t'.delivery[|t.delivery|], id);
        IdsOfDelivery(t, t', id);
      }
    }
    forall q | q in t'.private ensures IdWritten(t', q.id) {
      assert q in t.private || a == Send(q);
      assert IdWritten(t', q.id) <==> !IsNew(all, q.id);
      NewAfter(actions, a, q.id);
    }
  }

  // Only the delivery topic counts.
  lemma IdsOfDelivery(t: Topics, t': Topics, id: MessageId)
    requires t'.delivery != [] && t'.delivery == t.delivery + [t'.delivery[|t'.delivery| - 1]]
    ensures IdWritten(t', id) <==> IdWritten(t.(delivery := t'.delivery), id)
  {
  }

  lemma {:induction false} RunIsTold(actions: seq<Action>)
    ensures Told(Run(actions), actions)
  {
    if actions == [] {
      assert Run(actions) == Topics([], []);
    } else {
      hide Told, Step;
      var front, last := actions[..|actions| - 1], actions[|actions| - 1];
      RunIsTold(front);
      StepIsTold(Run(front), front, last);
      assert actions == front + [last];
    }
  }

  // After every run the private topic is what was sent.
  lemma PrivateTopicIsWhatWasSent(actions: seq<Action>)
    ensures Run(actions).private == SentBy(actions)
  {
    RunIsTold(actions);
  }

  // The delivery topic has a pending record for each message sent, a delivered
  // one for each acknowledgement, and no other.
  lemma {:induction false} DeliveryTopicIsWhatHappened(actions: seq<Action>, r: Record)
    ensures r in Run(actions).delivery <==>
              match r.state
              case Pending => exists m :: m in SentBy(actions) && m.recipient == r.recipient && m.id == r.id
              case Delivered => Acknowledge(r.recipient, r.id) in actions && Acks(Acknowledge(r.recipient, r.id))
  {
    if actions != [] {
      var front, last := actions[..|actions| - 1], actions[|actions| - 1];
      assert actions == front + [last];
      DeliveryTopicIsWhatHappened(front, r);
      RunIsTold(front);
      if last.Send? {
        FreshIsNew(Run(front), front, last.message);
        hide Fresh, IsNew, Told;
        if r.state == Pending && Sends(last) && IsNew(front, last.message.id) {
          assert last.message in SentBy(actions);
        }
      }
    }
  }

  // A message counts as delivered exactly when its recipient acknowledged it.
  lemma DeliveredIsAcknowledged(actions: seq<Action>)
    ensures DeliveredKeys(Run(actions).delivery) == AcknowledgedBy(actions)
  {
    hide Run;
    var log := Run(actions).delivery;
    forall key ensures key in DeliveredKeys(log) <==> key in AcknowledgedBy(actions) {
      DeliveryTopicIsWhatHappened(actions, Record(Delivered, key.recipient, key.id));
      if key in DeliveredKeys(log) {
        var r := ReportOf(log, key);
        assert r == Record(Delivered, key.recipient, key.id);
      }
      if key in AcknowledgedBy(actions) {
        var a :| a in actions && Acks(a) && a.id != "" && key == Key(a.recipient, a.id);
        assert a == Acknowledge(key.recipient, key.id);
      }
    }
  }

  // ---------------------------------------------------------------------
  // Restart
  // ---------------------------------------------------------------------

  // A restarted service consumes the whole private topic and some compaction
  // of the delivery topic, with repetitions and in any interleaving, while its
  // handlers may already take acknowledgements.
  ghost predicate Rebuild(t: Topics, kept: seq<Record>, events: seq<Event>, recipient: Tag) {
    && Compaction(t.delivery, kept)
    && (forall r :: r in kept ==> ReportEvent(r) in events)
    && (forall e :: e in events && e.Delivery? ==> exists r :: r in kept && e == ReportEvent(r))
    && FirstIds(MessagesTo(events, recipient)) == Ids(Addressed(t.private, recipient))
  }

  function ReportEvent(r: Record): Event {
    Delivery(r.StateText(), r.recipient, r.id)
  }

  function AckedKeys(events: seq<Event>): set<Key> {
    set e | e in events && e.Acked? :: Key(e.recipient, e.id)
  }

  function Addressed(messages: seq<Message>, recipient: Tag): seq<Message> {
    if messages == [] then [] else
      var last := messages[|messages| - 1];
      Addressed(messages[..|messages| - 1], recipient) + (if last.recipient == recipient then [last] else [])
  }

  // The messages to one recipient, none missing, in their order.
  lemma {:induction false} AddressedInOrder(messages: seq<Message>, recipient: Tag) returns (at: seq<nat>)
    ensures |at| == |Addressed(messages, recipient)| && forall i, j :: 0 <= i < j < |at| ==> at[i] < at[j]
    ensures forall k :: 0 <= k < |at| ==>
              at[k] < |messages| && Addressed(messages, recipient)[k] == messages[at[k]] && messages[at[k]].recipient == recipient
    ensures forall i :: 0 <= i < |messages| && messages[i].recipient == recipient ==> i in at
  {
    if messages == [] {
      at := [];
    } else {
      var front, last := messages[..|messages| - 1], messages[|messages| - 1];
      at := AddressedInOrder(front, recipient);
      if last.recipient == recipient {
        var more := at + [|front|];
        assert more[|at|] == |front|;
        at := more;
      }
    }
  }

  lemma {:induction false} DeliveredByMembers(events: seq<Event>, key: Key)
    ensures key in DeliveredBy(events) <==> exists e :: e in events && key in DeliveredKey(e)
  {
    if events != [] {
      DeliveredByMembers(events[..|events| - 1], key);
      assert events == events[..|events| - 1] + [events[|events| - 1]];
    }
  }

  function ReportEvents(records: seq<Record>): seq<Event> {
    seq(|records|, i requires 0 <= i < |records| => ReportEvent(records[i]))
  }

  function PrivateEvents(messages: seq<Message>): seq<Event> {
    seq(|messages|, i requires 0 <= i < |messages| => Private(messages[i]))
  }

  // One such way: all reports of a compaction, then all messages.
  lemma OneRebuild(actions: seq<Action>, kept: seq<Record>, recipient: Tag)
    requires recipient != "" && Compaction(Run(actions).delivery, kept)
    ensures Rebuild(Run(actions), kept, ReportEvents(kept) + PrivateEvents(Run(actions).private), recipient)
  {
    RunHasIds(actions);
    hide Compaction, Run, FirstIds, Ids, Addressed, MessagesTo;
    var t := Run(actions);
    var reports, messages := ReportEvents(kept), PrivateEvents(t.private);
    forall r | r in kept ensures ReportEvent(r) in reports + messages {
      var i :| 0 <= i < |kept| && kept[i] == r;
      assert reports[i] == ReportEvent(r);
    }
    NoMessages(kept, recipient);
    MessagesOfTopic(reports, t.private, recipient);
    OwnIdsAreFirst(t.private, recipient);
  }

  lemma {:induction false} NoMessages(kept: seq<Record>, recipient: Tag)
    ensures MessagesTo(ReportEvents(kept), recipient) == []
  {
    if kept != [] {
      NoMessages(kept[..|kept| - 1], recipient);
      assert ReportEvents(kept)[..|kept| - 1] == ReportEvents(kept[..|kept| - 1]);
    }
  }

  ghost predicate OwnIds(messages: seq<Message>) {
    && (forall m :: m in messages ==> m.id != "")
    && (forall i, j :: 0 <= i < j < |messages| ==> messages[i].id != messages[j].id)
  }

  lemma {:induction false} RunHasIds(actions: seq<Action>)
    ensures OwnIds(Run(actions).private)
  {
    if actions != [] {
      RunHasIds(actions[..|actions| - 1]);
    }
  }

  lemma OwnIdsAreFirst(messages: seq<Message>, recipient: Tag)
    requires OwnIds(messages)
    ensures FirstIds(Addressed(messages, recipient)) == Ids(Addressed(messages, recipient))
  {
    hide Addressed, FirstIds, Ids;
    var at := AddressedInOrder(messages, recipient);
    var own := Addressed(messages, recipient);
    forall i, j | 0 <= i < j < |own| ensures own[i].id != own[j].id {
      assert at[i] < at[j];
    }
    FirstOfDistinct(own);
  }

  lemma {:induction false} FirstOfDistinct(box: Mailbox)
    requires DistinctIds(box)
    ensures FirstIds(box) == Ids(box)
  {
    if box != [] {
      var front, last := box[..|box| - 1], box[|box| - 1];
      FirstOfDistinct(front);
      assert Ids(box) == Ids(front) + [last.id];
      forall i | 0 <= i < |front| ensures Ids(front)[i] != last.id {
        assert box[i].id != box[|box| - 1].id;
      }
    }
  }

  lemma MessagesMore(events: seq<Event>, m: Message, recipient: Tag)
    requires recipient != "" && m.id != ""
    ensures MessagesTo(events + [Private(m)], recipient)
         == MessagesTo(events, recipient) + (if m.recipient == recipient then [m] else [])
  {
    assert (events + [Private(m)])[..|events|] == events;
  }

  lemma {:induction false} MessagesOfTopic(reports: seq<Event>, messages: seq<Message>, recipient: Tag)
    requires recipient != "" && MessagesTo(reports, recipient) == [] && forall m :: m in messages ==> m.id != ""
    ensures MessagesTo(reports + PrivateEvents(messages), recipient) == Addressed(messages, recipient)
  {
    hide MessagesTo;
    if messages == [] {
      assert reports + PrivateEvents(messages) == reports;
    } else {
      var front, last := messages[..|messages| - 1], messages[|messages| - 1];
      MessagesOfTopic(reports, front, recipient);
      assert reports + PrivateEvents(messages) == (reports + PrivateEvents(front)) + [Private(last)];
      MessagesMore(reports + PrivateEvents(front), last, recipient);
    }
  }

  // After a restart, a recipient has pending exactly the messages ever sent to
  // it and not acknowledged, before or since, in the order they were sent,
  // whatever was compacted away and however the topics and the handlers were
  // interleaved.
  lemma RestartRecovers(actions: seq<Action>, kept: seq<Record>, events: seq<Event>, recipient: Tag)
    requires Rebuild(Run(actions), kept, events, recipient)
    ensures Ids(DeliveryView.Run(events).Pending(recipient))
              == Remaining(Ids(Addressed(SentBy(actions), recipient)), recipient, AcknowledgedBy(actions) + AckedKeys(events))
  {
    PrivateTopicIsWhatWasSent(actions);
    DeliveredIsAcknowledged(actions);
    hide Settled, PendingFirst, TagsOnly, DeliveredKeys, AckedKeys, Run, DeliveryView.Run, DeliveredBy, MessagesTo, Ids, Compaction, Remaining,
      SentBy, AcknowledgedBy, Addressed, FirstIds;
    var t := Run(actions);
    EveryRunSettles(actions);
    SettledSurvives(t.delivery, kept);
    PendingIds(events, recipient);
    RebuildDelivers(t, kept, events, recipient);
  }

  lemma RebuildDelivers(t: Topics, kept: seq<Record>, events: seq<Event>, recipient: Tag)
    requires Rebuild(t, kept, events, recipient)
    ensures DeliveredBy(events) == DeliveredKeys(kept) + AckedKeys(events)
  {
    hide Rebuild, DeliveredBy, AckedKeys, DeliveredKeys;
    forall key ensures key in DeliveredBy(events) <==> key in DeliveredKeys(kept) || key in AckedKeys(events) {
      RebuildDeliversKey(t, kept, events, recipient, key);
    }
  }

  lemma RebuildDeliversKey(t: Topics, kept: seq<Record>, events: seq<Event>, recipient: Tag, key: Key)
    requires Rebuild(t, kept, events, recipient)
    ensures key in DeliveredBy(events) <==> key in DeliveredKeys(kept) || key in AckedKeys(events)
  {
    hide Compaction, MessagesTo, FirstIds, Ids;
    DeliveredByMembers(events, key);
    if key in DeliveredKeys(kept) {
      var r := ReportOf(kept, key);
      assert r.StateText() == "delivered";
      assert DeliveredKey(ReportEvent(r)) == {key};
    }
    if key in AckedKeys(events) {
      var e :| e in events && e.Acked? && key == Key(e.recipient, e.id);
      assert DeliveredKey(e) == {key};
    }
    if key in DeliveredBy(events) {
      var e :| e in events && key in DeliveredKey(e);
      if e.Delivery? {
        var r :| r in kept && e == ReportEvent(r);
        assert Reports(r);
      }
    }
  }
}
