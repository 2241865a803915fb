/** KafkaDeviceDirectory: two indexes over device records, every change also
    appended to a log that is compacted and replayed at the next start. */
module DeviceDirectory {
  import opened Results

  type Id = string
  type Tag = string
  type Thread = nat

  datatype Event = Registered | EncryptionKeyChanged | UsernameChanged

  // Keys are base64 texts; an empty encryption key means there is none.
  datatype Record = Record(
    event: Event,
    deviceId: Id,
    deviceTag: Tag,
    publicKey: string,
    encryptionKey: string,
    username: Option<string>,
    updatedAt: int)

  datatype DirectoryError = TagCollision | UnknownTag | BadUsername

  datatype Directory = Directory(byId: map<Id, Record>, byTag: map<Tag, Record>) {

    // The tag index once the device's previous record is out of it.
    function TagsWithout(id: Id): map<Tag, Record> {
      if id in byId then byTag - {byId[id].deviceTag} else byTag
    }

    predicate Collides(r: Record) {
      var tags := TagsWithout(r.deviceId);
      r.deviceTag in tags && tags[r.deviceTag].deviceId != r.deviceId
    }

    // _apply.  On a collision the previous tag is gone from the index already.
    function Apply(r: Record): Directory {
      if Collides(r) then this.(byTag := TagsWithout(r.deviceId))
      else Directory(byId[r.deviceId := r], TagsWithout(r.deviceId)[r.deviceTag := r])
    }

    // Both indexes hold the same records.
    ghost predicate Consistent() {
      && (forall id :: id in byId ==>
            byId[id].deviceId == id && byId[id].deviceTag in byTag && byTag[byId[id].deviceTag] == byId[id])
      && (forall tag :: tag in byTag ==>
            byTag[tag].deviceTag == tag && byTag[tag].deviceId in byId && byId[byTag[tag].deviceId] == byTag[tag])
    }

    // A record that keeps its device's tag, or brings a new device with an
    // unused tag, does not collide.
    predicate KeepsTags(r: Record) {
      if r.deviceId in byId then r.deviceTag == byId[r.deviceId].deviceTag else r.deviceTag !in byTag
    }
  }

  lemma ApplyKeepsConsistent(d: Directory, r: Record)
    requires d.Consistent() && d.KeepsTags(r)
    ensures !d.Collides(r) && d.Apply(r).Consistent()
    ensures d.Apply(r).byId == d.byId[r.deviceId := r]
  {
  }

  // A new device whose tag is taken changes nothing.
  lemma CollisionChangesNothing(d: Directory, r: Record)
    requires d.Consistent() && r.deviceId !in d.byId && r.deviceTag in d.byTag
    ensures d.Collides(r) && d.Apply(r) == d
  {
  }

  const Empty: Directory := Directory(map[], map[])

  // ---------------------------------------------------------------------
  // The operations
  // ---------------------------------------------------------------------

  function NewRecord(id: Id, publicKey: string, encryptionKey: string, freshTag: Tag, now: int): Record {
    Record(Registered, id, freshTag, publicKey, encryptionKey, None, now)
  }

  function WithEncryptionKey(r: Record, encryptionKey: string, now: int): Record {
    r.(event := EncryptionKeyChanged, encryptionKey := encryptionKey, updatedAt := now)
  }

  function WithUsername(r: Record, username: string, now: int): Record {
    r.(event := UsernameChanged, username := Some(username), updatedAt := now)
  }

  predicate NeedsKeyUpdate(d: Directory, id: Id, encryptionKey: string) {
    id in d.byId && encryptionKey != "" && d.byId[id].encryptionKey != encryptionKey
  }

  class KafkaDeviceDirectory {
    var byId: map<Id, Record>
    var byTag: map<Tag, Record>
    var log: seq<Record>  // the device-directory topic

    function View(): Directory
      reads this
    {
      Directory(byId, byTag)
    }

    ghost predicate Valid()
      reads this
    {
      View().Consistent()
    }

    constructor ()
      ensures Valid() && View() == Empty && log == []
    {
      byId, byTag, log := map[], map[], [];
    }

    // Rebuilding from the topic, record after record, until one collides.
    method LoadSnapshot(records: seq<Record>) returns (r: Result<(), DirectoryError>)
      modifies this`byId, this`byTag
      ensures r.Success? <==> NeverCollides(old(View()), records)
      ensures r.Success? ==> View() == Replay(old(View()), records)
    {
      assert records[0..] == records;
      for i := 0 to |records|
        invariant NeverCollides(old(View()), records) == NeverCollides(View(), records[i..])
        invariant Replay(old(View()), records) == Replay(View(), records[i..])
      {
        assert records[i..][1..] == records[i + 1..];
        var applied := Apply(records[i]);
        if applied.Failure? {
          return applied;
        }
      }
      return Success(());
    }

    method Apply(record: Record) returns (r: Result<(), DirectoryError>)
      modifies this`byId, this`byTag
      ensures View() == old(View()).Apply(record)
      ensures r == if old(View()).Collides(record) then Failure(TagCollision) else Success(())
    {
      if record.deviceId in byId {
        byTag := byTag - {byId[record.deviceId].deviceTag};
      }
      if record.deviceTag in byTag && byTag[record.deviceTag].deviceId != record.deviceId {
        return Failure(TagCollision);
      }
      byId := byId[record.deviceId := record];
      byTag := byTag[record.deviceTag := record];
      return Success(());
    }

    // The locked part of register_or_get, at any moment of any run: a new
    // device is in both indexes, but its record is still to be published.
    method RegisterLocked(id: Id, publicKey: string, encryptionKey: string, freshTag: Tag, now: int,
                          ghost s: State, ghost t: Thread)
      returns (r: Result<Tag, DirectoryError>, unpublished: Option<Record>)
      requires Valid() && s.live == View() && s.log == log && t !in s.waiting
      modifies this
      ensures Valid()
      ensures var next := Step(s, Register(t, id, publicKey, encryptionKey, freshTag, now));
              && View() == next.live && log == next.log
              && unpublished == (if t in next.waiting then Some(next.waiting[t]) else None)
      ensures id in s.live.byId ==> r == Success(s.live.byId[id].deviceTag)
      ensures id !in s.live.byId ==> r == if freshTag in s.live.byTag then Failure(TagCollision) else Success(freshTag)
    {
      if id in byId {
        var existing := byId[id];
        if encryptionKey != "" && existing.encryptionKey != encryptionKey {
          var record := WithEncryptionKey(existing, encryptionKey, now);
          ApplyKeepsConsistent(View(), record);
          var _ := Apply(record);
          log := log + [record];
        }
        return Success(existing.deviceTag), None;
      }
      var record := NewRecord(id, publicKey, encryptionKey, freshTag, now);
      if freshTag in byTag {
        CollisionChangesNothing(View(), record);
      } else {
        ApplyKeepsConsistent(View(), record);
      }
      var applied := Apply(record);
      if applied.Failure? {
        return Failure(TagCollision), None;
      }
      return Success(freshTag), Some(record);
    }

    // Outside the lock, whenever it comes.
    method PublishRegistration(record: Record, ghost s: State, ghost t: Thread)
      requires s.live == View() && s.log == log && t in s.waiting && s.waiting[t] == record
      modifies this`log
      ensures var next := Step(s, Publish(t)); View() == next.live && log == next.log && t !in next.waiting
    {
      log := log + [record];
    }

    method RegisterOrGet(id: Id, publicKey: string, encryptionKey: string, freshTag: Tag, now: int)
      returns (r: Result<Tag, DirectoryError>)
      requires Valid()
      modifies this
      ensures Valid()
      ensures id in old(byId) ==> r == Success(old(byId)[id].deviceTag)
      ensures id !in old(byId) ==> r == if freshTag in old(byTag) then Failure(TagCollision) else Success(freshTag)
      ensures byId == if NeedsKeyUpdate(old(View()), id, encryptionKey)
                      then old(byId)[id := old(byId)[id].(event := EncryptionKeyChanged, encryptionKey := encryptionKey,
                                                          updatedAt := now)]
                      else if id !in old(byId) && r.Success?
                      then old(byId)[id := Record(event := Registered, deviceId := id, deviceTag := freshTag,
                                                  publicKey := publicKey, encryptionKey := encryptionKey,
                                                  username := None, updatedAt := now)]
                      else old(byId)
      ensures byId == old(byId) ==> byTag == old(byTag)
      ensures log == if NeedsKeyUpdate(old(View()), id, encryptionKey) || (id !in old(byId) && r.Success?)
                     then old(log) + [byId[id]] else old(log)
    {
      ghost var s := State(View(), map[], log, map[]);
      var unpublished;
      r, unpublished := RegisterLocked(id, publicKey, encryptionKey, freshTag, now, s, 0);
      if unpublished.Some? {
        PublishRegistration(unpublished.value, Step(s, Register(0, id, publicKey, encryptionKey, freshTag, now)), 0);
      }
    }

    // `username` has its surrounding blanks stripped already.
    method UpdateUsername(tag: Tag, username: string, now: int, ghost s: State) returns (r: Result<(), DirectoryError>)
      requires Valid() && s.live == View() && s.log == log
      modifies this
      ensures Valid()
      ensures r.Success? <==> 1 <= |username| <= 64 && tag in old(byTag)
      ensures r.Failure? ==> View() == old(View()) && log == old(log)
                             && r.error == if 1 <= |username| <= 64 then UnknownTag else BadUsername
      ensures r.Success? ==>
                var record := old(byTag)[tag].(event := UsernameChanged, username := Some(username), updatedAt := now);
                && byId == old(byId)[record.deviceId := record] && byTag.Keys == old(byTag.Keys)
                && byTag[tag] == record && log == old(log) + [record]
      ensures var next := Step(s, Rename(tag, username, now)); View() == next.live && log == next.log
    {
      if !(1 <= |username| <= 64) {
        return Failure(BadUsername);
      }
      if tag !in byTag {
        return Failure(UnknownTag);
      }
      var record := WithUsername(byTag[tag], username, now);
      ApplyKeepsConsistent(View(), record);
      var _ := Apply(record);
      log := log + [record];
      return Success(());
    }
  }

  // ---------------------------------------------------------------------
  // Replaying a compacted log
  // ---------------------------------------------------------------------

  function Replay(d: Directory, records: seq<Record>): Directory
    decreases |records|
  {
    if records == [] then d else Replay(d.Apply(records[0]), records[1..])
  }

  predicate NeverCollides(d: Directory, records: seq<Record>)
    decreases |records|
  {
    records == [] || (!d.Collides(records[0]) && NeverCollides(d.Apply(records[0]), records[1..]))
  }

  // The last record of a device.
  function LastOf(log: seq<Record>, id: Id): Option<Record> {
    if log == [] then None
    else if log[|log| - 1].deviceId == id then Some(log[|log| - 1])
    else LastOf(log[..|log| - 1], id)
  }

  // Compaction keeps at least the last record of every device and adds none;
  // partitions may be read in any interleaving.
  ghost predicate Compaction(log: seq<Record>, kept: seq<Record>) {
    && (forall r :: r in kept ==> r in log)
    && (forall id :: LastOf(kept, id) == LastOf(log, id))
  }

  // The whole log is one, and any record may go that a later one of the same
  // device follows.
  lemma CompactionsExist(before: seq<Record>, r: Record, later: seq<Record>)
    requires exists q :: q in later && q.deviceId == r.deviceId
    ensures Compaction(before + [r] + later, before + [r] + later)
    ensures Compaction(before + [r] + later, before + later)
  {
    forall id ensures LastOf(before + later, id) == LastOf(before + [r] + later, id) {
      LastOfAppend(before, later, id);
      LastOfAppend(before + [r], later, id);
      LastAfter(before, r, id);
      if r.deviceId == id {
        var q :| q in later && q.deviceId == r.deviceId;
        LastExists(later, q);
      }
    }
  }

  lemma {:induction false} LastOfAppend(a: seq<Record>, b: seq<Record>, id: Id)
    ensures LastOf(a + b, id) == if LastOf(b, id).Some? then LastOf(b, id) else LastOf(a, id)
  {
    if b == [] {
      assert a + b == a;
    } else {
      assert (a + b)[..|a + b| - 1] == a + b[..|b| - 1];
      LastOfAppend(a, b[..|b| - 1], id);
    }
  }

  // One tag a device and one device a tag, throughout.
  ghost predicate StableTags(records: seq<Record>) {
    forall r, q :: r in records && q in records ==> (r.deviceId == q.deviceId <==> r.deviceTag == q.deviceTag)
  }

  // Replaying such records never collides and ends with every device's last.
  lemma {:induction false} ReplayKeepsLast(records: seq<Record>)
    requires StableTags(records)
    ensures NeverCollides(Empty, records) && Replay(Empty, records).Consistent()
    ensures forall id :: id in Replay(Empty, records).byId <==> LastOf(records, id).Some?
    ensures forall id :: id in Replay(Empty, records).byId ==> LastOf(records, id) == Some(Replay(Empty, records).byId[id])
    decreases |records|
  {
    if records != [] {
      var front, last := records[..|records| - 1], records[|records| - 1];
      assert StableTags(front);
      ReplayKeepsLast(front);
      ReplayAppend(Empty, front, last);
      assert records == front + [last];
      var d := Replay(Empty, front);
      NextKeepsTags(front, last, d);
      ApplyKeepsConsistent(d, last);
      hide Directory.Apply, Directory.Consistent, StableTags, Replay, NeverCollides;
    }
  }

  lemma NextKeepsTags(front: seq<Record>, last: Record, d: Directory)
    requires StableTags(front + [last]) && d.Consistent()
    requires forall id :: id in d.byId ==> LastOf(front, id) == Some(d.byId[id])
    ensures d.KeepsTags(last)
  {
    hide LastOf;
    assert last in front + [last];
    forall id | id in d.byId ensures d.byId[id].deviceTag == last.deviceTag <==> id == last.deviceId {
      LastIsIn(front, id);
      assert d.byId[id] in front + [last];
    }
  }

  lemma {:induction false} ReplayAppend(d: Directory, records: seq<Record>, r: Record)
    ensures Replay(d, records + [r]) == Replay(d, records).Apply(r)
    ensures NeverCollides(d, records + [r]) <==> NeverCollides(d, records) && !Replay(d, records).Collides(r)
    decreases |records|
  {
    if records == [] {
      var one: seq<Record> := [r];
      assert records + [r] == one && one[1..] == [];
    } else {
      ReplayAppend(d.Apply(records[0]), records[1..], r);
      assert (records + [r])[1..] == records[1..] + [r];
    }
  }

  lemma {:induction false} LastIsIn(log: seq<Record>, id: Id)
    requires LastOf(log, id).Some?
    ensures LastOf(log, id).value in log && LastOf(log, id).value.deviceId == id
  {
    if log[|log| - 1].deviceId != id {
      LastIsIn(log[..|log| - 1], id);
    }
  }

  // ---------------------------------------------------------------------
  // Concurrent registrations and updates
  // ---------------------------------------------------------------------

  // Where the log stands for a device: its registration not published yet;
  // the same, but an update already published; in step with memory; or behind,
  // because the late registration came last.
  datatype Standing = Waiting | Overtaken | InStep | Behind

  datatype State = State(
    live: Directory,
    waiting: map<Thread, Record>,  // registered under the lock, about to publish
    log: seq<Record>,
    standing: map<Id, Standing>)   // history

  datatype Action =
    | Register(t: Thread, id: Id, publicKey: string, encryptionKey: string, freshTag: Tag, now: int)
    | Publish(t: Thread)
    | Rename(tag: Tag, username: string, now: int)

  function StandingOf(s: State, id: Id): Standing {
    if id in s.standing then s.standing[id] else InStep
  }

  // An update is applied and published in one locked region.
  function Update(s: State, r: Record): State {
    var now := match StandingOf(s, r.deviceId)
               case Waiting | Overtaken => Overtaken
               case InStep | Behind => InStep;
    State(s.live.Apply(r), s.waiting, s.log + [r], s.standing[r.deviceId := now])
  }

  function Step(s: State, a: Action): State {
    match a
    case Register(t, id, publicKey, encryptionKey, freshTag, now) =>
      if t in s.waiting then s
      else if NeedsKeyUpdate(s.live, id, encryptionKey) then
        Update(s, WithEncryptionKey(s.live.byId[id], encryptionKey, now))
      else if id in s.live.byId then s
      else
        var r := NewRecord(id, publicKey, encryptionKey, freshTag, now);
        if s.live.Collides(r) then s.(live := s.live.Apply(r))
        else State(s.live.Apply(r), s.waiting[t := r], s.log, s.standing[id := Waiting])
    case Publish(t) =>
      if t in s.waiting then
        var r := s.waiting[t];
        var now := if StandingOf(s, r.deviceId) == Waiting then InStep else Behind;
        State(s.live, s.waiting - {t}, s.log + [r], s.standing[r.deviceId := now])
      else s
    case Rename(tag, username, now) =>
      if 1 <= |username| <= 64 && tag in s.live.byTag
      then Update(s, WithUsername(s.live.byTag[tag], username, now))
      else s
  }

  function Run(s: State, actions: seq<Action>): State
    decreases |actions|
  {
    if actions == [] then s else Run(Step(s, actions[0]), actions[1..])
  }

  const Start: State := State(Empty, map[], [], map[])

  ghost predicate Inv(s: State) {
    && s.live.Consistent() && s.standing.Keys == s.live.byId.Keys
    && (forall r :: r in s.log ==> SameTag(s, r))
    && WaitingInv(s)
    && (forall id :: id in s.standing ==> LogStands(s, id))
  }

  // At most one thread still has to publish a device, and its registration.
  ghost predicate WaitingInv(s: State) {
    && (forall t :: t in s.waiting ==> Pending(s, s.waiting[t]))
    && (forall t, u :: t in s.waiting && u in s.waiting && s.waiting[t].deviceId == s.waiting[u].deviceId ==> t == u)
  }

  ghost predicate Pending(s: State, r: Record) {
    && SameTag(s, r) && r.event == Registered
    && (StandingOf(s, r.deviceId) == Waiting || StandingOf(s, r.deviceId) == Overtaken)
    && (StandingOf(s, r.deviceId) == Waiting ==> r == s.live.byId[r.deviceId])
  }

  ghost predicate SameTag(s: State, r: Record) {
    r.deviceId in s.live.byId && s.live.byId[r.deviceId].deviceTag == r.deviceTag
  }

  ghost predicate LogStands(s: State, id: Id)
    requires id in s.standing && id in s.live.byId
  {
    match s.standing[id]
    case Waiting => LastOf(s.log, id) == None
    case Overtaken => LastOf(s.log, id) == Some(s.live.byId[id]) && s.live.byId[id].event != Registered
    case InStep => LastOf(s.log, id) == Some(s.live.byId[id])
    case Behind =>
      && LastOf(s.log, id).Some? && LastOf(s.log, id).value.event == Registered
      && s.live.byId[id].event != Registered
  }

  lemma UpdateKeepsInv(s: State, r: Record)
    requires Inv(s) && r.event != Registered && SameTag(s, r)
    ensures Inv(Update(s, r))
  {
    hide LastOf, WaitingInv, Directory.Consistent, Directory.Apply;
    ApplyKeepsConsistent(s.live, r);
    var s' := Update(s, r);
    UpdateKeepsWaiting(s, r);
    assert s'.live.byId == s.live.byId[r.deviceId := r];
    forall q | q in s'.log ensures SameTag(s', q) {
      assert q != r ==> SameTag(s, q);
    }
    forall id | id in s'.standing ensures LogStands(s', id) {
      LastAfter(s.log, r, id);
      assert LogStands(s, id);
    }
  }

  lemma UpdateKeepsWaiting(s: State, r: Record)
    requires Inv(s) && r.event != Registered && SameTag(s, r)
    ensures WaitingInv(Update(s, r))
  {
    hide LastOf;
    ApplyKeepsConsistent(s.live, r);
    var s' := Update(s, r);
    forall t | t in s'.waiting ensures Pending(s', s'.waiting[t]) {
      assert Pending(s, s.waiting[t]);
    }
  }

  lemma PublishKeepsInv(s: State, t: Thread)
    requires Inv(s) && t in s.waiting
    ensures Inv(Step(s, Publish(t)))
  {
    hide LastOf, Directory.Consistent;
    var s' := Step(s, Publish(t));
    var r := s.waiting[t];
    assert Pending(s, r);
    forall u | u in s'.waiting ensures Pending(s', s'.waiting[u]) {
      assert Pending(s, s.waiting[u]);
    }
    forall q | q in s'.log ensures SameTag(s', q) {
      assert q != r ==> SameTag(s, q);
    }
    forall id | id in s'.standing ensures LogStands(s', id) {
      LastAfter(s.log, r, id);
      assert LogStands(s, id);
    }
  }

  lemma LastAfter(log: seq<Record>, r: Record, id: Id)
    ensures LastOf(log + [r], id) == if r.deviceId == id then Some(r) else LastOf(log, id)
  {
    assert (log + [r])[..|log|] == log;
  }

  lemma StepKeepsInv(s: State, a: Action)
    requires Inv(s)
    ensures Inv(Step(s, a))
  {
    hide LastOf, WaitingInv, LogStands;
    match a
    case Register(t, id, publicKey, encryptionKey, freshTag, now) =>
      if t !in s.waiting {
        if NeedsKeyUpdate(s.live, id, encryptionKey) {
          UpdateKeepsInv(s, WithEncryptionKey(s.live.byId[id], encryptionKey, now));
        } else if id !in s.live.byId {
          RegisterKeepsInv(s, a);
        }
      }
    case Publish(t) =>
      if t in s.waiting {
        PublishKeepsInv(s, t);
      }
    case Rename(tag, username, now) =>
      if 1 <= |username| <= 64 && tag in s.live.byTag {
        UpdateKeepsInv(s, WithUsername(s.live.byTag[tag], username, now));
      }
  }

  lemma RegisterKeepsInv(s: State, a: Action)
    requires Inv(s) && a.Register? && a.t !in s.waiting && a.id !in s.live.byId
    ensures Inv(Step(s, a))
  {
    var r := NewRecord(a.id, a.publicKey, a.encryptionKey, a.freshTag, a.now);
    if a.freshTag in s.live.byTag {
      CollisionChangesNothing(s.live, r);
    } else {
      NewDeviceKeepsWaiting(s, a.t, r);
      NewDeviceKeepsLog(s, a.t, r);
      ApplyKeepsConsistent(s.live, r);
      hide WaitingInv, LogStands, Directory.Consistent, Directory.Collides, LastOf, SameTag;
      assert Step(s, a) == Joined(s, a.t, r);
    }
  }

  // A new device is in the directory and its registration not published.
  function Joined(s: State, t: Thread, r: Record): State {
    State(s.live.Apply(r), s.waiting[t := r], s.log, s.standing[r.deviceId := Waiting])
  }

  lemma NewDeviceKeepsWaiting(s: State, t: Thread, r: Record)
    requires Inv(s) && t !in s.waiting && r.event == Registered
    requires r.deviceId !in s.live.byId && r.deviceTag !in s.live.byTag
    ensures WaitingInv(Joined(s, t, r))
  {
    ApplyKeepsConsistent(s.live, r);
    hide LastOf, Directory.Apply, Directory.Consistent, Directory.Collides;
    var s' := Joined(s, t, r);
    forall u | u in s'.waiting ensures Pending(s', s'.waiting[u]) {
      assert u != t ==> Pending(s, s.waiting[u]);
    }
  }

  lemma NewDeviceKeepsLog(s: State, t: Thread, r: Record)
    requires Inv(s) && r.deviceId !in s.live.byId && r.deviceTag !in s.live.byTag
    ensures var s' := Joined(s, t, r);
            && s'.standing.Keys == s'.live.byId.Keys
            && (forall q :: q in s'.log ==> SameTag(s', q))
            && (forall id :: id in s'.standing ==> LogStands(s', id))
  {
    ApplyKeepsConsistent(s.live, r);
    hide LastOf, Directory.Apply, Directory.Consistent, Directory.Collides, WaitingInv;
    if LastOf(s.log, r.deviceId).Some? {
      LastIsIn(s.log, r.deviceId);
    }
    var s' := Joined(s, t, r);
    forall q | q in s'.log ensures SameTag(s', q) {
      assert SameTag(s, q);
    }
    forall id | id in s'.standing ensures LogStands(s', id) {
      assert id != r.deviceId ==> LogStands(s, id);
    }
  }

  lemma {:induction false} RunKeepsInv(s: State, actions: seq<Action>)
    requires Inv(s)
    ensures Inv(Run(s, actions))
    decreases |actions|
  {
    if actions != [] {
      StepKeepsInv(s, actions[0]);
      RunKeepsInv(Step(s, actions[0]), actions[1..]);
    }
  }

  // Whatever happens later, a registered device keeps its tag.
  lemma {:induction false} TagsAreStable(s: State, actions: seq<Action>, id: Id)
    requires Inv(s) && id in s.live.byId
    ensures id in Run(s, actions).live.byId
    ensures Run(s, actions).live.byId[id].deviceTag == s.live.byId[id].deviceTag
    decreases |actions|
  {
    if actions != [] {
      StepKeepsInv(s, actions[0]);
      StepKeepsTag(s, actions[0], id);
      TagsAreStable(Step(s, actions[0]), actions[1..], id);
    }
  }

  lemma StepKeepsTag(s: State, a: Action, id: Id)
    requires Inv(s) && id in s.live.byId
    ensures id in Step(s, a).live.byId && Step(s, a).live.byId[id].deviceTag == s.live.byId[id].deviceTag
  {
    hide LogStands, WaitingInv;
  }

  // ---------------------------------------------------------------------
  // One life of the service after another
  // ---------------------------------------------------------------------

  // What was done from one start to the next, and what compaction then left of
  // the log.  A registration not published by then is gone with its thread.
  datatype Life = Life(actions: seq<Action>, kept: seq<Record>)

  function Restarted(kept: seq<Record>): State {
    var d := Replay(Empty, kept);
    State(d, map[], kept, map id | id in d.byId :: InStep)
  }

  function AfterLives(lives: seq<Life>): State {
    if lives == [] then Start else Restarted(lives[|lives| - 1].kept)
  }

  ghost predicate ValidLives(lives: seq<Life>) {
    lives == [] ||
    var before, last := lives[..|lives| - 1], lives[|lives| - 1];
    ValidLives(before) && Compaction(Run(AfterLives(before), last.actions).log, last.kept)
  }

  // Any history goes on with any run and any compaction of its log.
  lemma LivesGoOn(lives: seq<Life>, next: Life)
    ensures ValidLives([])
    ensures ValidLives(lives) && Compaction(Run(AfterLives(lives), next.actions).log, next.kept) ==> ValidLives(lives + [next])
  {
    hide Run, Compaction, AfterLives;
    assert (lives + [next])[..|lives|] == lives;
  }

  lemma RestartKeepsInv(s: State, kept: seq<Record>)
    requires Inv(s) && Compaction(s.log, kept)
    ensures Inv(Restarted(kept))
  {
    KeptTagsAreStable(s, kept);
    ReplayKeepsLast(kept);
    hide LastOf, Replay, Directory.Consistent, NeverCollides, StableTags;
    var next := Restarted(kept);
    forall r | r in next.log ensures SameTag(next, r) {
      LastExists(kept, r);
      LastIsIn(kept, r.deviceId);
      assert SameTag(s, r) && SameTag(s, LastOf(kept, r.deviceId).value);
    }
    forall id | id in next.standing ensures LogStands(next, id) {
      assert LastOf(kept, id) == Some(next.live.byId[id]);
    }
  }

  lemma KeptTagsAreStable(s: State, kept: seq<Record>)
    requires Inv(s) && Compaction(s.log, kept)
    ensures StableTags(kept)
  {
    hide LastOf, WaitingInv, LogStands;
    forall r, q | r in kept && q in kept ensures r.deviceId == q.deviceId <==> r.deviceTag == q.deviceTag {
      assert SameTag(s, r) && SameTag(s, q);
    }
  }

  lemma {:induction false} LastExists(log: seq<Record>, r: Record)
    requires r in log
    ensures LastOf(log, r.deviceId).Some?
  {
    if log[|log| - 1].deviceId != r.deviceId {
      LastExists(log[..|log| - 1], r);
    }
  }

  lemma {:induction false} LivesKeepInv(lives: seq<Life>)
    requires ValidLives(lives)
    ensures Inv(AfterLives(lives))
  {
    if lives != [] {
      hide Inv, Compaction, Restarted, Run;
      var before, last := lives[..|lives| - 1], lives[|lives| - 1];
      LivesKeepInv(before);
      RunKeepsInv(AfterLives(before), last.actions);
      RestartKeepsInv(Run(AfterLives(before), last.actions), last.kept);
    } else {
      StartIsFine();
    }
  }

  lemma StartIsFine()
    ensures Inv(Start)
  {
  }

  // ---------------------------------------------------------------------
  // What the log says about a device
  // ---------------------------------------------------------------------

  function OfDevice(log: seq<Record>, id: Id): seq<Record> {
    if log == [] then [] else
      OfDevice(log[..|log| - 1], id) + (if log[|log| - 1].deviceId == id then [log[|log| - 1]] else [])
  }

  // The device's registration came after an update of it.
  predicate LatePublished(news: seq<Record>, id: Id) {
    var rs := OfDevice(news, id);
    |rs| >= 2 && rs[|rs| - 1].event == Registered
  }

  lemma OfDeviceMore(log: seq<Record>, r: Record, id: Id)
    ensures OfDevice(log + [r], id) == OfDevice(log, id) + (if r.deviceId == id then [r] else [])
  {
    assert (log + [r])[..|log|] == log;
  }

  lemma {:induction false} NoneOfDevice(log: seq<Record>, id: Id)
    requires forall r :: r in log ==> r.deviceId != id
    ensures OfDevice(log, id) == []
  {
    if log != [] {
      NoneOfDevice(log[..|log| - 1], id);
    }
  }

  // How a device stands, read off the records of this life, the news.
  predicate Tells(news: seq<Record>, id: Id, standing: Standing) {
    match standing
    case Waiting => OfDevice(news, id) == []
    case Overtaken => OfDevice(news, id) != [] && !LatePublished(news, id)
    case InStep => !LatePublished(news, id)
    case Behind => LatePublished(news, id)
  }

  ghost predicate NewsInv(s: State, base: nat) {
    base <= |s.log| && forall id :: id in s.standing ==> Tells(s.log[base..], id, s.standing[id])
  }

  lemma NewsAfterRecord(s: State, base: nat, r: Record)
    requires NewsInv(s, base)
    ensures (s.log + [r])[base..] == s.log[base..] + [r]
    ensures forall id :: id in s.standing && id != r.deviceId ==> Tells((s.log + [r])[base..], id, s.standing[id])
  {
    hide OfDevice;
    var news := s.log[base..];
    assert (s.log + [r])[base..] == news + [r];
    forall id | id in s.standing && id != r.deviceId ensures Tells(news + [r], id, s.standing[id]) {
      OfDeviceMore(news, r, id);
      assert Tells(news, id, s.standing[id]);
    }
  }

  lemma UpdateKeepsNews(s: State, base: nat, r: Record)
    requires Inv(s) && NewsInv(s, base) && r.event != Registered && SameTag(s, r)
    ensures NewsInv(Update(s, r), base)
  {
    hide OfDevice, LastOf, Directory.Apply, Directory.Consistent, WaitingInv, LogStands;
    NewsAfterRecord(s, base, r);
    OfDeviceMore(s.log[base..], r, r.deviceId);
  }

  lemma PublishKeepsNews(s: State, base: nat, t: Thread)
    requires Inv(s) && NewsInv(s, base) && t in s.waiting
    ensures NewsInv(Step(s, Publish(t)), base)
  {
    hide OfDevice, LastOf, Directory.Consistent, LogStands;
    var r := s.waiting[t];
    assert Pending(s, r);
    NewsAfterRecord(s, base, r);
    OfDeviceMore(s.log[base..], r, r.deviceId);
    assert Tells(s.log[base..], r.deviceId, s.standing[r.deviceId]);
  }

  lemma RegisterKeepsNews(s: State, base: nat, t: Thread, r: Record)
    requires Inv(s) && NewsInv(s, base) && r.deviceId !in s.live.byId
    ensures NewsInv(Joined(s, t, r), base)
  {
    hide OfDevice, LastOf, Directory.Apply, Directory.Consistent, WaitingInv, LogStands;
    var news := s.log[base..];
    forall q | q in news ensures q.deviceId != r.deviceId {
      assert SameTag(s, q);
    }
    NoneOfDevice(news, r.deviceId);
  }

  lemma StepKeepsNews(s: State, base: nat, a: Action)
    requires Inv(s) && NewsInv(s, base)
    ensures NewsInv(Step(s, a), base)
  {
    hide Tells, LogStands, WaitingInv;
    match a
    case Register(t, id, publicKey, encryptionKey, freshTag, now) =>
      if t !in s.waiting {
        if NeedsKeyUpdate(s.live, id, encryptionKey) {
          UpdateKeepsNews(s, base, WithEncryptionKey(s.live.byId[id], encryptionKey, now));
        } else if id !in s.live.byId {
          RegisterKeepsNews(s, base, t, NewRecord(id, publicKey, encryptionKey, freshTag, now));
        }
      }
    case Publish(t) =>
      if t in s.waiting {
        PublishKeepsNews(s, base, t);
      }
    case Rename(tag, username, now) =>
      if 1 <= |username| <= 64 && tag in s.live.byTag {
        UpdateKeepsNews(s, base, WithUsername(s.live.byTag[tag], username, now));
      }
  }

  lemma {:induction false} RunKeepsNews(s: State, base: nat, actions: seq<Action>)
    requires Inv(s) && NewsInv(s, base)
    ensures NewsInv(Run(s, actions), base)
    decreases |actions|
  {
    if actions != [] {
      hide Inv, NewsInv, Step;
      StepKeepsInv(s, actions[0]);
      StepKeepsNews(s, base, actions[0]);
      RunKeepsNews(Step(s, actions[0]), base, actions[1..]);
    }
  }

  lemma NoNewsYet(lives: seq<Life>)
    ensures NewsInv(AfterLives(lives), |AfterLives(lives).log|)
  {
    var s := AfterLives(lives);
    assert s.log[|s.log|..] == [];
  }

  // In every run of every life, a device is found under its tag exactly when
  // the tag is found under the device.
  lemma IndexesAgree(lives: seq<Life>, actions: seq<Action>, id: Id, tag: Tag)
    requires ValidLives(lives)
    ensures var d := Run(AfterLives(lives), actions).live;
            id in d.byId && d.byId[id].deviceTag == tag <==> tag in d.byTag && d.byTag[tag].deviceId == id
  {
    hide AfterLives, Run, WaitingInv, LogStands;
    LivesKeepInv(lives);
    RunKeepsInv(AfterLives(lives), actions);
  }

  // In every run, however often the service was restarted from a compacted log
  // before, the next restart from any compaction finds no collision and the
  // live tag of every device with a record in the log.  The whole record comes
  // back exactly for the devices whose registration did not reach the log
  // after an update of theirs.
  lemma RecoveryInEveryRun(lives: seq<Life>, actions: seq<Action>, kept: seq<Record>)
    requires ValidLives(lives) && Compaction(Run(AfterLives(lives), actions).log, kept)
    ensures var s := Run(AfterLives(lives), actions);
            var d := Replay(Empty, kept);
            && NeverCollides(Empty, kept) && d.Consistent()
            && (forall id :: id in d.byId <==> id in s.live.byId && LastOf(s.log, id).Some?)
            && (forall id :: id in d.byId ==> SameTag(s, d.byId[id]))
            && |AfterLives(lives).log| <= |s.log|
            && (forall id :: id in d.byId ==>
                  (d.byId[id] == s.live.byId[id] <==> !LatePublished(s.log[|AfterLives(lives).log|..], id)))
  {
    var start := AfterLives(lives);
    LivesKeepInv(lives);
    NoNewsYet(lives);
    hide AfterLives, Run;
    RunKeepsInv(start, actions);
    RunKeepsNews(start, |start.log|, actions);
    RecoveredRecords(Run(start, actions), |start.log|, kept);
  }

  lemma RecoveredRecords(s: State, base: nat, kept: seq<Record>)
    requires Inv(s) && NewsInv(s, base) && Compaction(s.log, kept)
    ensures var d := Replay(Empty, kept);
            && NeverCollides(Empty, kept) && d.Consistent()
            && (forall id :: id in d.byId <==> id in s.live.byId && LastOf(s.log, id).Some?)
            && (forall id :: id in d.byId ==> SameTag(s, d.byId[id]))
            && (forall id :: id in d.byId ==> (d.byId[id] == s.live.byId[id] <==> !LatePublished(s.log[base..], id)))
  {
    KeptTagsAreStable(s, kept);
    ReplayKeepsLast(kept);
    hide LastOf, Replay, Directory.Consistent, NeverCollides, StableTags, WaitingInv, OfDevice, LogStands, NewsInv;
    var d := Replay(Empty, kept);
    forall id | id in d.byId ensures SameTag(s, d.byId[id]) {
      LastIsIn(kept, id);
    }
    forall id | id in d.byId ensures d.byId[id] == s.live.byId[id] <==> !LatePublished(s.log[base..], id) {
      assert SameTag(s, d.byId[id]);
      LastUnlessLate(s, base, id);
    }
  }

  lemma LastUnlessLate(s: State, base: nat, id: Id)
    requires Inv(s) && NewsInv(s, base) && id in s.live.byId && LastOf(s.log, id).Some?
    ensures LastOf(s.log, id) == Some(s.live.byId[id]) <==> !LatePublished(s.log[base..], id)
  {
    hide LastOf, Directory.Consistent, WaitingInv, OfDevice, LatePublished;
    assert LogStands(s, id) && Tells(s.log[base..], id, s.standing[id]);
  }

  // The late publish does happen: a device registers, is renamed before its
  // registration reaches the log, and loses the name at the next start.
  lemma LatePublishLosesUpdate()
    ensures var s := Run(Start, [Register(0, "id", "pk", "", "dev-a", 0), Rename("dev-a", "ann", 1), Publish(0)]);
            && "id" in s.live.byId && s.live.byId["id"].username == Some("ann")
            && "id" in Replay(Empty, s.log).byId && Replay(Empty, s.log).byId["id"].username == None
  {
    var actions := [Register(0, "id", "pk", "", "dev-a", 0), Rename("dev-a", "ann", 1), Publish(0)];
    var s1 := Step(Start, actions[0]);
    var s2 := Step(s1, actions[1]);
    var s3 := Step(s2, actions[2]);
    assert actions[1..] == [actions[1], actions[2]] && actions[1..][1..] == [actions[2]] && actions[1..][1..][1..] == [];
    assert Run(Start, actions) == s3;
    ReplayKeepsLast(s3.log);
  }
}
