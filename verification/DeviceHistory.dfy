/** What the live directory knows of a device, told by what was done: who
    registered it first, with which keys since, and who named it last. */
module DeviceHistory {
  import opened Results
  import opened DeviceDirectory

  // ---------------------------------------------------------------------
  // One step
  // ---------------------------------------------------------------------

  // A registration that goes through: its thread is free, and its random tag
  // is not taken if the device is new.
  predicate Served(s: State, a: Action) {
    a.Register? && a.t !in s.waiting && (a.id in s.live.byId || a.freshTag !in s.live.byTag)
  }

  // A change of name that goes through.
  predicate Renames(s: State, a: Action, id: Id) {
    a.Rename? && 1 <= |a.username| <= 64 && id in s.live.byId && s.live.byId[id].deviceTag == a.tag
  }

  // A registration fixes the public key and the tag of a new device, sets the
  // encryption key if it brings one, and touches nothing else.
  lemma RegisterLaw(s: State, a: Action)
    requires Inv(s) && Served(s, a)
    ensures var after := Step(s, a).live.byId;
            && after.Keys == s.live.byId.Keys + {a.id}
            && (forall id :: id in s.live.byId && id != a.id ==> after[id] == s.live.byId[id])
            && (a.id !in s.live.byId ==>
                  after[a.id] == Record(event := Registered, deviceId := a.id, deviceTag := a.freshTag, publicKey := a.publicKey,
                                        encryptionKey := a.encryptionKey, username := None, updatedAt := a.now))
            && (a.id in s.live.byId ==>
                  var before := s.live.byId[a.id];
                  after[a.id] == if a.encryptionKey != "" && a.encryptionKey != before.encryptionKey
                                 then before.(event := EncryptionKeyChanged, encryptionKey := a.encryptionKey, updatedAt := a.now)
                                 else before)
  {
    hide LogStands, WaitingInv, Directory.Apply, Directory.Consistent, Directory.Collides;
    if NeedsKeyUpdate(s.live, a.id, a.encryptionKey) {
      DeviceKeepsId(s, a.id);
      ApplyKeepsConsistent(s.live, WithEncryptionKey(s.live.byId[a.id], a.encryptionKey, a.now));
    } else if a.id !in s.live.byId {
      ApplyKeepsConsistent(s.live, NewRecord(a.id, a.publicKey, a.encryptionKey, a.freshTag, a.now));
    }
  }

  lemma DeviceKeepsId(s: State, id: Id)
    requires Inv(s) && id in s.live.byId
    ensures s.live.byId[id].deviceId == id
  {
    hide LogStands, WaitingInv;
  }

  lemma RenameLaw(s: State, a: Action, id: Id)
    requires Inv(s) && Renames(s, a, id)
    ensures Step(s, a).live.byId
         == s.live.byId[id := s.live.byId[id].(event := UsernameChanged, username := Some(a.username), updatedAt := a.now)]
  {
    hide LogStands, WaitingInv;
  }

  // Nothing else changes a device.
  lemma OtherwiseUnchanged(s: State, a: Action)
    requires Inv(s) && !Served(s, a) && forall id :: !Renames(s, a, id)
    ensures Step(s, a).live.byId == s.live.byId
  {
    hide LogStands, WaitingInv;
    if a.Rename? && a.tag in s.live.byTag {
      assert !Renames(s, a, s.live.byTag[a.tag].deviceId);
    }
  }

  // ---------------------------------------------------------------------
  // A whole run
  // ---------------------------------------------------------------------

  // What one registration of a device brought.
  datatype Given = Given(publicKey: string, encryptionKey: string, tag: Tag)

  // The registrations of a device that went through, and the names it was
  // given, in order.
  function Registrations(actions: seq<Action>, id: Id): seq<Given> {
    if actions == [] then [] else
      var front, last := actions[..|actions| - 1], actions[|actions| - 1];
      Registrations(front, id) + NewRegistration(Run(Start, front), last, id)
  }

  function NewRegistration(s: State, a: Action, id: Id): seq<Given> {
    if a.Register? && a.id == id && Served(s, a) then [Given(a.publicKey, a.encryptionKey, a.freshTag)] else []
  }

  function Names(actions: seq<Action>, id: Id): seq<string> {
    if actions == [] then [] else
      var front, last := actions[..|actions| - 1], actions[|actions| - 1];
      Names(front, id) + NewName(Run(Start, front), last, id)
  }

  function NewName(s: State, a: Action, id: Id): seq<string> {
    if Renames(s, a, id) then [a.username] else []
  }

  // The last key that was not empty.
  function LastKey(registrations: seq<Given>): string {
    if registrations == [] then "" else
      var last := registrations[|registrations| - 1];
      if last.encryptionKey != "" then last.encryptionKey else LastKey(registrations[..|registrations| - 1])
  }

  predicate ToldBy(r: Option<Record>, id: Id, registrations: seq<Given>, names: seq<string>) {
    match r
    case None => registrations == [] && names == []
    case Some(r) =>
      && registrations != [] && r.deviceId == id
      && r.publicKey == registrations[0].publicKey && r.deviceTag == registrations[0].tag
      && r.encryptionKey == LastKey(registrations)
      && r.username == if names == [] then None else Some(names[|names| - 1])
  }

  function Lookup(s: State, id: Id): Option<Record> {
    if id in s.live.byId then Some(s.live.byId[id]) else None
  }

  lemma {:induction false} RunOneMore(s: State, actions: seq<Action>, a: Action)
    ensures Run(s, actions + [a]) == Step(Run(s, actions), a)
    decreases |actions|
  {
    hide Step;
    if actions == [] {
      var one: seq<Action> := [a];
      assert actions + [a] == one && one[1..] == [];
    } else {
      RunOneMore(Step(s, actions[0]), actions[1..], a);
      assert (actions + [a])[1..] == actions[1..] + [a];
    }
  }

  // One step seen from one device.
  lemma StepOfDevice(s: State, a: Action, id: Id)
    requires Inv(s)
    ensures var before, after := Lookup(s, id), Lookup(Step(s, a), id);
            && (if a.Register? && a.id == id && Served(s, a) then
                  && after.Some? && after.value.deviceId == id
                  && (before.None? ==>
                        after.value.publicKey == a.publicKey && after.value.deviceTag == a.freshTag
                        && after.value.username == None && after.value.encryptionKey == a.encryptionKey)
                  && (before.Some? ==>
                        after.value.publicKey == before.value.publicKey && after.value.deviceTag == before.value.deviceTag
                        && after.value.username == before.value.username
                        && after.value.encryptionKey == if a.encryptionKey != "" then a.encryptionKey else before.value.encryptionKey)
                else if Renames(s, a, id) then
                  before.Some? && after == Some(before.value.(event := UsernameChanged, username := Some(a.username), updatedAt := a.now))
                else after == before)
  {
    assert s.live.Consistent();
    hide Step, LogStands, WaitingInv;
    if Served(s, a) {
      RegisterLaw(s, a);
    } else if other :| Renames(s, a, other) {
      RenameLaw(s, a, other);
      if Renames(s, a, id) {
        assert s.live.byTag[a.tag] == s.live.byId[id];
      }
    } else {
      OtherwiseUnchanged(s, a);
    }
  }

  lemma ToldAfterStep(s: State, a: Action, id: Id, registrations: seq<Given>, names: seq<string>)
    requires Inv(s) && ToldBy(Lookup(s, id), id, registrations, names)
    ensures ToldBy(Lookup(Step(s, a), id), id, registrations + NewRegistration(s, a, id), names + NewName(s, a, id))
  {
    StepOfDevice(s, a, id);
    hide Step, Inv, Lookup, Served, Renames;
    if NewRegistration(s, a, id) != [] {
      NoName(s, a, id);
      assert names + NewName(s, a, id) == names;
      ToldAfterRegistration(Lookup(s, id), Lookup(Step(s, a), id).value, id, registrations, names,
                            Given(a.publicKey, a.encryptionKey, a.freshTag));
    } else {
      assert registrations + NewRegistration(s, a, id) == registrations;
      if NewName(s, a, id) == [] {
        assert names + NewName(s, a, id) == names;
      } else {
        assert (names + [a.username])[|names|] == a.username;
      }
    }
  }

  lemma NoName(s: State, a: Action, id: Id)
    requires NewRegistration(s, a, id) != []
    ensures NewName(s, a, id) == []
  {
  }

  lemma ToldAfterRegistration(before: Option<Record>, after: Record, id: Id, registrations: seq<Given>, names: seq<string>, g: Given)
    requires ToldBy(before, id, registrations, names) && after.deviceId == id
    requires before.None? ==>
               after.publicKey == g.publicKey && after.deviceTag == g.tag && after.username == None && after.encryptionKey == g.encryptionKey
    requires before.Some? ==>
               && after.publicKey == before.value.publicKey && after.deviceTag == before.value.deviceTag
               && after.username == before.value.username
               && after.encryptionKey == if g.encryptionKey != "" then g.encryptionKey else before.value.encryptionKey
    ensures ToldBy(Some(after), id, registrations + [g], names)
  {
    var all := registrations + [g];
    assert all[..|registrations|] == registrations && all[|registrations|] == g;
    assert all[0] == if registrations == [] then g else registrations[0];
  }

  // In every run a device is in the directory once it has been registered,
  // with the public key and the tag of its first registration, the last
  // encryption key that any registration brought, and the last name it was
  // given.
  lemma {:induction false} HistoryOfDevice(actions: seq<Action>, id: Id)
    ensures ToldBy(Lookup(Run(Start, actions), id), id, Registrations(actions, id), Names(actions, id))
  {
    if actions != [] {
      var front, last := actions[..|actions| - 1], actions[|actions| - 1];
      assert actions == front + [last];
      HistoryOfDevice(front, id);
      StartIsFine();
      RunKeepsInv(Start, front);
      RunOneMore(Start, front, last);
      hide Run, Step, Inv, ToldBy, NewRegistration, NewName, Lookup;
      ToldAfterStep(Run(Start, front), last, id, Registrations(front, id), Names(front, id));
    }
  }
}
