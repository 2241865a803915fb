/** The group keys of chat_agent.py: sealed to every member, installed under an
    epoch guard, and kept in one file per group. */
module GroupState {
  import opened Bytes
  import opened Results
  import opened Handshake
  import opened Texts

  type Tag = string
  type GroupId = string

  const EPOCH_LABEL: string := "vpn1 group epoch v1"
  const GENERAL: GroupId := "general"

  datatype Sealed = Sealed(ephemeral: Bytes, nonce: Bytes, ciphertext: Bytes)

  // What create_group_state publishes; the group id may be missing.
  datatype Announcement = Announcement(
    kind: string, groupId: Option<GroupId>, epoch: int, members: seq<Tag>, envelopes: map<Tag, Sealed>)
  {
    function Group(): GroupId {
      if groupId.Some? then groupId.value else GENERAL
    }
  }

  // What a member keeps: the announcement without its envelopes, and the key.
  datatype Stored = Stored(groupId: Option<GroupId>, epoch: int, members: seq<Tag>, key: Bytes) {
    function Group(): GroupId {
      if groupId.Some? then groupId.value else GENERAL
    }
  }

  datatype GroupError = NoMembers | BadMemberKey | NotAMember | BadGroupKey | StaleEpoch | NotInitialized | EpochUnavailable | BadCiphertext

  // ---------------------------------------------------------------------
  // Sealing to a member
  // ---------------------------------------------------------------------

  function WrapKey(c: Crypto, shared: Bytes, text: string, ephemeral: Bytes, recipient: Bytes): Bytes {
    c.hkdf(shared, [], Ascii(text) + ephemeral + recipient, 32)
  }

  function SealTo(c: Crypto, ephemeral: Bytes, nonce: Bytes, recipient: Bytes, plaintext: Bytes, text: string): Sealed {
    var key := WrapKey(c, c.xShared(ephemeral, recipient), text, c.xPublic(ephemeral), recipient);
    Sealed(c.xPublic(ephemeral), nonce, c.aead(ChaCha20Poly1305).seal(key, nonce, plaintext, Ascii(text)))
  }

  function OpenWith(c: Crypto, private: Bytes, e: Sealed, text: string): Option<Bytes> {
    var key := WrapKey(c, c.xShared(private, e.ephemeral), text, e.ephemeral, c.xPublic(private));
    c.aead(ChaCha20Poly1305).open(key, e.nonce, e.ciphertext, Ascii(text))
  }

  // What is sealed to a public key opens with its private key, under a key
  // derived from the shared secret for this purpose and these two public keys.
  lemma SealedOpens(c: Crypto, ephemeral: Bytes, nonce: Bytes, private: Bytes, plaintext: Bytes, text: string)
    requires c.Lawful()
    ensures OpenWith(c, private, SealTo(c, ephemeral, nonce, c.xPublic(private), plaintext, text), text) == Some(plaintext)
    ensures var e := SealTo(c, ephemeral, nonce, c.xPublic(private), plaintext, text);
            && e.ephemeral == c.xPublic(ephemeral) && e.nonce == nonce
            && var key := c.hkdf(c.xShared(private, e.ephemeral), [], Ascii(text) + e.ephemeral + c.xPublic(private), 32);
               c.aead(ChaCha20Poly1305).open(key, nonce, e.ciphertext, Ascii(text)) == Some(plaintext)
  {
    hide Ascii;
    assert c.DhLaw(ephemeral, private) && c.CipherLaw(ChaCha20Poly1305);
    var e := SealTo(c, ephemeral, nonce, c.xPublic(private), plaintext, text);
    var key := WrapKey(c, c.xShared(private, e.ephemeral), text, e.ephemeral, c.xPublic(private));
    assert c.aead(ChaCha20Poly1305).Law(key, nonce, plaintext, e.ciphertext, Ascii(text));
  }

  // ---------------------------------------------------------------------
  // One member's agent
  // ---------------------------------------------------------------------

  // The crypto library, the member's tag and its X25519 key.
  datatype Member = Member(c: Crypto, tag: Tag, private: Bytes) {

    function Unwrap(a: Announcement): Result<Stored, GroupError> {
      if a.kind != "tree-group-state-v1" || tag !in a.envelopes then Failure(NotAMember)
      else match OpenWith(c, private, a.envelopes[tag], EPOCH_LABEL)
        case None => Failure(BadGroupKey)
        case Some(key) => if |key| != 32 then Failure(BadGroupKey) else Success(Stored(a.groupId, a.epoch, a.members, key))
    }

    predicate Accepts(a: Announcement) {
      Unwrap(a).Success?
    }

    // install_group_state; a refused announcement changes nothing.
    function Install(s: Agent, a: Announcement): Agent {
      match Unwrap(a)
      case Failure(_) => s
      case Success(stored) =>
        if a.Group() in s.states && a.epoch < s.states[a.Group()].epoch then s
        else Agent(s.states[a.Group() := stored], s.disk[StatePath(a.Group()) := stored])
    }

    function Run(announcements: seq<Announcement>): Agent {
      if announcements == [] then Agent(map[], map[])
      else Install(Run(announcements[..|announcements| - 1]), announcements[|announcements| - 1])
    }

    // -----------------------------------------------------------------
    // Convergence
    // -----------------------------------------------------------------

    predicate Concerns(a: Announcement, group: GroupId) {
      a.Group() == group && Accepts(a)
    }

    // The last of those of the highest epoch.
    predicate LastHighest(announcements: seq<Announcement>, group: GroupId, i: nat) {
      && i < |announcements| && Concerns(announcements[i], group)
      && forall j :: 0 <= j < |announcements| && Concerns(announcements[j], group) ==>
           if j <= i then announcements[j].epoch <= announcements[i].epoch else announcements[j].epoch < announcements[i].epoch
    }

    // After any deliveries a member holds a state of the highest epoch it was
    // given for the group, and holds one exactly when it was given one.
    lemma {:induction false} HoldsHighestEpoch(announcements: seq<Announcement>, group: GroupId)
      ensures group in Run(announcements).states <==> exists a :: a in announcements && Concerns(a, group)
      ensures group in Run(announcements).states ==>
                var s := Run(announcements).states[group];
                && (exists a :: a in announcements && Concerns(a, group) && Unwrap(a) == Success(s))
                && (forall a :: a in announcements && Concerns(a, group) ==> a.epoch <= s.epoch)
    {
      hide OpenWith, StatePath;
      if announcements != [] {
        var front, last := announcements[..|announcements| - 1], announcements[|announcements| - 1];
        HoldsHighestEpoch(front, group);
        assert announcements == front + [last];
        if Concerns(last, group) {
          assert last in announcements;
        } else {
          assert group in Run(announcements).states <==> group in Run(front).states;
        }
      }
    }

    // More than that: of the announcements of the highest epoch it holds the
    // one that came last.
    lemma {:induction false} HoldsLastOfHighest(announcements: seq<Announcement>, group: GroupId) returns (i: nat)
      requires group in Run(announcements).states
      ensures LastHighest(announcements, group, i) && Unwrap(announcements[i]) == Success(Run(announcements).states[group])
    {
      var front, last := announcements[..|announcements| - 1], announcements[|announcements| - 1];
      assert announcements == front + [last];
      HoldsHighestEpoch(front, group);
      InstallDecides(Run(front), last, group);
      hide Unwrap, Install, LastHighest, Run;
      if Concerns(last, group) && !(group in Run(front).states && last.epoch < Run(front).states[group].epoch) {
        i := |front|;
        LaterIsHighest(front, last, group);
      } else {
        i := HoldsLastOfHighest(front, group);
        HighestIsHeld(front, group, i);
        StaysHighest(front, last, group, i);
      }
    }

    lemma InstallDecides(s: Agent, a: Announcement, group: GroupId)
      ensures var s' := Install(s, a);
              if Concerns(a, group) && !(group in s.states && a.epoch < s.states[group].epoch)
              then group in s'.states && Unwrap(a) == Success(s'.states[group])
              else (group in s'.states <==> group in s.states) && (group in s.states ==> s'.states[group] == s.states[group])
    {
      hide OpenWith, StatePath;
    }

    lemma HighestIsHeld(announcements: seq<Announcement>, group: GroupId, i: nat)
      requires group in Run(announcements).states && i < |announcements|
      requires Unwrap(announcements[i]) == Success(Run(announcements).states[group])
      ensures announcements[i].epoch == Run(announcements).states[group].epoch
    {
      hide OpenWith, Run;
    }

    lemma StaysHighest(front: seq<Announcement>, last: Announcement, group: GroupId, i: nat)
      requires LastHighest(front, group, i) && (Concerns(last, group) ==> last.epoch < front[i].epoch)
      ensures LastHighest(front + [last], group, i) && (front + [last])[i] == front[i]
    {
      hide Unwrap;
    }

    lemma LaterIsHighest(front: seq<Announcement>, last: Announcement, group: GroupId)
      requires Concerns(last, group) && forall a :: a in front && Concerns(a, group) ==> a.epoch <= last.epoch
      ensures LastHighest(front + [last], group, |front|)
    {
      hide Unwrap;
    }
  }

  // One state per epoch of a group.
  ghost predicate OnePerEpoch(log: set<Announcement>) {
    forall a, b :: a in log && b in log && a.Group() == b.Group() && a.epoch == b.epoch ==> a == b
  }

  // No announcement of the group that the member can open is newer.
  predicate LatestFor(m: Member, delivered: seq<Announcement>, latest: Announcement) {
    latest in delivered && forall a :: a in delivered && m.Concerns(a, latest.Group()) ==> a.epoch <= latest.epoch
  }

  // A member that holds a state was given the latest one.
  lemma LatestIsHeld(m: Member, delivered: seq<Announcement>, group: GroupId) returns (latest: Announcement)
    requires group in m.Run(delivered).states
    ensures LatestFor(m, delivered, latest) && latest.Group() == group
    ensures m.Unwrap(latest) == Success(m.Run(delivered).states[group])
  {
    hide Member.Unwrap, Member.Run;
    var i := m.HoldsLastOfHighest(delivered, group);
    latest := delivered[i];
  }

  // A log that announces only newer and newer epochs has one state per epoch.
  lemma NewerEpochs(log: set<Announcement>, next: Announcement)
    requires forall a :: a in log && a.Group() == next.Group() ==> a.epoch < next.epoch
    ensures OnePerEpoch({}) && (OnePerEpoch(log) ==> OnePerEpoch(log + {next}))
  {
  }

  // Two members that were delivered parts of one log, in any orders and with
  // any repetitions, hold the same state of a group whenever the latest one
  // that either of them could open is the same and opens to the same key.
  // Members may join and leave between epochs, and the log may carry groups
  // that only one of them is in.
  lemma MembersConverge(m: Member, n: Member, log: set<Announcement>,
                        toM: seq<Announcement>, toN: seq<Announcement>, latest: Announcement)
    requires OnePerEpoch(log)
    requires (forall a :: a in toM ==> a in log) && (forall a :: a in toN ==> a in log)
    requires LatestFor(m, toM, latest) && LatestFor(n, toN, latest)
    requires m.Accepts(latest) && m.Unwrap(latest) == n.Unwrap(latest)
    ensures latest.Group() in m.Run(toM).states && latest.Group() in n.Run(toN).states
    ensures m.Run(toM).states[latest.Group()] == n.Run(toN).states[latest.Group()] == m.Unwrap(latest).value
  {
    HoldsLatest(m, log, toM, latest);
    HoldsLatest(n, log, toN, latest);
  }

  lemma HoldsLatest(m: Member, log: set<Announcement>, delivered: seq<Announcement>, latest: Announcement)
    requires OnePerEpoch(log) && forall a :: a in delivered ==> a in log
    requires LatestFor(m, delivered, latest) && m.Accepts(latest)
    ensures latest.Group() in m.Run(delivered).states
    ensures m.Unwrap(latest) == Success(m.Run(delivered).states[latest.Group()])
  {
    hide OpenWith;
    var group := latest.Group();
    m.HoldsHighestEpoch(delivered, group);
    assert m.Concerns(latest, group);
    var a :| a in delivered && m.Concerns(a, group) && m.Unwrap(a) == Success(m.Run(delivered).states[group]);
    assert a.epoch == latest.epoch;
  }

  // A created state opens to one and the same for all its members.
  lemma CreatedStateOpensAlike(m: Member, a: Announcement, members: seq<Recipient>, key: Bytes, ephemerals: seq<Bytes>, nonces: seq<Bytes>)
    requires m.c.Lawful() && |ephemerals| == |nonces| == |members| && |key| == 32
    requires a.kind == "tree-group-state-v1" && a.envelopes == Envelopes(m.c, members, key, ephemerals, nonces)
    requires exists i :: 0 <= i < |members| && members[i].tag == m.tag
    requires forall i :: 0 <= i < |members| && members[i].tag == m.tag ==> members[i].encryptionKey == m.c.xPublic(m.private)
    ensures m.Unwrap(a) == Success(Stored(a.groupId, a.epoch, a.members, key))
  {
    hide OpenWith, Envelopes;
    EveryMemberOpens(m.c, members, key, ephemerals, nonces, m.tag, m.private);
  }

  // ---------------------------------------------------------------------
  // Group messages
  // ---------------------------------------------------------------------

  datatype Envelope = Envelope(groupId: GroupId, epoch: int, nonce: Bytes, ciphertext: Bytes)

  function DigitsText(n: nat): string {
    seq(|Decimal(n)|, i requires 0 <= i < |Decimal(n)| => Decimal(n)[i] as char)
  }

  function EpochText(epoch: int): string {
    if epoch < 0 then "-" + DigitsText(-epoch) else DigitsText(epoch)
  }

  function GroupAad(c: Crypto, group: GroupId, epoch: int): Bytes {
    c.utf8("vpn1 group v1:" + group + ":" + EpochText(epoch))
  }

  function GroupEncrypt(c: Crypto, states: map<GroupId, Stored>, group: GroupId, plaintext: Bytes, nonce: Bytes)
    : Result<Envelope, GroupError>
  {
    if group !in states || states[group].key == [] then Failure(NotInitialized)
    else
      var s := states[group];
      Success(Envelope(group, s.epoch, nonce,
                       c.aead(ChaCha20Poly1305).seal(s.key, nonce, plaintext, GroupAad(c, group, s.epoch))))
  }

  function GroupDecrypt(c: Crypto, states: map<GroupId, Stored>, e: Envelope): Result<Bytes, GroupError> {
    if e.groupId !in states || states[e.groupId].epoch != e.epoch then Failure(EpochUnavailable)
    else match c.aead(ChaCha20Poly1305).open(states[e.groupId].key, e.nonce, e.ciphertext, GroupAad(c, e.groupId, e.epoch))
      case None => Failure(BadCiphertext)
      case Some(plaintext) => Success(plaintext)
  }

  lemma DigitsTextInjective(m: nat, n: nat)
    requires DigitsText(m) == DigitsText(n)
    ensures m == n
  {
    forall i | 0 <= i < |Decimal(m)| ensures Decimal(m)[i] == Decimal(n)[i] {
      assert DigitsText(m)[i] == DigitsText(n)[i];
    }
    assert |DigitsText(m)| == |DigitsText(n)|;
    assert Decimal(m) == Decimal(n);
    ParseInvertsDecimal(m);
    ParseInvertsDecimal(n);
  }

  lemma EpochTextInjective(e: int, f: int)
    requires EpochText(e) == EpochText(f)
    ensures e == f
  {
    hide Decimal;
    assert EpochText(e)[0] == '-' <==> e < 0;
    assert EpochText(f)[0] == '-' <==> f < 0;
    assert e < 0 ==> EpochText(e)[1..] == DigitsText(-e);
    assert f < 0 ==> EpochText(f)[1..] == DigitsText(-f);
    DigitsTextInjective(if e < 0 then -e else e, if f < 0 then -f else f);
  }

  lemma EpochTextHasNoColon(epoch: int)
    ensures ':' !in EpochText(epoch)
  {
  }

  lemma SameSplit(x: string, y: string, a: string, b: string)
    requires ':' !in a && ':' !in b && x + ":" + a == y + ":" + b
    ensures x == y && a == b
  {
    hide SplitLast;
    SplitIsUnique(x, ':', a);
    SplitIsUnique(y, ':', b);
  }

  // The associated data names one group and one epoch, although a group id may
  // contain the separator.
  lemma GroupAadInjective(c: Crypto, g: GroupId, h: GroupId, e: int, f: int)
    requires c.Lawful() && GroupAad(c, g, e) == GroupAad(c, h, f)
    ensures g == h && e == f
  {
    hide EpochText, Crypto.Lawful;
    var lead := "vpn1 group v1:";
    TextsDiffer(c, lead + g + ":" + EpochText(e), lead + h + ":" + EpochText(f));
    EpochTextHasNoColon(e);
    EpochTextHasNoColon(f);
    SameSplit(lead + g, lead + h, EpochText(e), EpochText(f));
    assert (lead + g)[|lead|..] == g && (lead + h)[|lead|..] == h;
    EpochTextInjective(e, f);
  }

  lemma TextsDiffer(c: Crypto, s: string, t: string)
    requires c.Lawful() && c.utf8(s) == c.utf8(t)
    ensures s == t
  {
    assert c.TextLaw(s, t);
  }

  // A message reaches a member that holds the sender's state, and a member at
  // any other epoch refuses it.
  lemma MessageRoundTrip(c: Crypto, from: map<GroupId, Stored>, to: map<GroupId, Stored>, group: GroupId, plaintext: Bytes, nonce: Bytes)
    requires c.Lawful()
    ensures GroupEncrypt(c, from, group, plaintext, nonce).Success? <==> group in from && from[group].key != []
    ensures group in from && from[group].key != [] ==>
            var sent := GroupEncrypt(c, from, group, plaintext, nonce);
            && sent.value.groupId == group && sent.value.epoch == from[group].epoch && sent.value.nonce == nonce
            && c.aead(ChaCha20Poly1305).open(from[group].key, nonce, sent.value.ciphertext,
                 c.utf8("vpn1 group v1:" + group + ":" + EpochText(from[group].epoch))) == Some(plaintext)
            && (group in to && to[group] == from[group] ==> GroupDecrypt(c, to, sent.value) == Success(plaintext))
            && (group !in to || to[group].epoch != from[group].epoch ==> GroupDecrypt(c, to, sent.value) == Failure(EpochUnavailable))
  {
    hide EpochText;
    if group in from && from[group].key != [] {
      assert c.CipherLaw(ChaCha20Poly1305);
      var s := from[group];
      var sealed := c.aead(ChaCha20Poly1305).seal(s.key, nonce, plaintext, GroupAad(c, group, s.epoch));
      assert c.aead(ChaCha20Poly1305).Law(s.key, nonce, plaintext, sealed, GroupAad(c, group, s.epoch));
    }
  }

  // A member reads exactly what was sealed under its own key for this group
  // and epoch.
  lemma OnlySealedMessagesOpen(c: Crypto, to: map<GroupId, Stored>, e: Envelope, plaintext: Bytes)
    requires c.Lawful()
    ensures GroupDecrypt(c, to, e) == Success(plaintext) <==>
              && e.groupId in to && to[e.groupId].epoch == e.epoch
              && e.ciphertext == c.aead(ChaCha20Poly1305).seal(to[e.groupId].key, e.nonce, plaintext,
                   c.utf8("vpn1 group v1:" + e.groupId + ":" + EpochText(e.epoch)))
  {
    hide EpochText;
    assert c.CipherLaw(ChaCha20Poly1305);
    if e.groupId in to {
      assert c.aead(ChaCha20Poly1305).Law(to[e.groupId].key, e.nonce, plaintext, e.ciphertext, GroupAad(c, e.groupId, e.epoch));
    }
  }

  // ---------------------------------------------------------------------
  // Files
  // ---------------------------------------------------------------------

  // replace("/", "_").replace("..", "_")
  function Underscored(s: string): string {
    if s == "" then "" else [if s[0] == '/' then '_' else s[0]] + Underscored(s[1..])
  }

  function DotsReplaced(s: string): string {
    if |s| >= 2 && s[0] == '.' && s[1] == '.' then "_" + DotsReplaced(s[2..])
    else if s == "" then ""
    else [s[0]] + DotsReplaced(s[1..])
  }

  function StatePath(group: GroupId): string {
    "group-" + DotsReplaced(Underscored(group)) + ".json"
  }

  // A group id that keeps its name on disk.
  predicate PlainName(s: string) {
    '/' !in s && forall i :: 0 <= i < |s| - 1 ==> !(s[i] == '.' && s[i + 1] == '.')
  }

  lemma {:induction false} PlainNameKept(s: string)
    requires PlainName(s)
    ensures Underscored(s) == s && DotsReplaced(s) == s
  {
    if s != "" {
      assert s == [s[0]] + s[1..];
      assert PlainName(s[1..]) by {
        forall i | 0 <= i < |s[1..]| - 1 ensures !(s[1..][i] == '.' && s[1..][i + 1] == '.') {
          assert s[1..][i] == s[i + 1] && s[1..][i + 1] == s[i + 2];
        }
      }
      PlainNameKept(s[1..]);
    }
  }

  lemma {:induction false} UnderscoredChars(s: string)
    ensures |Underscored(s)| == |s|
    ensures forall i :: 0 <= i < |s| ==> Underscored(s)[i] == if s[i] == '/' then '_' else s[i]
  {
    if s != "" {
      UnderscoredChars(s[1..]);
    }
  }

  lemma {:induction false} DotsReplacedChars(s: string)
    requires '/' !in s
    ensures PlainName(DotsReplaced(s))
    ensures s != "" && DotsReplaced(s) != "" && s[0] != '.' ==> DotsReplaced(s)[0] != '.'
    ensures |s| < 2 || s[0] != '.' || s[1] != '.' ==> (s == "" || (DotsReplaced(s) != "" && DotsReplaced(s)[0] == s[0]))
  {
    if |s| >= 2 && s[0] == '.' && s[1] == '.' {
      DotsReplacedChars(s[2..]);
    } else if s != "" {
      DotsReplacedChars(s[1..]);
      var rest := DotsReplaced(s[1..]);
      assert DotsReplaced(s) == [s[0]] + rest;
      if s[0] == '.' && |s| > 1 {
        assert rest == "" || rest[0] != '.';
      }
    }
  }

  // Whatever a group is called, its file is in the state directory, and a
  // plain name is kept in it.
  lemma FilesStayInDirectory(group: GroupId)
    ensures exists name :: StatePath(group) == "group-" + name + ".json" && PlainName(name) && (PlainName(group) ==> name == group)
  {
    UnderscoredChars(group);
    assert '/' !in Underscored(group);
    DotsReplacedChars(Underscored(group));
    if PlainName(group) {
      PlainNameKept(group);
    }
  }

  // An announcement without a group id is for the group "general".
  lemma UnnamedIsGeneral(m: Member, a: Announcement)
    requires a.groupId == None && m.Accepts(a)
    ensures m.Run([a]).states == map["general" := m.Unwrap(a).value]
  {
    hide StatePath, OpenWith;
    var one := [a];
    assert one[..0] == [];
    assert m.Run(one) == m.Install(m.Run([]), a);
  }

  lemma PlainNamesHaveOwnFiles(a: GroupId, b: GroupId)
    requires PlainName(a) && PlainName(b) && StatePath(a) == StatePath(b)
    ensures a == b
  {
    PlainNameKept(a);
    PlainNameKept(b);
    var p := StatePath(a);
    assert p[6..|p| - 5] == a && p[6..|p| - 5] == b;
  }

  datatype Agent = Agent(states: map<GroupId, Stored>, disk: map<string, Stored>) {

    // Memory files every state under its own group, and each file is the state
    // of the group that wrote it last.
    ghost predicate Consistent() {
      && (forall g :: g in states ==> states[g].Group() == g && StatePath(g) in disk)
      && (forall p :: p in disk ==>
            disk[p].Group() in states && states[disk[p].Group()] == disk[p] && StatePath(disk[p].Group()) == p)
    }

    // Every group names itself in its file, and no two share one.
    ghost predicate Restorable() {
      && (forall g :: g in states ==> g != "" && states[g].groupId == Some(g))
      && (forall g, h :: g in states && h in states && StatePath(g) == StatePath(h) ==> g == h)
    }
  }

  lemma {:induction false} RunIsConsistent(m: Member, announcements: seq<Announcement>)
    ensures m.Run(announcements).Consistent()
  {
    hide OpenWith, StatePath;
    if announcements != [] {
      RunIsConsistent(m, announcements[..|announcements| - 1]);
    }
  }

  // _load_all_group_states, over the files in whatever order glob lists them.
  function Load(files: seq<Stored>): map<GroupId, Stored> {
    if files == [] then map[] else
      var s := files[|files| - 1];
      var before := Load(files[..|files| - 1]);
      if s.groupId.Some? && s.groupId.value != "" then before[s.groupId.value := s] else before
  }

  lemma {:induction false} LoadedFromFiles(files: seq<Stored>, g: GroupId)
    ensures g in Load(files) ==> Load(files)[g] in files && Load(files)[g].groupId == Some(g) && g != ""
    ensures forall s :: s in files && s.groupId == Some(g) && g != "" ==> g in Load(files)
  {
    if files != [] {
      LoadedFromFiles(files[..|files| - 1], g);
      assert files == files[..|files| - 1] + [files[|files| - 1]];
    }
  }

  // A restart restores the agent's states, in whatever order the files are
  // read, if and only if every group has a file of its own that names it.
  lemma RestartRestores(m: Member, announcements: seq<Announcement>, files: seq<Stored>)
    requires forall s :: s in files <==> s in m.Run(announcements).disk.Values
    ensures Load(files) == m.Run(announcements).states <==> m.Run(announcements).Restorable()
  {
    hide Load, StatePath, Member.Run;
    var agent := m.Run(announcements);
    RunIsConsistent(m, announcements);
    if agent.Restorable() {
      forall g ensures g in Load(files) <==> g in agent.states {
        LoadedFromFiles(files, g);
        if g in agent.states {
          assert agent.disk[StatePath(g)] in files;
        }
      }
      forall g | g in agent.states ensures Load(files)[g] == agent.states[g] {
        LoadedFromFiles(files, g);
      }
    }
    if Load(files) == agent.states {
      forall g | g in agent.states ensures g != "" && agent.states[g].groupId == Some(g) {
        LoadedFromFiles(files, g);
      }
      forall g, h | g in agent.states && h in agent.states && StatePath(g) == StatePath(h) ensures g == h {
        LoadedFromFiles(files, g);
        LoadedFromFiles(files, h);
      }
    }
  }

  // Ids without "/" and ".." are restored as soon as every announcement names
  // its group.
  lemma PlainIdsAreRestored(m: Member, announcements: seq<Announcement>, files: seq<Stored>)
    requires forall a :: a in announcements ==> a.groupId.Some? && a.groupId.value != "" && PlainName(a.groupId.value)
    requires forall s :: s in files <==> s in m.Run(announcements).disk.Values
    ensures Load(files) == m.Run(announcements).states
  {
    hide StatePath, Load, PlainName, OpenWith;
    var agent := m.Run(announcements);
    forall g | g in agent.states ensures g != "" && agent.states[g].groupId == Some(g) && PlainName(g) {
      m.HoldsHighestEpoch(announcements, g);
    }
    forall g, h | g in agent.states && h in agent.states && StatePath(g) == StatePath(h) ensures g == h {
      PlainNamesHaveOwnFiles(g, h);
    }
    RestartRestores(m, announcements, files);
  }

  lemma SlashesShareAFile()
    ensures StatePath("a/b") == StatePath("a_b") && "a/b" != "a_b"
  {
    assert Underscored("a/b") == "a_b";
    assert Underscored("a_b") == "a_b";
  }

  // A state sealed to this member only.
  function SealedTo(m: Member, group: GroupId, key: Bytes, ephemeral: Bytes, nonce: Bytes): Announcement {
    Announcement("tree-group-state-v1", Some(group), 0, [m.tag],
                 map[m.tag := SealTo(m.c, ephemeral, nonce, m.c.xPublic(m.private), key, EPOCH_LABEL)])
  }

  // A member of two groups named "a/b" and "a_b" loses one of them at a restart.
  lemma RestartLosesAGroup(m: Member, key: Bytes, ephemeral: Bytes, nonce: Bytes, files: seq<Stored>)
    requires m.c.Lawful() && |key| == 32
    requires forall s :: s in files <==>
               s in m.Run([SealedTo(m, "a/b", key, ephemeral, nonce), SealedTo(m, "a_b", key, ephemeral, nonce)]).disk.Values
    ensures var slashed, plain := SealedTo(m, "a/b", key, ephemeral, nonce), SealedTo(m, "a_b", key, ephemeral, nonce);
            && m.Accepts(slashed) && m.Accepts(plain)
            && m.Run([slashed, plain]).states.Keys == {"a/b", "a_b"} && Load(files) != m.Run([slashed, plain]).states
  {
    hide OpenWith, SealTo, Load;
    SealedOpens(m.c, ephemeral, nonce, m.private, key, EPOCH_LABEL);
    var slashed, plain := SealedTo(m, "a/b", key, ephemeral, nonce), SealedTo(m, "a_b", key, ephemeral, nonce);
    TwoInstalled(m, slashed, plain);
    SlashesShareAFile();
    RestartRestores(m, [slashed, plain], files);
  }

  lemma TwoInstalled(m: Member, a: Announcement, b: Announcement)
    requires m.Accepts(a) && m.Accepts(b) && a.Group() != b.Group()
    ensures m.Run([a, b]).states.Keys == {a.Group(), b.Group()}
  {
    hide StatePath, Member.Unwrap;
    var both := [a, b];
    var one := both[..1];
    assert one == [a] && one[..0] == [];
    assert m.Run(one) == m.Install(m.Run([]), a);
    assert m.Run(both) == m.Install(m.Run(one), b);
  }

  // ---------------------------------------------------------------------
  // The agent's operations
  // ---------------------------------------------------------------------

  datatype Recipient = Recipient(tag: Tag, encryptionKey: Bytes)

  // One envelope a member, the last entry of a tag winning.
  function Envelopes(c: Crypto, members: seq<Recipient>, key: Bytes, ephemerals: seq<Bytes>, nonces: seq<Bytes>): map<Tag, Sealed>
    requires |ephemerals| == |nonces| == |members|
    decreases |members|
  {
    if members == [] then map[] else
      var last := |members| - 1;
      Envelopes(c, members[..last], key, ephemerals[..last], nonces[..last])
        [members[last].tag := SealTo(c, ephemerals[last], nonces[last], members[last].encryptionKey, key, EPOCH_LABEL)]
  }

  class CryptoAgent {
    const member: Member
    var states: map<GroupId, Stored>
    var disk: map<string, Stored>

    function View(): Agent
      reads this
    {
      Agent(states, disk)
    }

    constructor (member: Member, files: seq<Stored>, disk: map<string, Stored>)
      ensures this.member == member && View() == Agent(Load(files), disk)
    {
      this.member := member;
      this.disk := disk;
      var loaded: map<GroupId, Stored> := map[];
      for i := 0 to |files|
        invariant loaded == Load(files[..i])
      {
        assert files[..i + 1][..i] == files[..i];
        var s := files[i];
        if s.groupId.Some? && s.groupId.value != "" {
          loaded := loaded[s.groupId.value := s];
        }
      }
      assert files[..|files|] == files;
      states := loaded;
    }

    method InstallGroupState(a: Announcement) returns (r: Result<(), GroupError>)
      modifies this
      ensures View() == member.Install(old(View()), a)
      ensures r.Success? <==> member.Accepts(a) && !(a.Group() in old(states) && a.epoch < old(states)[a.Group()].epoch)
    {
      var group := a.Group();
      if a.kind != "tree-group-state-v1" || member.tag !in a.envelopes {
        return Failure(NotAMember);
      }
      var key := OpenWith(member.c, member.private, a.envelopes[member.tag], EPOCH_LABEL);
      if key.None? || |key.value| != 32 {
        return Failure(BadGroupKey);
      }
      var stored := Stored(a.groupId, a.epoch, a.members, key.value);
      if group in states && stored.epoch < states[group].epoch {
        return Failure(StaleEpoch);
      }
      states := states[group := stored];
      disk := disk[StatePath(group) := stored];
      return Success(());
    }

    // `key`, `ephemerals` and `nonces` are the fresh random bytes.
    method CreateGroupState(members: seq<Recipient>, epoch: int, group: GroupId,
                            key: Bytes, ephemerals: seq<Bytes>, nonces: seq<Bytes>)
      returns (r: Result<Announcement, GroupError>)
      requires |ephemerals| == |nonces| == |members| && |key| == 32
      modifies this
      ensures r.Success? ==>
                && r.value == Announcement("tree-group-state-v1", Some(group), epoch, Tags(members),
                                           Envelopes(member.c, members, key, ephemerals, nonces))
                && member.Accepts(r.value) && View() == member.Install(old(View()), r.value)
                && (forall i :: 0 <= i < |members| ==> |members[i].encryptionKey| == 32)
      ensures r.Failure? ==> View() == old(View())
      ensures var a := Announcement("tree-group-state-v1", Some(group), epoch, Tags(members),
                                    Envelopes(member.c, members, key, ephemerals, nonces));
              r.Success? <==>
                && members != [] && (forall i :: 0 <= i < |members| ==> |members[i].encryptionKey| == 32)
                && member.tag in Tags(members) && member.Accepts(a)
                && !(group in old(states) && epoch < old(states)[group].epoch)
    {
      hide Envelopes, OpenWith, SealTo, StatePath;
      if members == [] {
        return Failure(NoMembers);
      }
      var envelopes := SealToAll(members, key, ephemerals, nonces);
      if envelopes.None? {
        return Failure(BadMemberKey);
      }
      EnvelopeTags(member.c, members, key, ephemerals, nonces, member.tag);
      if member.tag !in envelopes.value {
        return Failure(NotAMember);
      }
      var a := Announcement("tree-group-state-v1", Some(group), epoch, Tags(members), envelopes.value);
      var installed := InstallGroupState(a);
      if installed.Failure? {
        return Failure(installed.error);
      }
      return Success(a);
    }

    // One envelope after the other, unless a key has the wrong size.
    method SealToAll(members: seq<Recipient>, key: Bytes, ephemerals: seq<Bytes>, nonces: seq<Bytes>)
      returns (r: Option<map<Tag, Sealed>>)
      requires |ephemerals| == |nonces| == |members|
      ensures r.Some? <==> forall i :: 0 <= i < |members| ==> |members[i].encryptionKey| == 32
      ensures r.Some? ==> r.value == Envelopes(member.c, members, key, ephemerals, nonces)
    {
      hide SealTo;
      var envelopes: map<Tag, Sealed> := map[];
      assert members[..0] == [] && ephemerals[..0] == [] && nonces[..0] == [];
      for i := 0 to |members|
        invariant envelopes == Envelopes(member.c, members[..i], key, ephemerals[..i], nonces[..i])
        invariant forall j :: 0 <= j < i ==> |members[j].encryptionKey| == 32
      {
        if |members[i].encryptionKey| != 32 {
          return None;
        }
        assert members[..i + 1][..i] == members[..i];
        assert ephemerals[..i + 1][..i] == ephemerals[..i] && nonces[..i + 1][..i] == nonces[..i];
        envelopes := envelopes[members[i].tag :=
          SealTo(member.c, ephemerals[i], nonces[i], members[i].encryptionKey, key, EPOCH_LABEL)];
      }
      assert members[..|members|] == members && ephemerals[..|members|] == ephemerals && nonces[..|members|] == nonces;
      return Some(envelopes);
    }
  }

  lemma {:induction false} EnvelopeTags(
      c: Crypto, members: seq<Recipient>, key: Bytes, ephemerals: seq<Bytes>, nonces: seq<Bytes>, tag: Tag)
    requires |ephemerals| == |nonces| == |members|
    ensures tag in Envelopes(c, members, key, ephemerals, nonces) <==> tag in Tags(members)
    decreases |members|
  {
    if members != [] {
      var last := |members| - 1;
      EnvelopeTags(c, members[..last], key, ephemerals[..last], nonces[..last], tag);
      assert Tags(members) == Tags(members[..last]) + [members[last].tag];
    }
  }

  function Tags(members: seq<Recipient>): seq<Tag> {
    seq(|members|, i requires 0 <= i < |members| => members[i].tag)
  }

  // Every listed member opens its envelope of a created state, and finds the key.
  lemma {:induction false} EveryMemberOpens(
      c: Crypto, members: seq<Recipient>, key: Bytes, ephemerals: seq<Bytes>, nonces: seq<Bytes>, tag: Tag, private: Bytes)
    requires c.Lawful() && |ephemerals| == |nonces| == |members|
    requires exists i :: 0 <= i < |members| && members[i].tag == tag
    requires forall i :: 0 <= i < |members| && members[i].tag == tag ==> members[i].encryptionKey == c.xPublic(private)
    ensures var envelopes := Envelopes(c, members, key, ephemerals, nonces);
            tag in envelopes && OpenWith(c, private, envelopes[tag], "vpn1 group epoch v1") == Some(key)
    decreases |members|
  {
    hide SealTo, OpenWith;
    var last := |members| - 1;
    if members[last].tag == tag {
      SealedOpens(c, ephemerals[last], nonces[last], private, key, EPOCH_LABEL);
    } else {
      EveryMemberOpens(c, members[..last], key, ephemerals[..last], nonces[..last], tag, private);
    }
  }
}
