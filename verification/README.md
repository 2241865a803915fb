# secNet: a verified model of the VPN server and its chat views

The project models the stateful parts of a multi-peer VPN server and of the
Kafka-backed chat service that runs beside it, and proves what they keep in
every run and every interleaving.

- **Tunnel** (`Bytes`, `Framing`, `SessionCipher`, `Tunnel`, `SendLock`): packets
  are sealed under a counter, framed with a four-byte length, cut by the network
  into arbitrary segments, decoded by two different decoders and opened again.
- **Registry and sessions** (`PeerRegistry`, `SessionLifecycle`,
  `SessionProgress`, `Routing`): the
  address allocator with reservations, the tag index with session replacement,
  one thread per connection over all its failure paths, and packet routing.
- **Kafka views** (`DeviceDirectory`, `DeviceHistory`, `DeliveryView`,
  `DeliveryLog`, `ConnectRace`): the two-index device directory and the pending/delivered
  messages, rebuilt from compacted logs and read while they change.
- **Handshake** (`ChainDigest`, `Handshake`, `LawfulCrypto`, `HandshakeProtocol`,
  `HandshakeWire`, `HandshakeSides`): six key exchanges, the two-party protocol
  up to synchronised counters, its frames, and the two programs on their sockets.
- **Group keys and cookie** (`GroupState`, `Base64`, `Texts`, `SessionCookie`).

Conventions. Concurrency is a state with a total `Step`: an action is one region
under a lock (or one step of the event loop), a disabled action changes nothing,
and a theorem over every sequence of actions is a theorem over every
interleaving. Objects the source updates in place are classes whose methods are
proved against the functions the theorems are about. Cryptographic primitives
are function values that are only known by their laws: an AEAD opens exactly
what it sealed and adds 16 bytes (RFC 5116, section 2), Diffie-Hellman commutes,
key transport and signatures round-trip. Authenticity is a hypothesis of the
lemmas that need it: `Unforged` says that whatever opens was sealed by the
sender, `UnforgedSignatures` that whatever signature is presented and verifies was made by
the device.
`SomeCryptoIsLawful` (in `LawfulCrypto`) shows that all the laws can hold at once.

Three places where the code does less than its comments or documentation say,
kept as they are and settled with an exact condition:

- A packet that fits no frame still uses up a record number in `send_packet`, so
  the next packet breaks the session (`OversizedPacketBreaksSession`); a session
  survives if and only if no packet is sent after such a one
  (`SessionSurvivesIffGapFree`). No caller in the repository has such a packet:
  what is read from a TUN device or opened from a frame always fits. There only
  the end of the counter fails a send, and it fails all later ones too
  (`ForwardedPacketsNeverBreakSession`).
- The compacted topic does not always retain the latest device record: a
  registration published outside the lock can land behind a later update
  (`LatePublishLosesUpdate`). `RecoveryInEveryRun` says exactly for which devices.
- Group states are not always restored from disk: groups can share a file
  (`RestartLosesAGroup`) or miss their name. `RestartRestores` gives the exact
  condition.

## Model

| member | source | states |
|---|---|---|
| Bytes.MostSignificantFirst | protocol.py:32 | lengths and sequence numbers are in network order: the first byte weighs most |
| Framing.DecodeIsTheOnlyReading | packet_manager.py:29-37 | the decoder's frames and remainder are the only way to read a stream as legal frames followed by something no frame can be cut from, both directions |
| Framing.DecodeAppend | packet_manager.py:19-37 | decoding may pause after any byte: resuming with the kept buffer gives what decoding the whole gives, also after an oversized length |
| Framing.DecodePrefix | packet_manager.py:23-37 | any prefix of a sender's bytes yields a prefix of its frames and is never rejected |
| Framing.Socket.Recv | protocol.py:21 | a read hands over at least one byte unless the stream ended, never more than asked for, and loses nothing |
| Framing.RecvExact | protocol.py:17-26 | returns exactly the next bytes and leaves all later ones on the socket; fails exactly when the stream is too short |
| Framing.SendFrame | protocol.py:29-38 | writes one length-prefixed frame, or nothing at all when the data is too large |
| Framing.RecvFrame | protocol.py:40-44 | takes the next frame whatever the segmentation; an oversized length and an early end are the only failures |
| Framing.FrameReader.Next | packet_manager.py:17-41 | one step of the generator, whatever its consumer did since the last: the next frame of the bytes taken, without reading while one is buffered; it ends only when all frames are yielded, and by an error exactly on an oversized length |
| Framing.RecvFramesFromSocket | packet_manager.py:23-37 | drawn to its end, whatever the segments and whenever it is stopped, it yields the frames of exactly the bytes it took |
| Framing.SwitchDecoders | handshake.py:355 | after any number of frames read by the blocking decoder, the buffered one goes on without losing a byte; both reject at the same frame |
| SessionCipher.NoncesDistinct | encryptDecrypt.py:68-70 | no two of 2^64 sequence numbers share a nonce (RFC 5116, section 3.2) |
| SessionCipher.RecordLayout | encryptDecrypt.py:67-83 | a record is its number in eight bytes and the text sealed under the nonce "VPN1" and those bytes, with "vpn-record-v1" and those bytes as associated data, 24 bytes more than the text |
| SessionCipher.OpenOfRecord | encryptDecrypt.py:76-100 | a record opens at its own number and at no other |
| SessionCipher.RecordOfOpen | encryptDecrypt.py:85-100 | whatever opens is the record of what it opens to, 24 bytes longer than it |
| SessionCipher.SessionCipher.Encrypt | encryptDecrypt.py:76-83 | seals under the current number and uses it up, also when it no longer fits eight bytes |
| SessionCipher.SessionCipher.Decrypt | encryptDecrypt.py:85-100 | opens only the expected number; a rejected record leaves the counter alone |
| SessionCipher.AcceptedIsAPrefix | encryptDecrypt.py:54-60 | of any duplicated, permuted, dropped or altered records exactly a prefix of what was sent is accepted |
| SessionCipher.InOrderIsAccepted | encryptDecrypt.py:54-100 | if the sent records are among those presented, in order, all of what was sent is accepted, whatever else comes in between |
| SessionCipher.GenuineIsUnforged | encryptDecrypt.py:54-60 | with some AEAD whatever the sender really sent is unforged, in any order and number |
| Tunnel.SessionSurvivesIffGapFree | packet_manager.py:88-93 | the receiver gets all sent packets and keeps listening if and only if no packet was sent after one that failed with its number taken |
| Tunnel.OpenedPacketFits | packet_manager.py:319-338 | a packet opened from a legal frame fits a legal frame again, so forwarding never fails on size |
| Tunnel.TunnelDelivers | packet_manager.py:17-41 | encrypt, frame, re-cut, decode, decrypt is the identity on packet sequences, and any prefix of the segments gives a prefix of the packets without error |
| Tunnel.OversizedPacketBreaksSession | packet_manager.py:88-93 | after a packet that fits no frame the next one, however small, is rejected: the receiver gets nothing and fails |
| Tunnel.ForwardedPacketsNeverBreakSession | packet_manager.py:367-380 | packets read from a TUN device or opened from frames never break the session, also beyond the end of the counter |
| Tunnel.NetToTun | packet_manager.py:256-268 | opens and writes each frame before the next is drawn, draws none after a rejected record, and has then written exactly the packets of the frames drawn |
| SendLock.Sender.EveryInterleavingIsReceived | packet_manager.py:88-93 | with any number of threads sending to one peer and frames written piece by piece, the receiver sees at every moment a prefix of the packets in lock order and no error, each thread's in its own order, and in the end all of them |
| SendLock.Sender.EveryInterleavingCanFinish | packet_manager.py:88-93 | from every moment of every interleaving all threads can come to the end of what they send: nobody holds the lock for ever |
| SendLock.Sender.SealIsSendPacket | packet_manager.py:88-93 | the locked step uses up the number, has exactly the frame of `SendPacket` to write, and raises exactly where that fails |
| SendLock.Sender.AnyPieceMayGo | protocol.py:38 | of a frame being written any part may go first, and the rest is left |
| PeerRegistry.PeerConnection.SendPacket | packet_manager.py:88-93 | one record and one frame per packet; succeeds exactly when number and size allow it, and takes the number either way |
| PeerRegistry.PeerRegistry.ReserveIp | packet_manager.py:122-130 | the first host that is neither the server's, reserved nor registered, and failure exactly when none exists |
| PeerRegistry.PeerRegistry.Register | packet_manager.py:136-147 | needs a reservation, moves the address and the tag to the new session, and stops exactly the session it replaces |
| PeerRegistry.PeerRegistry.Remove | packet_manager.py:149-154 | takes out only entries that are this very session |
| PeerRegistry.PoolBoundsSessions | packet_manager.py:122-130 | open and half-open sessions never outnumber the assignable hosts |
| PeerRegistry.HostsOfNetwork | packet_manager.py:111-124 | the addresses of a network share its leading bits, and its hosts are all of them, or without the lowest and the highest from four addresses on |
| PeerRegistry.NetworkOfAddress | packet_manager.py:111 | every address and prefix make a network, its host bits cleared, that contains the address |
| PeerRegistry.DefaultNetwork | packet_manager.py:110 | 10.8.0.0/24 has the hosts 10.8.0.1 to 10.8.0.254 |
| PeerRegistry.TaggedMeaning | packet_manager.py:142 | only a tag that is there and not empty is indexed |
| SessionLifecycle.Server.EveryRun | server.py:38-101 | in every interleaving of sessions over all success and failure paths: reserved addresses are exactly those of threads between reserve and register or release, the peer map exactly those between register and remove, a tag leads to a registered session with that tag, and a replaced session is stopped or about to be closed by its replacement |
| SessionLifecycle.Server.RegisterNeverFails | packet_manager.py:138-140 | no session reaches registration without its reservation |
| SessionLifecycle.Server.NothingLeaks | server.py:91-101 | once all sessions have ended, all three tables are empty |
| SessionLifecycle.Server.RemoveSparesOthers | packet_manager.py:149-154 | a late or repeated removal takes neither address nor tag from another session |
| SessionLifecycle.Server.AddressesDistinct | packet_manager.py:110-147 | no two live sessions have the same address, and none the server's |
| SessionLifecycle.ServePeer | server.py:38-101 | one session on all its paths leaves the registry as it was found, except that a tag it took leads nowhere afterwards and the session that had the tag is closed |
| SessionProgress.HalfOpenSteps | server.py:43-52 | what reserving, the handshake, an exhausted pool and releasing do to each table: after a release the address is no longer reserved |
| SessionProgress.OpenSteps | server.py:52-101 | what registering, closing the replaced session, publishing, the end of routing, removing and closing do to each table |
| SessionProgress.UndisturbedSession | server.py:38-101 | the state machine's session with no other in between does to the registry what `ServePeer` promises |
| SessionProgress.NextStep | server.py:38-101 | in every run an unfinished session has a step of its own that brings it nearer to its end |
| SessionProgress.EveryRunCanEnd | server.py:91-101 | from every point of every run all sessions can end, and then all three tables are empty |
| Routing.EndpointsAreHeaderFields | packet_manager.py:68-74 | a packet has endpoints exactly when its first byte says version 4 and at least five words, and that many words are there; they are then bytes 12 to 15 and 16 to 19 (RFC 791, section 3.1) |
| Routing.EndpointsOfHeader | packet_manager.py:68-74 | twelve header bytes, a source and a destination read back as that source and destination |
| Routing.RoutesInEveryRun | packet_manager.py:322-348 | only packets with the sender's own source are passed on; the TUN device gets exactly those for the server or outside the VPN, a peer exactly those for the address it holds (RFC 791, section 3.1) |
| Routing.Router.DeliveriesKeepInputOrder | packet_manager.py:319-348 | every packet has one outcome, and the deliveries are the routed packets in input order |
| Routing.Router.RoutePeer | packet_manager.py:319-348 | the loop draws, opens and routes frame by frame, draws none after a rejected record, and has handed on exactly the deliveries of the packets opened, each judged by the registry's answer for it |
| Routing.StreamRoutedInEveryRun | packet_manager.py:319-348 | over a whole stream, while the server runs on between the packets: deliveries are packets of the stream in input order with the sender's own address, each handed on, and each packet left out, as the sessions live at its own moment demand |
| Routing.LookupsExist | packet_manager.py:335 | any moments of any run give such lookups |
| DeviceDirectory.KafkaDeviceDirectory.Apply | chat/kafka_backend.py:158-169 | one record into both indexes; a collision is reported, with the device's old tag already gone |
| DeviceDirectory.KafkaDeviceDirectory.RegisterLocked | chat/kafka_backend.py:173-201 | the locked region is the state machine's registration step at any moment of any run; a new device is in both indexes with its record still unpublished |
| DeviceDirectory.KafkaDeviceDirectory.PublishRegistration | chat/kafka_backend.py:202 | the publication outside the lock is the state machine's later step |
| DeviceDirectory.KafkaDeviceDirectory.RegisterOrGet | chat/kafka_backend.py:171-203 | both parts undisturbed: a known device keeps its tag and gets its new encryption key, an unknown one gets the fresh tag or a collision that changes nothing; every change and nothing else is logged |
| DeviceDirectory.KafkaDeviceDirectory.UpdateUsername | chat/kafka_backend.py:205-216 | changes one record's name in both indexes and the log, or fails and changes nothing; it is the state machine's step at any moment of any run |
| DeviceDirectory.KafkaDeviceDirectory.LoadSnapshot | chat/kafka_backend.py:153-154 | succeeds exactly when no record collides, with the replayed directory |
| DeviceDirectory.CollisionChangesNothing | chat/kafka_backend.py:162-167 | a registration whose random tag is taken leaves both indexes as they were |
| DeviceDirectory.IndexesAgree | chat/kafka_backend.py:218-226 | in every concurrent run, after any number of restarts, a device has a tag exactly when the tag leads to the device |
| DeviceDirectory.TagsAreStable | chat/kafka_backend.py:171-203 | whatever happens later, a device keeps its tag |
| DeviceDirectory.ReplayKeepsLast | chat/kafka_backend.py:158-169 | replaying records with stable tags never collides and ends with every device's last record |
| DeviceDirectory.CompactionsExist | chat/kafka_backend.py:127-154 | the whole log is a compaction of itself, and any record may go that a later one of its device follows |
| DeviceDirectory.RecoveryInEveryRun | chat/kafka_backend.py:127-216 | from any compaction of the log of any concurrent run, after any number of restarts from compacted logs, replay finds no collision and the live tag of every device with a record in the log, and the full record exactly for devices whose last record since the start is not a registration behind another record of theirs |
| DeviceDirectory.LatePublishLosesUpdate | chat/kafka_backend.py:202 | such a late publish does occur and loses a username |
| DeviceHistory.HistoryOfDevice | chat/kafka_backend.py:171-216 | in every run a device is there once registered, with the public key and tag of its first registration, the last encryption key any registration brought, and the last name it was given |
| DeviceHistory.RegisterLaw | chat/kafka_backend.py:171-203 | field by field what a registration sets, and that it touches no other device |
| DeviceHistory.RenameLaw | chat/kafka_backend.py:205-216 | a change of name changes the name, the event and the time of one record |
| DeviceHistory.OtherwiseUnchanged | chat/kafka_backend.py:171-216 | nothing else changes the live directory |
| DeliveryView.ChatService.ConsumePrivate | chat/chat_service.py:162-170 | files a message unless it is malformed or delivered; a redelivered one keeps its place |
| DeliveryView.ChatService.ConsumeDelivery | chat/chat_service.py:173-182 | only well-formed delivered reports count |
| DeliveryView.ViewMeetsSpecification | chat/chat_service.py:162-182 | in every interleaving of the logs and ack handlers, with redeliveries, a recipient's pending list is the messages consumed for it without the delivered ones |
| DeliveryView.CollectMeaning | chat/chat_service.py:170 | each message once, in the order of its first arrival, with its last content |
| DeliveryView.ViewsConverge | chat/chat_service.py:162-182 | the view does not depend on the interleaving |
| DeliveryView.PendingIds | chat/chat_service.py:484-512 | nothing consumed is lost and nothing acknowledged reappears, in log order |
| DeliveryLog.TopicKeyInjective | chat/chat_service.py:464 | the topic key names recipient and message, because tags have no colon |
| DeliveryLog.TagsHaveNoColon | chat/identity.py:22-23 | device tags never contain a colon |
| DeliveryLog.TagsDiffer | chat/identity.py:22-23 | different random bytes make different tags |
| DeliveryLog.PrivateTopicIsWhatWasSent | chat/chat_service.py:452-461 | after every run the private topic is the messages sent under new ids, in order |
| DeliveryLog.DeliveryTopicIsWhatHappened | chat/chat_service.py:462-503 | after every run the delivery topic has a pending record for each message sent, a delivered one for each acknowledgement, and no other |
| DeliveryLog.DeliveredIsAcknowledged | chat/chat_service.py:488-508 | a message counts as delivered in the log exactly when its recipient acknowledged it |
| DeliveryLog.CompactionPreservesDelivered | chat/chat_service.py:461-472 | every compaction of a delivery log gives the same delivered messages if and only if no key ends with a pending record after a delivered one |
| DeliveryLog.EveryRunSettles | chat/chat_service.py:461-508 | the writers never produce such a key, given fresh message ids |
| DeliveryLog.RestartRecovers | chat/chat_service.py:99-113 | after a restart a recipient has pending exactly the messages sent to it and not acknowledged, before or during the replay, in order: said of what was done, whatever was compacted and however topics and handlers interleave |
| DeliveryLog.OneRebuild | chat/chat_service.py:99-113 | reading any compaction of the delivery topic and then the private topic is one such replay |
| ConnectRace.ViewOfRun | chat/chat_service.py:726-729 | what a connecting socket finds pending is the view that the consumed records and acknowledgements make (`PendingIds` says which messages) |
| ConnectRace.NoMessageIsMissed | chat/chat_service.py:725-731 | a message handled while a socket connects is delivered, in the socket's snapshot, or pushed to it |
| ConnectRace.MessageReachesSocket | chat/chat_service.py:162-171 | a message consumed and broadcast, and a new socket of its recipient registered and shown what is pending: however these four steps fall, the message is acknowledged, in what the socket was shown, or pushed to it |
| ConnectRace.OnlyTheRecipientSees | chat/chat_service.py:211-217 | a private message is pushed and shown to registered sockets of its recipient only |
| ConnectRace.DisconnectedGetsNothing | chat/chat_service.py:229-235 | a socket that has gone is pushed nothing more |
| ChainDigest.ParseInvertsInput | handshake.py:79-85 | the hash input can be read back into its parts |
| ChainDigest.InputInjective | handshake.py:79-85 | different lists of parts never give the hash the same bytes under one label |
| ChainDigest.ComputeDigest | handshake.py:79-85 | the loop hashes the label and all parts in order, and fails exactly on a part of 65536 bytes or more |
| Handshake.Crypto.KeyExchangeAgrees | handshake.py:107-265 | each of the six key exchanges succeeds and gives both sides one secret |
| Handshake.Crypto.SharedSecret | handshake.py:79-206 | which secret each exchange gives: the Diffie-Hellman secret, the hash of the label and three length-prefixed secrets or of both public keys and the secret, three chained derivations, the transported secret, the encapsulated one |
| Handshake.Crypto.ServerAcceptsPayloads | handshake.py:151-210 | the server goes on with a payload exactly if it is of the negotiated kind and shape |
| Handshake.Crypto.ClientAcceptsPayloads | handshake.py:218-265 | the same for the client |
| Handshake.Crypto.AnswerChain | handshake.py:163-175 | the loop pairs a fresh key with each of the client's, in order, and so computes what `KeyExchangeAgrees` is about |
| HandshakeProtocol.AnswerIffCompatible | handshake.py:380-394 | the server answers exactly the selections it allows |
| HandshakeProtocol.CompatibleSidesAgree | handshake.py:292-458 | with compatible selections every interleaving takes twelve steps, is never stuck before, never fails, and ends with equal transcript hash, secret, algorithms, address and tag, mirrored direction keys and all four counters at 2 |
| HandshakeProtocol.IncompatibleSidesFail | handshake.py:387-394 | with any other selections every interleaving takes three steps, is not stuck before, and ends with both sides failed |
| HandshakeProtocol.DataFollowsHandshake | handshake.py:360-368 | the keys and counters of a finished handshake carry any packets in either direction through any segmentation |
| HandshakeWire.HellosOnTheWire | handshake.py:302-406 | the first frame of each side decodes to the hello with version 1, the selection, its nonce and key payload, the address; the transcript hash is over these two frames |
| HandshakeWire.ConfirmationsOnTheWire | handshake.py:335-423 | the second frame of each side opens under its own key and the number 0 to the eight bytes of "Finished" and the transcript hash |
| HandshakeWire.AuthenticationOnTheWire | handshake.py:341-452 | the third frames open under the number 1 to the device's keys with its signature over transcript, nonces and keys, and to its tag |
| HandshakeWire.ConfirmationInjective | handshake.py:279-280 | a confirmation fits one transcript hash only |
| HandshakeWire.ServerAcceptsHellos | handshake.py:378-399 | the server answers exactly the hellos of version 1 with a selection and a payload it takes |
| HandshakeWire.ClientAcceptsHellos | handshake.py:315-328 | the client goes on with exactly the hellos of version 1 with its own selection and a payload it takes |
| HandshakeWire.OnlyConfirmationsAreAccepted | handshake.py:335-423 | either side goes on with exactly "Finished" and its own transcript hash |
| HandshakeWire.ServerAcceptsDevices | handshake.py:428-445 | a device is accepted exactly with keys of 32 bytes and a signature over this session and both keys |
| HandshakeWire.ClientAcceptsAcks | handshake.py:355-358 | the client ends with a tag exactly if an acknowledgement with that tag, not empty, opens |
| LawfulCrypto.SomeConfigIsValid | handshake.py:33-40 | for every key exchange, cipher and tag there are two sides that meet what the theorems ask for |
| HandshakeSides.ServerHandshake | handshake.py:371-458 | on every incoming stream the program succeeds exactly when its half of the state machine does with the stream's frames and all it sends fits a frame; it then returns two ciphers with that session's keys and counters, has written exactly the machine's frames, and has read three frames and not a byte more |
| HandshakeSides.ClientHandshake | handshake.py:292-368 | the same for the client |
| HandshakeSides.ServerMeetsClient | handshake.py:371-458 | given the frames of a client it answers, with anything behind them, the server's half ends in the agreed session and leaves the rest of the stream unread |
| HandshakeSides.ClientMeetsServer | handshake.py:292-368 | the same for the client given the server's frames |
| HandshakeProtocol.BindingInjective | handshake.py:288-289 | the signed bytes fix the transcript, both device keys and the two nonces together, and each nonce once one of their lengths agrees |
| HandshakeProtocol.AcceptedDeviceSignedThisSession | handshake.py:425-442 | if the signatures presented are not forged, the server accepts a device only in a session whose transcript and nonces that device signed, whatever nonce a client sends |
| HandshakeProtocol.GenuineDeviceIsAccepted | handshake.py:340-355 | a genuine device meets those hypotheses and is accepted |
| GroupState.SealedOpens | chat/chat_agent.py:96-125 | what is sealed to a member's key opens with it, under a key derived from the shared secret for the purpose and both public keys |
| GroupState.EveryMemberOpens | chat/chat_agent.py:196-200 | every listed member finds the group key in its envelope |
| GroupState.CryptoAgent.CreateGroupState | chat/chat_agent.py:182-204 | publishes one envelope per member and installs its own state, or changes nothing; it succeeds exactly for a list with the creator in it, whole keys, an envelope the creator can open, and an epoch not older than the one held |
| GroupState.CryptoAgent.InstallGroupState | chat/chat_agent.py:206-222 | accepts exactly openable states that are not older than the one held, in memory and on disk |
| GroupState.Member.HoldsHighestEpoch | chat/chat_agent.py:217-222 | after any deliveries a member holds a state of the highest epoch it was given, and one exactly if it was given one |
| GroupState.Member.HoldsLastOfHighest | chat/chat_agent.py:217-222 | of the announcements of the highest epoch it holds the one that came last |
| GroupState.UnnamedIsGeneral | chat/chat_agent.py:207 | an announcement without a group id is for the group "general" |
| GroupState.CreatedStateOpensAlike | chat/chat_agent.py:182-215 | a created state opens to one and the same for every listed member |
| GroupState.MembersConverge | chat/chat_agent.py:206-222 | members given parts of one log with one state per epoch, in any order, with duplicates and omissions, hold the same state of a group once the latest one that either can open is the same; members may join and leave between epochs |
| GroupState.LatestIsHeld | chat/chat_agent.py:217-222 | what a member holds of a group is the latest announcement it was given and can open |
| GroupState.NewerEpochs | chat/chat_service.py:615-626 | a log that announces newer and newer epochs has one state per epoch |
| GroupState.MessageRoundTrip | chat/chat_agent.py:154-180 | sending works exactly with a state that has a key; members holding the same state read each other's messages, and at another epoch the message is refused |
| GroupState.OnlySealedMessagesOpen | chat/chat_agent.py:167-180 | a member reads exactly what was sealed under its own key for this group and epoch |
| GroupState.GroupAadInjective | chat/chat_agent.py:157 | the associated data fixes group and epoch |
| GroupState.RestartRestores | chat/chat_agent.py:62-83 | a restart restores the states, in any file order, if and only if every group names itself in a file of its own |
| GroupState.PlainIdsAreRestored | chat/chat_agent.py:62-83 | group ids without "/" and ".." are restored |
| GroupState.FilesStayInDirectory | chat/chat_agent.py:62-64 | whatever a group is called, its file name has no "/" and no ".." from it, and a plain name is kept |
| GroupState.SlashesShareAFile | chat/chat_agent.py:63 | two group ids can share one file |
| GroupState.RestartLosesAGroup | chat/chat_agent.py:62-83 | a member of groups "a/b" and "a_b" loses one of them at a restart |
| Base64.DecodeInvertsEncode | chat/chat_service.py:248-263 | decoding with rebuilt padding inverts unpadded URL-safe encoding (RFC 4648, sections 3.2 and 5) |
| Base64.EncodesSextets | chat/chat_service.py:248 | the text is, in order and in full, the digits of the groups of six bits in the alphabet of RFC 4648, section 5 |
| Base64.SkipsForeign | chat/chat_service.py:262-263 | the decoder skips characters of no alphabet wherever they stand |
| Base64.PaddingMustBeWhole | chat/chat_service.py:262-263 | a group that ends early needs all its padding |
| Texts.ParseInvertsDecimal | chat/chat_service.py:267 | a printed expiry reads back |
| Texts.ParsesDigitsOnly | chat/chat_service.py:267 | exactly texts of digits, at least one, are numbers |
| Texts.SplitIsUnique | chat/chat_service.py:257-264 | splitting at the last dot gives back the two halves whenever the second has none |
| SessionCookie.Service.CookieRoundTrip | chat/chat_service.py:246-269 | a cookie names its tag up to the expiry it encodes and nothing afterwards |
| SessionCookie.Service.AcceptedExactly | chat/chat_service.py:252-269 | a cookie gives a tag exactly if its signature is that of its text, its text ends in a dot and digits after that tag, and the expiry they name is not past; it raises exactly if authentic with an expiry that is no number |
| SessionCookie.Service.AcceptedPayloads | chat/chat_service.py:254-269 | an accepted cookie carries the keyed hash of its payload, and over a payload made for a tag it stands for that tag until that payload's expiry only |

## Left out

- Next: a read that times out only polls again and is not modelled.
- RoutePeer: which addresses are registered at each lookup is an input, one set per packet (`StreamRoutedInEveryRun` ties them to a run of the server); sending to the destination peer is `SendPacket` and `SendLock`, and a send that fails ends the run there.
- EveryInterleavingIsReceived: the cipher's own inner lock is subsumed by the peer's lock; a socket error in the middle of a write ends the run.
- RegisterOrGet: its contract is for an undisturbed call; `RegisterLocked` and `PublishRegistration` are its two atomic parts. Random tags and clocks are parameters, names come stripped of blanks.
- CookieTag: `int()` is modelled on plain digits, the only texts an authentic payload holds; other texts count as the exception they mostly are. Tags are given by their UTF-8 bytes.
- CompatibleSidesAgree: both sides do device authentication, as the deployed programs do, and a client whose library lacks ML-KEM, which raises before it sends anything, is not modelled. JSON and base64 text coding of messages is one encode/decode pair with a round-trip law.
- AcceptedDeviceSignedThisSession: that SHA-256 has no collisions is not assumed, so nonces of other lengths are told apart only by the transcript hash.
- GroupDecrypt: the `kind` and `alg` markers of envelopes, direct messages and files, which use the same sealing.
- StatePath: file systems' own limits on names; a failing write ends the run.
- NoMessageIsMissed: one push to a closed socket is lost with the socket; the snapshot is then taken by the next connection.
- `start_server_tun_router` and the client's egress filter: one lookup or one comparison per packet, like the peer's loop.
- Cryptographic internals: AES-GCM, ChaCha20-Poly1305, X25519, P-256, RSA, ML-KEM, SHA-256, HKDF, HMAC and Ed25519 appear by their laws only; plaintext limits of the library are not modelled.
- Kafka polling, quiet periods, readiness events and publish failures: only the order in which records are applied matters here.
- The `peer_leave` event and the server's group epoch: a replacement that leaves first makes two leave events, and a lagging consumer can move the epoch back, so neither has an invariant to state.
- TUN devices, routes, NAT, argument parsing, object stores, the HTTP layer and the web page: plumbing.
- General and group history buffers, group directory and challenge pruning: bounded lists and last-writer-wins maps that would only add easy members.
