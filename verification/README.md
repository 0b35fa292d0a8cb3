# Verified model of the post-quantum messenger

The messenger's core is written in Rust. This project models, in Dafny, the parts of it whose
correctness spans several functions or whole runs, and proves what those parts promise:

- **Private groups** (`Members`, `MemberCodec`, `Normalize`, `Group`, `GroupObject`, `GroupPayload`,
  `GroupPackages`, `GroupTransitions`, `GroupMessages`, `Contexts`): the member vector, the epoch
  counter and the attributes, changed by add, remove and update; snapshots, invite packages, join
  packages and share links; per-epoch credentials; epoch-bound signed messages; key infos and
  associated data.
- **Sessions** (`Ratchet`, `Session`, `PqRatchet`, `DirectSession`, `Conversation`, `RemoteKeys`,
  `SharedRoots`, `EndToEnd`): the receiving chain, the bounded store of skipped message keys, the
  post-quantum ratchet, encrypting and decrypting, two sessions talking over a network that delays, drops,
  repeats and reorders, which keys they aim at and what their roots become, and the way there from a
  prekey bundle.
- **Handshake** (`Handshake`): the PQXDH-style key agreement, its wire message and its associated data.
- **Key transparency** (`MerkleTree`, `ProofEvaluation`, `TransparencyLog`): the Merkle log, inclusion
  proofs and consistency proofs in the sense of section 2.1 of RFC 6962.
- **Contact discovery** (`PrimeField`, `Discovery`): blind, evaluate, check, unblind.
- **Client state** (`Archive`, `ReplayGuard`, `Expiring`, `ProofOfWork`, `RecipientHash`): the message
  archive and the inbox replay guard, both bounded lists that expire; the registration proof of work; the
  group relay hash.
- **Layers below** (`Tlv`, `Padding`, `Bytes`, `Text`, `Modular`, `Library`, `KeyAgreement`, `Core`).

Reading guide. Code that changes things step by step is modelled by a class or by a method with a
loop, proved equal to a function; the theorems are about that function. Strings are sequences of
UTF-8 bytes and are ordered bytewise, as Rust orders them. Library routines (hashes, key derivation,
sealing, signatures, Diffie-Hellman, KEM, trimming, group encodings) are parameters: a record of
functions whose correctness laws (opening undoes sealing, a signature made verifies, both sides of
Diffie-Hellman agree, decapsulation undoes encapsulation, a well-formed key decapsulates every
ciphertext to something, Diffie-Hellman values and KEM secrets have 32 bytes) form a subset type with a
proved witness. The theorems on what acceptance of a handshake message, a session message, a group
message, an invite or a link means use routines that bind their inputs, as free constructors do: what
opens was sealed so, and sealings and derived keys determine what went in; that family has a proved
witness too. Nothing else is presumed about secrecy or unforgeability. Random values and clock readings are
parameters. Merkle hashes are free terms.

Where the code and its description differ, the model follows the code:

- The comment on consistency proofs names RFC 6962, and the verifier does follow it
  (`TransparencyLog.AcceptedConsistencyMeansPrefix`, `TransparencyLog.SubProofVerifies`). The split point
  used to *build* proofs is half of what RFC 6962 asks for unless the size is a power of two
  (`TransparencyLog.CodeSplitExact`). So a built proof is accepted exactly when nothing was appended, the
  new size is a power of two, or the last third of the log repeats the first and the old size lies inside
  the middle third (`TransparencyLog.BuiltProofExact`); three leaves are the smallest refused case
  (`TransparencyLog.ThreeLeavesRefused`).
- Message associated data and member commitments join fields without length prefixes; they determine
  their fields exactly for group ids of equal length (`Contexts.MessageAadExact`,
  `Contexts.CommitmentExact`). Fetch and publish key infos determine theirs exactly when neither group
  id continues the other by a colon and a decimal number (`Contexts.MemberKeyInfoExact`).
- A session's Diffie-Hellman ratchet turns only when a message under another ratchet key arrives, and
  new ratchet keys are generated only when it turns. In a run of two matching sessions it therefore never
  turns (`Conversation.ConversationOpens`). A message under any other ratchet key starts a new chain even
  when the store still holds a key for it (`Session.OtherChainStartsOver`).
- The post-quantum step is checked after a message was opened. A message whose step is meant for a key
  that has left the history is refused and its message key is spent. With the shipped settings, five
  messages of one side lose an answer that was written without having received any of them
  (`Conversation.FiveSendsLoseTheAnswer`).
- A sender uses the one-time prekey of a bundle; the command-line receiver passes none, so it reads
  exactly the messages to bundles without one (`EndToEnd.ReceiverWithoutPrekey`).

## Model

| member | source | states |
|---|---|---|
| `Group.NewEstablishes` | crates/pqmsg-core/src/groups.rs:191-215 | a new group has epoch 1, satisfies the run invariant (ids strictly sorted, non-blank, some Owner), and its users are exactly the creator, as Owner, and the users of the initial list |
| `Group.CreatesExactly` | crates/pqmsg-core/src/groups.rs:191-215 | creation gives a state if and only if attributes and ids are acceptable and the state has epoch 1, the hex of the drawn id, the drawn secret, the attributes and time given, and lists exactly the users given with their strongest roles |
| `Group.AddMembers` | crates/pqmsg-core/src/groups.rs:573-607 | adding a member puts the role into the sorted vector in place, whatever path the code takes |
| `Group.AddRefines` | crates/pqmsg-core/src/groups.rs:573-607 | adding is a map update; it errs exactly for blank ids and otherwise returns whether the map changed |
| `Group.RemoveRefines` | crates/pqmsg-core/src/groups.rs:609-626 | removing is a map removal; it errs exactly for the least Owner and otherwise returns whether the map changed |
| `Group.StepRefines` | crates/pqmsg-core/src/groups.rs:573-640 | every step keeps the run invariant, refines the step on the map user to role, and never moves the protected owner to a larger id |
| `Group.RunRefines` | crates/pqmsg-core/src/groups.rs:573-640 | the same over every run: the vector is the sorted listing of the abstract map, an Owner remains, the protected owner id never grows |
| `Group.StepEpoch` | crates/pqmsg-core/src/groups.rs:699-702 | a step that returned true advances the epoch by one, saturating, and leaves its time; any other step changes no field; group id, secret and creation time never change |
| `Group.EpochCountsChanges` | crates/pqmsg-core/src/groups.rs:573-640 | after every run the epoch is the start epoch plus the number of steps that returned true, capped at 2^64-1, and the update time is that of the last such step |
| `Group.NoChangeNoEffect` | crates/pqmsg-core/src/groups.rs:573-640 | a run in which no step returned true leaves the whole state as it was |
| `Group.SameEpochSameState` | crates/pqmsg-core/src/groups.rs:699-702 | two states of one run with the same unsaturated epoch are identical |
| `GroupObject.PrivateGroupState.AddMember` | crates/pqmsg-core/src/groups.rs:573-607 | in place: result and new fields are those of the specified step |
| `GroupObject.PrivateGroupState.RemoveMember` | crates/pqmsg-core/src/groups.rs:609-626 | in place: result and new fields are those of the specified step |
| `GroupObject.PrivateGroupState.UpdateAttributes` | crates/pqmsg-core/src/groups.rs:628-640 | in place: result and new fields are those of the specified step |
| `GroupObject.PrivateGroupState.OwnerUserId` | crates/pqmsg-core/src/groups.rs:691-697 | the scan returns the first Owner in id order, or the empty id |
| `GroupObject.Drive` | crates/pqmsg-core/src/groups.rs:573-640 | calling the methods one after the other reaches the state of the specified run |
| `Members.PutRefines` | crates/pqmsg-core/src/groups.rs:582-606 | placing a member keeps the vector strictly sorted and is a map update |
| `Members.WithoutRefines` | crates/pqmsg-core/src/groups.rs:617-625 | filtering a user out keeps the vector strictly sorted and is a map removal |
| `Members.PushAndSortIsPut` | crates/pqmsg-core/src/groups.rs:598-604 | pushing a new member and sorting by id equals placing it in order |
| `Members.SameMapSameVector` | crates/pqmsg-core/src/groups.rs:1010-1037 | two sorted vectors with the same role map are equal |
| `Members.OwnerIsLeast` | crates/pqmsg-core/src/groups.rs:691-697 | the first Owner found has the least id of all Owners |
| `Normalize.NormalizeLoop` | crates/pqmsg-core/src/groups.rs:1010-1037 | the map-filling loop computes the normalised list, or the first error |
| `Normalize.NormalizeMeaning` | crates/pqmsg-core/src/groups.rs:1010-1045 | succeeds exactly when no id is blank; then lists, sorted, every user with the highest role over all occurrences, the owner forced to Owner |
| `Normalize.NormalizedRoles` | crates/pqmsg-core/src/groups.rs:1010-1045 | in the result a user is Owner if and only if it is the owner or occurs as Owner, Admin if and only if it occurs as Admin and is not that, and is present if and only if it is the owner or occurs |
| `Normalize.NormalizeIgnoresOrder` | crates/pqmsg-core/src/groups.rs:1010-1037 | lists with the same entries, in any order and multiplicity, normalise alike |
| `Normalize.NormalizeIdentity` | crates/pqmsg-core/src/groups.rs:1010-1037 | it is the identity on every sorted vector without blank ids in which the owner is an Owner, so on every vector of a run |
| `Normalize.NormalizeIdempotent` | crates/pqmsg-core/src/groups.rs:1010-1037 | normalising twice is normalising once |
| `Group.NormalizedIsGood` | crates/pqmsg-core/src/groups.rs:1010-1037 | whatever list was decoded, its normal form satisfies the run invariant |
| `MemberCodec.EncodeLoop` | crates/pqmsg-core/src/groups.rs:1146-1171 | the buffer-growing loop computes the encoding, with the same errors |
| `MemberCodec.ReadEntry` | crates/pqmsg-core/src/groups.rs:1181-1203 | one entry read at a cursor, every access in bounds |
| `MemberCodec.DecodeLoop` | crates/pqmsg-core/src/groups.rs:1173-1207 | the cursor loop computes the decoding, with the same errors, and rejects trailing bytes |
| `MemberCodec.EncodesWhen` | crates/pqmsg-core/src/groups.rs:1146-1171 | a list is encodable exactly when its length and ids fit and no id is blank |
| `MemberCodec.DecodeOfEncode` | crates/pqmsg-core/src/groups.rs:1146-1207 | decoding undoes encoding for every encodable list of text ids |
| `MemberCodec.EncodeOfDecode` | crates/pqmsg-core/src/groups.rs:1146-1207 | every accepted byte string with non-blank ids re-encodes to itself |
| `GroupPayload.PayloadRoundTrip` | crates/pqmsg-core/src/groups.rs:1047-1144 | decoding an encoded state gives back the same state |
| `GroupPayload.AcceptedPayloadIsGood` | crates/pqmsg-core/src/groups.rs:1091-1144 | any accepted payload yields a state with the run invariant and the given group, epoch and secret |
| `GroupPayload.ExportsWhen` | crates/pqmsg-core/src/groups.rs:1047-1089 | a state of a run can be encoded exactly when its fields fit 16-bit lengths |
| `GroupPackages.InviteRoundTrip` | crates/pqmsg-core/src/groups.rs:358-390 | every exportable state exports an invite that restores the same state |
| `GroupPackages.JoinRoundTrip` | crates/pqmsg-core/src/groups.rs:424-456 | a join package restores the same state and the same credential |
| `GroupPackages.JoinForMemberRoundTrip` | crates/pqmsg-core/src/groups.rs:399-415 | the same for a package issued by user id, which succeeds exactly for members |
| `GroupPackages.MemberCredential` | crates/pqmsg-core/src/groups.rs:656-677 | an issued credential carries the member's role, the group and the epoch |
| `GroupPackages.IssuesExactly` | crates/pqmsg-core/src/groups.rs:656-677 | a credential is issued for every non-blank user id, with the role asked for, except that the Owner with the least id always gets Owner |
| `GroupPackages.LinkRoundTrip` | crates/pqmsg-core/src/groups.rs:789-848 | a share link opened with its secret gives back the join package |
| `GroupPackages.ExportThroughLink` | crates/pqmsg-core/src/groups.rs:424-456 | export, seal for a link, open, restore: the same state and credential at the far end |
| `GroupPackages.AcceptedInviteIsGood` | crates/pqmsg-core/src/groups.rs:536-571 | any accepted invite yields a state with the run invariant and the package's group and epoch |
| `GroupPackages.AcceptedInviteIsExported` | crates/pqmsg-core/src/groups.rs:358-390 | an accepted invite with the nonce and ciphertext of an exported one is that very package and restores the state exported |
| `GroupPackages.AcceptedJoinIsGood` | crates/pqmsg-core/src/groups.rs:756-783 | any accepted join package yields such a state and a credential of a real member with that role and epoch |
| `GroupPackages.OpenedLinkIsGood` | crates/pqmsg-core/src/groups.rs:815-848 | any opened link yields a package of the link's group and epoch that restores to such a state |
| `GroupPackages.OpenedLinkIsShared` | crates/pqmsg-core/src/groups.rs:789-848 | whoever opens a link with the nonce and ciphertext of a shared one used its secret on that very envelope and got the package shared |
| `GroupPackages.SnapshotHidesLength` | crates/pqmsg-core/src/groups.rs:358-378 | a snapshot's length shows only how many 256-byte blocks the payload fills |
| `GroupTransitions.AddTransition` | crates/pqmsg-core/src/groups.rs:472-504 | succeeds exactly when the map changes and the next state is exportable; then one credential per member and a join package that restores the next state and the new member's credential |
| `GroupTransitions.RemoveTransition` | crates/pqmsg-core/src/groups.rs:514-534 | succeeds exactly for a member who is not the protected owner; then one credential per remaining member, none for the removed user |
| `GroupTransitions.IssueAllMatches` | crates/pqmsg-core/src/groups.rs:679-689 | one credential per member in order, with matching id, role, group and epoch |
| `GroupMessages.SplitOfJoin` | crates/pqmsg-core/src/pq_sig.rs:217-238 | splitting a joined hybrid signature gives back both parts |
| `GroupMessages.SignedMessageVerifies` | crates/pqmsg-core/src/groups.rs:246-298 | both signatures of a signed message verify over its transcript |
| `GroupMessages.SealedBodyOpens` | crates/pqmsg-core/src/groups.rs:300-356 | in a state of the same group, secret and epoch the sealed, padded body opens to the same text |
| `GroupMessages.DecryptsExactly` | crates/pqmsg-core/src/groups.rs:300-356 | any message whatsoever is accepted with a given content if and only if group and epoch are the receiver's, the sender is a member, the associated data is the expected one, the signature is longer than 64 bytes with the first 64 verifying as Ed25519 and the rest as post-quantum signature over the transcript, and the envelope carries that content |
| `GroupMessages.TranscriptInjective` | crates/pqmsg-core/src/groups.rs:917-954 | the signed transcript determines every field of the message but the signature |
| `GroupMessages.SharedSignatureBreaksBoth` | crates/pqmsg-core/src/groups.rs:300-356 | two different messages accepted with one signature mean that both signature schemes verify it for two different transcripts |
| `GroupMessages.OpensOnlyWithSecret` | crates/pqmsg-core/src/groups.rs:246-356 | a message opens only in a state with the group, epoch and root secret it was sealed in, and yields the body sent |
| `GroupMessages.OpensExactly` | crates/pqmsg-core/src/groups.rs:246-356 | a message is opened by another state of the group exactly when epochs agree and the sender is a member there, with equal body, sender and time |
| `GroupMessages.OpensInRun` | crates/pqmsg-core/src/groups.rs:246-356 | within one run, exactly when the unsaturated epochs are equal |
| `GroupMessages.EncryptsWhen` | crates/pqmsg-core/src/groups.rs:246-298 | exactly which senders, bodies and keys can be encrypted; bodies must stay below 65,280 bytes |
| `Contexts.ScopedInjective` | crates/pqmsg-core/src/groups.rs:1231-1242 | snapshot associated data and snapshot, message and link key infos determine group id and epoch, for all group ids |
| `Contexts.LinkInviteAadInjective` | crates/pqmsg-core/src/groups.rs:897-903 | link associated data determines group id and epoch, for all group ids |
| `Contexts.HandleInputInjective` | crates/pqmsg-core/src/groups.rs:706-716 | the membership handle's hash input determines group id, epoch, role and secret |
| `Contexts.MessageAadInjective` | crates/pqmsg-core/src/groups.rs:905-915 | for group ids of equal length, message associated data determines all four fields |
| `Contexts.MessageAadCollision` | crates/pqmsg-core/src/groups.rs:905-915 | for any two different id lengths there are two field tuples with the same associated data |
| `Contexts.MessageAadExact` | crates/pqmsg-core/src/groups.rs:905-915 | so it is injective on a pair of id lengths if and only if they are equal |
| `Contexts.CommitmentInputInjective` | crates/pqmsg-core/src/groups.rs:718-729 | for group ids of equal length, the commitment's hash input determines all its fields |
| `Contexts.CommitmentCollision` | crates/pqmsg-core/src/groups.rs:718-729 | for any two different id lengths there are two field tuples with the same input |
| `Contexts.CommitmentExact` | crates/pqmsg-core/src/groups.rs:718-729 | so it is injective on a pair of id lengths if and only if they are equal |
| `Contexts.MemberKeyInfoExact` | crates/pqmsg-core/src/groups.rs:731-752 | fetch and publish infos of two group ids never meet wrongly if and only if neither id continues the other by a colon and a decimal number |
| `Contexts.ColonFreeNeverContinues` | crates/pqmsg-core/src/groups.rs:731-752 | group ids without a colon always satisfy that condition |
| `Contexts.FetchIsNeverPublish` | crates/pqmsg-core/src/groups.rs:731-752 | a fetch key info is never a publish key info, whatever the fields |
| `Contexts.KeyInfosDiffer` | crates/pqmsg-core/src/groups.rs:879-895 | snapshot, message and link key infos never coincide, whatever the fields |
| `Session.ReceivingSession.NextMessageKey` | crates/pqmsg-core/src/ratchet/mod.rs:50-68 | one chain step in place; the largest counter value has no key |
| `Session.ReceivingSession.SkipTo` | crates/pqmsg-core/src/session.rs:666-672 | the skipping loop in place reaches the specified state |
| `Session.ReceivingSession.CurrentKey` | crates/pqmsg-core/src/session.rs:614-623 | the key of a message of the current chain, in place: taken from the store, or after skipping |
| `Session.ReceivingSession.MessageKey` | crates/pqmsg-core/src/session.rs:603-623 | the key selection of decrypt, in place, with a new chain or not |
| `Session.AnyOrderDelivery` | crates/pqmsg-core/src/session.rs:603-672 | after any arrivals in any order a message number gets a key if and only if it has not arrived and at each arrival at most the store's capacity of numbers from it on were outstanding; the key is the sender's |
| `Session.WindowIsSpared` | crates/pqmsg-core/src/session.rs:666-672 | so it gets it whenever no arrival was more than the capacity ahead |
| `Session.WindowIsExact` | crates/pqmsg-core/src/session.rs:666-672 | when message t is the first to arrive, an earlier one can be opened if and only if it is at most the capacity behind |
| `Session.RunKeeps` | crates/pqmsg-core/src/session.rs:603-672 | over every run the store holds exactly the numbers passed, not arrived and spared, in order, with the sender's keys |
| `Session.OtherChainStartsOver` | crates/pqmsg-core/src/session.rs:603-607 | a message under any other ratchet key gets a key of a fresh chain, never a stored one |
| `Session.OldChainIsKept` | crates/pqmsg-core/src/session.rs:603-672 | when a new ratchet key arrives with its first message, the store holds of the old chain exactly the outstanding numbers up to its announced length that the capacity allows, with the sender's keys |
| `PqRatchet.PqRatchetState.CommitLocalKeyRotation` | crates/pqmsg-core/src/ratchet/pq.rs:55-71 | in place: the new key becomes current, the old one heads the history, the history is cut to its maximum |
| `PqRatchet.PqRatchetState.SelectLocalSecretKey` | crates/pqmsg-core/src/ratchet/pq.rs:84-102 | the scan over current key and history finds the first key with the target hash |
| `PqRatchet.RotateKeepsKeyring` | crates/pqmsg-core/src/ratchet/pq.rs:55-71 | current key and history stay the latest keys ever made, in order |
| `PqRatchet.SelectsExactly` | crates/pqmsg-core/src/ratchet/pq.rs:84-102 | a local key can be selected if and only if it was made at most `max_key_history` rotations ago |
| `PqRatchet.StepsAtMultiples` | crates/pqmsg-core/src/ratchet/pq.rs:46-48 | steps are made exactly at every interval-th message |
| `DirectSession.SessionState.EncryptMessage` | crates/pqmsg-core/src/session.rs:460-549 | in place: message and new state are the specified ones, on every error path too |
| `DirectSession.SessionState.FindKey` | crates/pqmsg-core/src/session.rs:701-728 | in place: key selection with the Diffie-Hellman ratchet turned when the header asks for it |
| `DirectSession.SessionState.DecryptMessage` | crates/pqmsg-core/src/session.rs:551-664 | in place: plaintext or error and the new state are the specified ones; the post-quantum step comes after opening |
| `DirectSession.SessionAdInjective` | crates/pqmsg-core/src/session.rs:730-787 | the associated data of a message determines version, suite, header, post-quantum step and external data |
| `DirectSession.DecryptedIsSent` | crates/pqmsg-core/src/session.rs:460-664 | whoever decrypts a message with the nonce and ciphertext of one sent, with whatever header, step and external data and in whatever state, has it as it was sent, with its plaintext and the sender's message key |
| `DirectSession.TurnAgrees` | crates/pqmsg-core/src/session.rs:701-728 | after a turn of the Diffie-Hellman ratchet the next message carries the new public key, number 0 and the length of the chain ended, and the other side selects for it the key it was sealed under; the next post-quantum key announced counts whatever its number |
| `Ratchet.SkippedMessageKeys.InsertKey` | crates/pqmsg-core/src/ratchet/mod.rs:92-108 | queue and table in place: known ids ignored, oldest evicted when full |
| `Ratchet.SkippedMessageKeys.TakeKey` | crates/pqmsg-core/src/ratchet/mod.rs:110-115 | returns and removes the entry of the id, all others and their order kept |
| `Ratchet.SkippedMessageKeys.Restore` | crates/pqmsg-core/src/ratchet/mod.rs:131-137 | rebuilding from a list inserts it entry by entry |
| `Ratchet.RestoreKeepsEntries` | crates/pqmsg-core/src/ratchet/mod.rs:121-137 | a store rebuilt from its own entries is the same store |
| `Conversation.EveryRunIsSynchronised` | crates/pqmsg-core/src/session.rs:460-664 | over every run each receiver is where the deliveries lead it on the sender's chain, every message is sealed under its chain key with a step meant for a key of the receiver, and both key rings hold the latest keys |
| `Conversation.StepExactly` | crates/pqmsg-core/src/ratchet/pq.rs:133-149 | a step meant for a key of the receiver succeeds if and only if that key was made at most `max_key_history` rotations ago |
| `Conversation.ConversationOpens` | crates/pqmsg-core/src/session.rs:460-664 | in every state of every run a delivered message opens, to what was sealed, if and only if it was not delivered before, its number was spared at every delivery, and the key its step is meant for was made at most `max_key_history` rotations ago; the Diffie-Hellman ratchet never turns |
| `Conversation.CapacityIsCapped` | crates/pqmsg-core/src/ratchet/mod.rs:82-90 | over every run each side keeps the capacity for skipped numbers it was set up with, capped at 2,048 |
| `RemoteKeys.RemoteKeyIsLatest` | crates/pqmsg-core/src/ratchet/pq.rs:73-82 | in every state of every run each side encapsulates to the key announced by the highest-numbered message it opened, or to the key it started with if none counts |
| `RemoteKeys.TurnsAlwaysOpen` | crates/pqmsg-core/src/session.rs:460-664 | in every run in which a side sends only after receiving everything sent to it, in order, every delivered message opens, however long the turns, and a side that has received everything knows the newest key of the other |
| `RemoteKeys.AnswerOpens` | crates/pqmsg-core/src/session.rs:460-664 | in such a run, when everything was delivered, the next message of either side is meant for the newest key of the other and opens |
| `Conversation.OvertakenAnswerIsLost` | crates/pqmsg-core/src/session.rs:648-661 | an answer to a side that has since rotated more than `max_key_history` times is refused although its message key is found and spent |
| `Conversation.FiveSendsLoseTheAnswer` | crates/pqmsg-cli/src/main.rs:3280-3293 | with the shipped interval 1 and history 4, five messages of one side are enough for that |
| `Conversation.PromptDeliveryKeepsRoots` | crates/pqmsg-core/src/ratchet/pq.rs:113-149 | a message delivered right after it was sent leaves both sides with equal roots if they had equal roots |
| `SharedRoots.TurnsShareRoots` | crates/pqmsg-core/src/ratchet/pq.rs:113-149 | in runs that take turns the roots are equal whenever nothing is under way; otherwise the sender's root is the receiver's with the secrets under way mixed in, in order |
| `EndToEnd.HandshakeThenConversation` | crates/pqmsg-cli/src/main.rs:2657-2678 | Bob reads Alice's message to a bundle of his keys if and only if the one-time prekey is used by both or neither; then, in every state of every run of the sessions set up from it with the shipped post-quantum state, messages open exactly as above |
| `EndToEnd.ReceiverWithoutPrekey` | crates/pqmsg-cli/src/main.rs:2660 | a receiver that passes no one-time prekey reads exactly the messages to bundles without one |
| `Handshake.KeyMaterialAgrees` | crates/pqmsg-core/src/handshake.rs:330-485 | both sides build the same key material when the bundle is Bob's and the one-time prekey is used by both or neither |
| `Handshake.KeyMaterialNeedsSameDh4` | crates/pqmsg-core/src/handshake.rs:330-485 | if only one side uses the one-time prekey the materials differ in length by 32 and never coincide |
| `Handshake.KeyMaterialsMeetExactly` | crates/pqmsg-core/src/handshake.rs:330-485 | two key materials with KEM secrets of one length coincide if and only if the three Diffie-Hellman values, the fourth if used by both or by neither, and the KEM secrets all agree |
| `Handshake.HandshakeAgrees` | crates/pqmsg-core/src/handshake.rs:330-485 | whatever Alice initiates with Bob's bundle, Bob recovers the payload and the same session key |
| `Handshake.HandshakeOverWire` | crates/pqmsg-core/src/handshake.rs:82-198 | the same with the initial message encoded and decoded in between |
| `Handshake.MessageRoundTrip` | crates/pqmsg-core/src/handshake.rs:82-198 | decoding undoes encoding, with and without the one-time prekey id |
| `Handshake.DecodedIsTyped` | crates/pqmsg-core/src/handshake.rs:134-198 | whatever bytes decode, the message has its fields at their widths, and re-encoding it reads back |
| `Handshake.AssociatedDataInjective` | crates/pqmsg-core/src/handshake.rs:288-327 | equal associated data means all seven fields agree |
| `Handshake.InitiatesExactly` | crates/pqmsg-core/src/handshake.rs:330-414 | Alice sends if and only if the bundle has version 1, both prekeys are signed under its signature key for their own label, her secret has 32 bytes, the post-quantum prekey takes an encapsulation and the authenticated fields fit |
| `Handshake.AcceptedMessageIsAlices` | crates/pqmsg-core/src/handshake.rs:416-485 | whoever accepts a message with the nonce and ciphertext of Alice's, whatever the other fields and keys, accepts her header fields, payload and session key, has the identity key of her bundle, and computed every Diffie-Hellman value and the KEM secret that she computed |
| `Handshake.AcceptsWhenSecretsMeet` | crates/pqmsg-core/src/handshake.rs:416-485 | such a message is accepted if and only if every field she authenticated is untouched, the acceptor has the identity key of her bundle, its keys have 32 bytes and every secret value comes out as hers |
| `Handshake.TamperedCapsule` | crates/pqmsg-core/src/handshake.rs:416-485 | with the capsule replaced, her message is accepted if and only if the replacement decapsulates to the secret she encapsulated |
| `Handshake.AcceptsExactly` | crates/pqmsg-core/src/handshake.rs:330-485 | Bob accepts Alice's message to a bundle of his keys if and only if both use the bundle's one-time prekey or neither does |
| `Handshake.SignatureMessageInjective` | crates/pqmsg-core/src/handshake.rs:487-506 | the signed prekey message determines version, label and key |
| `Handshake.SpkIsNeverPqspk` | crates/pqmsg-core/src/handshake.rs:213-225 | what is signed for a classical prekey is never what is signed for a post-quantum one |
| `MerkleTree.NextLevel` | crates/pqmsg-core/src/key_transparency.rs:308-316 | the loop over pairs computes the next level |
| `MerkleTree.BuildTreeRoot` | crates/pqmsg-core/src/key_transparency.rs:302-320 | the bottom-up construction computes the top-down root of RFC 6962 |
| `MerkleTree.RootInjective` | crates/pqmsg-core/src/key_transparency.rs:302-320 | trees of the same size with the same root have the same leaves |
| `MerkleTree.BuildInclusionProof` | crates/pqmsg-core/src/key_transparency.rs:325-360 | the level loop computes the path of a leaf, and nothing for an index out of range |
| `MerkleTree.VerifyInclusionProof` | crates/pqmsg-core/src/key_transparency.rs:128-153 | accepts exactly the signed heads whose root the path climbs to; an unsigned head is told apart |
| `MerkleTree.InclusionProofVerifies` | crates/pqmsg-core/src/key_transparency.rs:325-360 | the path built for any leaf of any tree climbs to the root |
| `MerkleTree.PathIsAudit` | crates/pqmsg-core/src/key_transparency.rs:325-360 | the path built level by level is the audit path of section 2.1.1 of RFC 6962 |
| `MerkleTree.AcceptedInclusionIsMember` | crates/pqmsg-core/src/key_transparency.rs:128-153 | an accepted path for a leaf hash means the leaf is in the tree |
| `MerkleTree.InclusionExactly` | crates/pqmsg-core/src/key_transparency.rs:128-153 | for a leaf hash a path climbs to the root if and only if it is the path built for a position that holds the leaf |
| `ProofEvaluation.EvaluateProofLoop` | crates/pqmsg-core/src/key_transparency.rs:228-297 | the loop over the bits of both sizes computes the specified evaluation |
| `ProofEvaluation.IterateIsRecurse` | crates/pqmsg-core/src/key_transparency.rs:246-297 | the bit-driven evaluation equals the recursion on the tree, for all sizes and all hashes |
| `TransparencyLog.AcceptedConsistencyMeansPrefix` | crates/pqmsg-core/src/key_transparency.rs:167-224 | whatever proof is accepted, the old leaves are the first leaves of the new tree and the epoch did not go back |
| `TransparencyLog.SubProofVerifies` | crates/pqmsg-core/src/key_transparency.rs:228-297 | the proof of RFC 6962 evaluates to both roots for every tree and every proper prefix |
| `TransparencyLog.ProofIsUnique` | crates/pqmsg-core/src/key_transparency.rs:228-297 | no other proof evaluates to both roots |
| `TransparencyLog.ConsistencyExactly` | crates/pqmsg-core/src/key_transparency.rs:167-224 | consistency is accepted if and only if both heads are signed, the epoch did not go back, the proof names both sizes, the old leaves are the first of the new ones and, unless nothing was appended, the hashes are the proof of RFC 6962 |
| `TransparencyLog.CodeSplitExact` | crates/pqmsg-core/src/key_transparency.rs:427-431 | the computed split point is the largest power of two below n if and only if n is a power of two |
| `TransparencyLog.BuiltProofExact` | crates/pqmsg-core/src/key_transparency.rs:364-425 | a built proof is accepted if and only if nothing was appended, the new size is a power of two, or the log is three equal parts, the last repeats the first and the old size lies inside the middle one |
| `TransparencyLog.DistinctProofExact` | crates/pqmsg-core/src/key_transparency.rs:364-425 | for distinct leaves: if and only if nothing was appended or the new size is a power of two |
| `TransparencyLog.SixLeavesAccepted` | crates/pqmsg-core/src/key_transparency.rs:389-431 | six leaves that repeat the first two are the smallest case of the third kind |
| `TransparencyLog.ThreeLeavesRefused` | crates/pqmsg-core/src/key_transparency.rs:389-431 | the proof built from one leaf to three is refused |
| `Discovery.DecodeHexLoop` | crates/pqmsg-android/src/lib.rs:1592-1610 | the array-filling loop decodes 64 hex digits and refuses anything else |
| `Discovery.DecodeHexOfEncode` | crates/pqmsg-android/src/lib.rs:3786-3794 | hex decoding undoes hex encoding of any 32 bytes |
| `Discovery.EncodeOfHexDecode` | crates/pqmsg-android/src/lib.rs:1592-1610 | encoding what was decoded gives the digits back in lower case |
| `Discovery.PrepareBlindRequest` | crates/pqmsg-android/src/lib.rs:1660-1691 | succeeds exactly for at most 2,048 well-formed handles and returns every handle's point times its blind |
| `Discovery.VerifyAndFinalizeLoop` | crates/pqmsg-android/src/lib.rs:1737-1832 | the loop over elements computes the tokens or the first error, as specified |
| `Discovery.VerifiesExactly` | crates/pqmsg-android/src/lib.rs:1737-1832 | an element is accepted with a given token if and only if all its bytes read, the challenge is the hash of this very transcript, both equations hold, the blind is not zero and the token is that of the unblinded point |
| `Discovery.FinalizesExactly` | crates/pqmsg-android/src/lib.rs:1737-1832 | a response is accepted with given tokens if and only if it names the per-element mode, the counts agree, the public key reads and every element is accepted with its token |
| `Discovery.HonestProofChecks` | crates/pqmsg-android/src/lib.rs:1737-1832 | an honest evaluation proof passes the challenge and both equations |
| `Discovery.UnblindHonest` | crates/pqmsg-android/src/lib.rs:1819-1829 | unblinding leaves no trace of the blind |
| `Discovery.HonestRunYieldsTokens` | crates/pqmsg-android/src/lib.rs:1737-1832 | for all points, all non-zero blinds and every server key the verification accepts and token i is that of k times point i |
| `Discovery.DiscoverHonestly` | crates/pqmsg-android/src/lib.rs:1660-1832 | request, honest evaluation and verification together: they succeed exactly for at most 2,048 well-formed handles, and token i is that of k times the point of handle i, whatever the blinds |
| `Discovery.TwoTranscriptsForceEvaluation` | crates/pqmsg-android/src/lib.rs:1811-1818 | two accepting transcripts with the same commitments and different challenges force evaluated = k times blinded |
| `Discovery.WrongEvaluationHasOneChallenge` | crates/pqmsg-android/src/lib.rs:1811-1818 | if the evaluated point is not k times the blinded one, at most one challenge can be answered with given commitments |
| `Discovery.AcceptedTokenIsRight` | crates/pqmsg-android/src/lib.rs:1737-1832 | one accepted element, whatever server sent it: its token is that of k times the handle's point, or the hash of its transcript hit the only challenge that any response could answer |
| `Discovery.ForkedProofFixesToken` | crates/pqmsg-android/src/lib.rs:1737-1832 | a proof accepted under two challenge hashes fixes the client's token, whatever was evaluated |
| `RecipientHash.FeedRecipients` | crates/pqmsg-android/src/lib.rs:799-824 | collecting, sorting and feeding the hash produces the specified input |
| `RecipientHash.SortedCanonical` | crates/pqmsg-android/src/lib.rs:799-824 | sorting by id gives a canonical form |
| `RecipientHash.HashInputExact` | crates/pqmsg-android/src/lib.rs:799-824 | for distinct NUL-free ids the hash inputs are equal if and only if the lists are permutations |
| `Archive.MessageStore.PruneStore` | crates/pqmsg-cli/src/main.rs:4471-4479 | in place: keeps the unexpired records in order, then the last 10,000 |
| `Archive.MessageStore.AppendRecord` | crates/pqmsg-cli/src/main.rs:4481-4496 | in place: load-prune, stamp, push, prune |
| `Archive.MessageStore.DeleteRecords` | crates/pqmsg-cli/src/main.rs:4498-4514 | in place: removes exactly the selected records, returns their positive ids, increasing and without repetition |
| `Archive.NormalizeIds` | crates/pqmsg-cli/src/main.rs:3365-3370 | the ids given, increasing and without repetition |
| `Archive.ArchiveIsLastUnexpired` | crates/pqmsg-cli/src/main.rs:4438-4496 | with a fixed retention and a clock that never goes back, the archive is the last 10,000 unexpired records of everything ever appended |
| `Archive.RecordStaysUntil` | crates/pqmsg-cli/src/main.rs:4438-4496 | the record of an append is there, as given and stamped, if and only if the retention has not passed since it was stored and fewer than 10,000 were appended after it |
| `Archive.KeepsExactly` | crates/pqmsg-cli/src/main.rs:4498-4514 | deleting keeps a record if and only if it is of another peer or beyond the id bound |
| `ReplayGuard.InboxState.Poll` | crates/pqmsg-cli/src/main.rs:2596-2773 | a poll saves exactly if no item ends it with an error; then cursor and guard are those of the run over its items; otherwise nothing changes |
| `ReplayGuard.PollItem` | crates/pqmsg-cli/src/main.rs:2618-2768 | one item: processed exactly when its id is new and its blob not remembered |
| `ReplayGuard.PollAll` | crates/pqmsg-cli/src/main.rs:2588-2773 | any number of polls: the saved guard is that of one run over the events of the saved polls |
| `ReplayGuard.ProcessedIdsIncrease` | crates/pqmsg-cli/src/main.rs:2618-2771 | over every run, processed ids of a sender strictly increase, so none is processed twice |
| `ReplayGuard.BlobReplayNeedsExpiry` | crates/pqmsg-cli/src/main.rs:2618-2771 | a blob is processed twice for a sender only if in between the clock reached its expiry or at least 512 blobs of the sender were processed |
| `ReplayGuard.BlobReplayAfterTtl` | crates/pqmsg-cli/src/main.rs:2618-2771 | with a clock that never goes back: only 86,400 seconds later, or after 512 blobs |
| `ReplayGuard.LastIdIsHighest` | crates/pqmsg-cli/src/main.rs:2618-2771 | over every run the last id of a sender is the highest of the starting one and all its ids so far |
| `ReplayGuard.NewMessagesAreProcessed` | crates/pqmsg-cli/src/main.rs:2618-2771 | whatever the clock does, an event whose id is higher than the starting one and all earlier ones of its sender, and whose blob is in no starting entry and no earlier event of the sender, is processed |
| `ReplayGuard.FirstContact` | crates/pqmsg-cli/src/main.rs:2618-2771 | the first event of a sender not met before is processed if and only if its id is positive |
| `ReplayGuard.ProcessedExactly` | crates/pqmsg-cli/src/main.rs:2618-2771 | with a clock that never goes back, an event is processed if and only if its id is that high and its blob is neither that of an unexpired starting entry nor one processed less than 86,400 seconds ago, with fewer than 512 blobs of the sender since |
| `ReplayGuard.RunsSaveOrdered` | crates/pqmsg-cli/src/main.rs:2618-2771 | every guard a run saves has at most 512 entries per sender, in the order of their expiry |
| `ProofOfWork.MaskMeaning` | crates/pqmsg-cli/src/main.rs:3251-3252 | the mask test on a byte is a numeric bound |
| `ProofOfWork.LeadingZerosExact` | crates/pqmsg-cli/src/main.rs:3233-3253 | the byte and mask test holds if and only if the digest, read as a big-endian number of L bytes, is below 2^(8L - bits) |
| `ProofOfWork.LeastCounter` | crates/pqmsg-cli/src/main.rs:3198-3218 | the search terminates by the 64-bit measure and finds the least counter that passes, or none does |
| `ProofOfWork.SolvePow` | crates/pqmsg-cli/src/main.rs:3198-3218 | returns the hex of the least counter whose digest is below the bound; errs above 26 bits or when no counter passes |
| `ProofOfWork.LowerHexExact` | crates/pqmsg-cli/src/main.rs:3198-3218 | the nonce spells the counter in lower-case hexadecimal without leading zeros |
| `ProofOfWork.PowMessageInjective` | crates/pqmsg-cli/src/main.rs:3220-3231 | for NUL-free fields the hashed message determines the request and the nonce |
| `Padding.PaddedLengthIsLeast` | crates/pqmsg-core/src/aead.rs:52-61 | the padded length is the least multiple of the block strictly longer than the input |
| `Padding.PadPlaintext` | crates/pqmsg-core/src/aead.rs:52-61 | the buffer is the input, 0x80 and zeros up to that length |
| `Padding.UnpadPlaintext` | crates/pqmsg-core/src/aead.rs:67-77 | the backward scan computes the specified removal |
| `Padding.UnpadAccepts` | crates/pqmsg-core/src/aead.rs:67-77 | a string is accepted with result x if and only if it is x, 0x80 and zeros |
| `Padding.UnpadOfPad` | crates/pqmsg-core/src/aead.rs:52-77 | removing undoes padding for every input and block size |
| `Tlv.EncodeLoop` | crates/pqmsg-core/src/tlv.rs:41-56 | the buffer loop computes the record stream, or the length error |
| `Tlv.DecodeLoop` | crates/pqmsg-core/src/tlv.rs:62-93 | the cursor loop computes the parse, with the duplicate, unknown-critical and truncation errors |
| `Tlv.DecodeOfEncode` | crates/pqmsg-core/src/tlv.rs:41-93 | decoding undoes encoding exactly for records of distinct types none of which is critical and unknown; any other stream is refused |
| `Tlv.EncodeOfDecode` | crates/pqmsg-core/src/tlv.rs:41-93 | every accepted input is the encoding of the records it parses to |
| `Tlv.StreamInjective` | crates/pqmsg-core/src/tlv.rs:41-56 | equal streams come from equal record lists |

## Left out

- Wire version 2 (header encryption, padding), the byte form of session messages, session snapshots, sealed sender, storage and safety numbers: not modelled; sessions are those of wire version 1, in which the shipped clients start.
- Conversation.ConversationOpens: covers runs in which every delivered message was sent by the other side; forged messages are not part of a run. A session without post-quantum state is one with interval 0.
- Session.AnyOrderDelivery: is about the messages of one ratchet key; Session.OtherChainStartsOver says what any other message does.
- The inner workings of ChaCha20-Poly1305, HKDF, SHA-2, X25519, ML-KEM, ML-DSA, Ed25519 and Ristretto: parameters with correctness laws, or the cyclic group of prime order.
- JSON, base64 and hex of keys: library code; the share-link round trips ask that parsing undoes printing of the package at hand.
- Handshake.AcceptedMessageIsAlices: holds for routines that bind their inputs exactly; the shipped cipher and key derivation do so up to a negligible chance.
- DirectSession.DecryptedIsSent: likewise, as do GroupMessages.OpensOnlyWithSecret, GroupPackages.AcceptedInviteIsExported and GroupPackages.OpenedLinkIsShared.
- RemoteKeys.TurnsAlwaysOpen: is about sessions whose last update number starts at 0, as the shipped clients start them.
- Discovery.AcceptedTokenIsRight: how unlikely it is that a hash hits the one answerable challenge is not expressed.
- ReplayGuard.ProcessedExactly: needs a clock that never goes back and a starting guard like those that ReplayGuard.RunsSaveOrdered describes; ReplayGuard.NewMessagesAreProcessed needs neither.
- Archive.ArchiveIsLastUnexpired: histories without deletions, as deletions free places under the cap; records stamped by the caller carry times within the clock's order.
- ReplayGuard.InboxState.Poll: a failure to write the guard file after the cursor file was written, and overflow of the 64-bit expiry time, are not modelled.
- Leaf hashing of the transparency log and tree head signing bodies: leaves are free terms, signatures a predicate on heads.
- Hybrid prekey bundle checks, identity pinning, algorithm tables, authentication headers, command line, HTTP, files, hardware keys, zeroisation, timing: easy members or not expressible here.
- The unverified token finalisation of contact discovery: the verified path contains it.
- Error texts: errors keep their kind where a caller can tell them apart, not their field names.
