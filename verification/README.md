# Pando: a Dafny model of the chat client and its relay

Pando is an end-to-end encrypted terminal chat with a self-hosted relay. This
project models the parts of it that hold state under arbitrary timing and
ordering, and proves what they promise. Run `dafny verify dfyconfig.toml` in
this directory.

Each component has its state-changing code as methods and classes with the
source's own fields and loops, proved equal to functions on values (the
`…Model` modules); what the component promises is then proved about those
functions, over all inputs and all runs. What each main operation answers and
changes is also stated without them, in terms of the records, entries and
messages involved (`DirectoryAnswers`, `SubscriptionAnswers`, `RoomReplies`,
`DeliveryTimes`, `QueueLimits` and the lemmas named `…Meaning` or `…Iff`).

| files | component |
|---|---|
| `AttachmentModel`, `AttachmentTable`, `AttachmentTransfer`, `AttachmentService`, `Names` | cutting a file into chunks, envelope deduplication, the receiver's table of partial files |
| `RateLimit`, `Queues` | the relay's rate limiter; offline queues in Bolt and in memory |
| `Delivery` | publish and register as interleaved atomic steps |
| `Wire`, `Directory`, `Subscriptions` | signed directory entries, mailbox ownership, challenge-and-proof subscription |
| `RoomMembers`, `RoomLists`, `RoomStates` | membership as a join-semilattice, its two list implementations, replicas |
| `RoomHistory`, `HistorySync`, `RoomHistoryStore` | room history files and the sync between two members |
| `Identity`, `Messages` | devices of an account, invites, per-device encryption |
| `Foundations` | filters, cardinalities, string order, and what `sort.Slice` promises |

## How things are modelled

- Times are integers in nanoseconds; 0 is Go's zero time. Clock readings, UUIDs,
  nonces, generated keys, the rate limiter's verdict on a subscription and the
  success of file writes and drains are parameters.
- Cryptography is ideal and symbolic: a signature is the pair of a public key
  and a statement, a private key is named by its public key, a box names its two
  ends. Key and nonce lengths are kept because the code checks them. JSON and
  file encryption are the identity, and so is base64 except in envelopes, whose
  signed text joins encoded fields: there it is any encoding that decodes back
  and has neither line breaks nor `-` in its alphabet (`Wire.IsBase64`), as
  that of section 4 of RFC 4648; `CodecWitness.SomeBase64` shows that there is
  one for the symbolic boxes. Text that does not decode is `None` or a garbage
  value. A subscription proof is taken as a record of its fields, which its
  joined bytes determine as long as no signed challenge nonce has a line break
  (`JoinedLines.SubscriptionBound`); the relay's nonces are UUIDs.
- A Go map's iteration order is a choice `:|` inside a method, so a method's
  `ensures` holds for every order. `sort.Slice` is any sorted permutation
  (`Sorting.SortedPermutation`); results that do not depend on the sort are
  proved so.
- Runs are sequences of operations; a run's theorem quantifies over all of them.
- A string stands for its bytes; a public record's mailbox and ID strings are
  compared byte by byte, and Bolt's limits on keys count them.

## What the proofs found

- The limiter is better than two full windows: any half-open minute admits at
  most 2L - 1 calls on a key, and that bound is reached
  (`RateLimit.AnyMinuteBound`, `RateLimit.BoundIsReached`). At the zero time it
  would admit everything (`RateLimit.ZeroTimeIsUnlimited`).
- The repository's README says messages for online recipients are never
  retained by the relay (README.md:8). `publish` releases the lock before it
  enqueues, so a recipient who comes online in between stays subscribed while
  the message waits (`DeliveryOnline.RetainedWhileOnline`). A recipient whose
  backlog could not be fetched stays subscribed too
  (`DeliveryOnline.RetainedAfterFailedFetch`). A run keeps the promise all along
  if and only if no publish is overtaken in this way and no failed fetch
  abandons a backlog (`DeliveryOnline.TidyStepIff`,
  `DeliveryOnline.TidyRunIff`).
- A refused `MemoryQueueStore.Enqueue` has already compacted the stored array:
  the queue is unchanged if and only if expired envelopes sit behind unexpired
  ones (`QueueStores.RejectionHarmlessIff`), and otherwise, and only then, some
  survivor is stored more often than before
  (`QueueStores.RejectionDuplicatesIff`), so that a drain hands it back twice
  (`QueueStores.RefusedCallDeliversTwice`).
- If fetching the backlog fails after registration, the session stays in the
  subscriber set without a mailbox: the subscriber sets stay right if and only
  if the fetch works (`SubscriptionSoundness.SubscribersOkIffDrained`). The
  session is not removed by closing it or by moving to another mailbox, but
  only after it has subscribed to the same mailbox again
  (`SubscriptionSoundness.StuckStepIff`, `SubscriptionSoundness.StuckRun`,
  `SubscriptionSoundness.ResubscribeThenClose`).
- Merging the same history batch twice at one time adds exactly the batch
  records without an ID and those that were already expired; it adds nothing if
  and only if there are none (`RoomHistoryProofs.MergeAgain`,
  `RoomHistoryProofs.ExpiredRecordReturns`).
- Approving a request that shares only the ID or only the mailbox of an
  enrolled device leaves an identity that does not validate
  (`IdentityLifecycle.SharedIdSpoils`);
  `IdentityLifecycle.ApproveKeepsValidIff` gives the exact condition, and
  `IdentityLifecycle.ApprovalCompletesIff` says when the approval completes. A
  request with the current device's own ID and mailbox but other keys leaves a
  valid identity that lacks its private keys (`IdentityLifecycle.OwnIdSpoils`);
  a whole life is sound if and only if it approves neither kind
  (`IdentityLifecycle.LifeStaysSoundIff`).
- Two transfers share a table entry if peer and attachment ID join to the same
  text, which cannot happen to a transfer if and only if neither of its two
  names has a `:` (`AttachmentTransfer.SlotIsOwnIff`).
- Bolt and the plain maps differ where an empty key has been claimed, which
  only the plain maps see, and where a mailbox is empty or longer than 32768
  bytes, which only they take. Over a whole run they give the same answers if
  and only if no step meets either case (`DirectoryOwnership.BackendsAgreeIff`).
- A history request whose end lies before the start it is given is answered
  with the records dated exactly at that start
  (`HistorySyncProofs.AnsweredRecords`).
- With more than 16 accounts in play no replica ends with the join of what it
  heard: it does if and only if there are at most 16
  (`RoomConvergence.JoinOfAllIff`), and then the order of announcements matters
  (`RoomConvergence.OverCapDiverges`).
- The signed text of an envelope joins its fields with line breaks
  (internal/session/messages.go:114-116). Under one signature only one text is
  ever read (`MessageBinding.ContentIsBound`), but its two addresses are bound
  if and only if the mailboxes bring in no line break of their own, the
  sender's first character aside (`MessageBinding.AddressesBoundIff`);
  what "a" sends to "b\nc" is also read as sent by "a\nb" to "c" (`MessageBinding.AddressesCanShift`).

## Model

| member | source | states |
|---|---|---|
| AttachmentService.BuildAttachmentChunks | internal/messaging/content.go:104-142 | a file is refused exactly above 50 MiB, so the chunk limit is never the reason; otherwise chunk i is the i-th 8 KiB slice under the shared header |
| AttachmentService.CheckChunk | internal/messaging/incoming_attachments.go:35-50 | the first failing check on a chunk's own fields decides the error |
| AttachmentTransfer.SlicesJoinToFile | internal/messaging/content.go:116-121 | joining all slices of any file gives the file back |
| AttachmentService.IncomingAttachmentAssembler.HandleChunk | internal/messaging/incoming_attachments.go:29-99 | the mutable table and the reply after one chunk, in every branch, are those of the specification |
| AttachmentService.IncomingAttachmentAssembler.Cleanup | internal/messaging/incoming_attachments.go:101-107 | the sweep keeps exactly the transfers touched within 15 minutes, whatever the map order |
| AttachmentService.IncomingAttachmentAssembler.PendingCount | internal/messaging/incoming_attachments.go:109-118 | counts the pending keys under the peer's prefix |
| AttachmentService.IncomingAttachmentAssembler.Assemble | internal/messaging/incoming_attachments.go:83-89 | the loop yields the concatenation of all slots, or nothing if one is empty |
| AttachmentService.IncomingAttachmentAssembler.Admit | internal/messaging/incoming_attachments.go:51-70 | both caps apply only to a chunk that would open a transfer |
| AttachmentService.IncomingAttachmentAssembler.Deliver | internal/messaging/incoming_attachments.go:71-98 | a mismatching chunk removes the transfer; otherwise its slot is filled once and a finished file leaves the table |
| AttachmentTable.HandleKeepsTable | internal/messaging/incoming_attachments.go:29-99 | one chunk from anyone keeps counter, slot sizes and table cap in order |
| AttachmentTable.HandleKeepsOpeners | internal/messaging/incoming_attachments.go:57-59 | one chunk keeps every peer at no more than 16 transfers of its own |
| AttachmentTable.ChunkMeaning | internal/messaging/incoming_attachments.go:29-99 | a chunk with a field out of order changes nothing; transfers untouched for 15 minutes are gone; opening is refused if and only if 128 are pending or 16 under the prefix; a differing chunk removes the transfer; any other fills its slot if empty and touches nothing else |
| AttachmentTable.FullTransferMeaning | internal/messaging/incoming_attachments.go:80-98 | a filled transfer is reported with its joined parts if and only if they have the announced size and can be written, and otherwise stays |
| AttachmentService.Service.HandleIncoming | internal/messaging/incoming.go:16-64 | an envelope is marked seen before its payload acts, a seen one does nothing, and only an attachment chunk touches the table |
| AttachmentService.Service.MarkIncomingEnvelopeSeen | internal/store/seen.go:12-37 | non-empty IDs are remembered; the empty ID is never a duplicate |
| AttachmentTable.ReachableTablesAreOk | internal/messaging/incoming_attachments.go:29-118 | in every run: the counter equals the filled slots, slots hold 1 to 8192 bytes, at most 128 transfers are pending, and at most 16 were opened by any one peer |
| AttachmentTable.MissingChunksUnreachable | internal/messaging/incoming_attachments.go:80-89 | no delivery in any run reports missing chunks |
| AttachmentTransfer.ExactlyOnce | internal/messaging/incoming_attachments.go:51-98 | for every prefix of a run in which the transfer is not disturbed: the file is reported once if all chunks have arrived and not at all otherwise, byte for byte, among any other traffic, duplicates and orders |
| AttachmentTransfer.PromptTransferArrives | internal/messaging/incoming_attachments.go:29-118 | the same with hypotheses on the deliveries alone, none on what follows the last new chunk: until then nothing comes later than one TTL after the last new chunk, files can be written, and foreign traffic leaves room below both caps when the first chunk comes |
| AttachmentTransfer.ClockedIsPrompt | internal/messaging/incoming_attachments.go:101-107 | on a clock that does not run backwards gaps of at most one TTL between new chunks suffice |
| AttachmentTransfer.SlotIsOwnIff | internal/messaging/incoming_attachments.go:51-56 | no other peer and attachment ID share the transfer's entry if and only if neither its peer nor its ID has a colon |
| AttachmentTransfer.OthersAreForeign | internal/messaging/incoming_attachments.go:51-56 | between names without a colon everything from another peer or of another attachment is foreign traffic |
| AttachmentTransfer.EmptyFileIsTurnedAway | internal/messaging/incoming_attachments.go:41-43 | the single chunk of an empty file is rejected by every table |
| Names.SanitizedIsElement | internal/messaging/content.go:177-184 | a sanitized name is never empty or ".", and has no separator |
| Names.SanitizeKeepsTheName | internal/messaging/content.go:177-184 | of a clean name in any directory only the name is kept |
| Names.CleanNamesPass | internal/messaging/content.go:177-184 | a clean name comes out unchanged, and ".." is one |
| Names.TrimSpaceMeaning | internal/messaging/content.go:178 | white space is removed at both ends and nowhere else |
| Names.NoNameFallsBack | internal/messaging/content.go:177-184 | white space or a dot alone becomes attachment.bin |
| RateLimit.RateLimiter.Allow | internal/relay/limits.go:49-64 | the stored window and the decision after one call; other keys are untouched |
| RateLimit.AnyMinuteBound | internal/relay/limits.go:49-64 | any half-open minute admits at most 2L - 1 calls on a key, whatever is interleaved on other keys |
| RateLimit.BoundIsReached | internal/relay/limits.go:49-64 | a run that admits 2L - 1 calls within one minute, for every L |
| RateLimit.EachWindowBound | internal/relay/limits.go:57-62 | a window admits at most L calls |
| RateLimit.WindowsAreDisjoint | internal/relay/limits.go:53-56 | a call lies in the minute of its window, and two windows of a key start at least a minute apart |
| RateLimit.RefusedOnlyWhenFull | internal/relay/limits.go:57-60 | a call is refused if and only if its window has admitted exactly L calls, and the answer counts them |
| RateLimit.ZeroTimeIsUnlimited | internal/relay/limits.go:54-56 | at the zero time any number of calls is admitted |
| InPlace.FilterInPlace | internal/relay/store_helpers.go:25-34 | the front of the array becomes the kept elements in order, the tail keeps its old values |
| QueueStores.ValidateQueueLimits | internal/relay/store_helpers.go:36-51 | the loop decides exactly whether one more envelope fits both limits |
| QueueStores.BoltQueueStore.Enqueue | internal/relay/bolt_store.go:48-64 | acceptance, the stored queue, and a bucket left as it was when the queue is full or the mailbox is no key Bolt takes |
| QueueStores.BoltQueueStore.Drain | internal/relay/bolt_store.go:66-86 | hands back the unexpired queue and deletes it |
| QueueStores.MemoryQueueStore.Enqueue | internal/relay/memory_store.go:39-49 | the queues and the answer; a refusal leaves the compacted array in the map |
| QueueStores.MemoryQueueStore.Compact | internal/relay/store_helpers.go:13-17 | filtering the stored slice writes the array the map still refers to |
| QueueRuns.StoredQueuesWithinLimits | internal/relay/store_helpers.go:36-51 | in every run every stored queue stays within both limits |
| QueueRuns.DrainIsExact | internal/relay/bolt_store.go:66-86 | a drain returns exactly the envelopes accepted since the last drain that have not expired, in acceptance order |
| QueueRuns.RefusedIffFull | internal/relay/bolt_store.go:58-62 | a call is refused if and only if the unexpired accepted backlog leaves no room or the mailbox is no key Bolt takes, and then nothing changes |
| QueueLimits.FitsIff | internal/relay/store_helpers.go:36-51 | one more envelope has room if and only if the lengthened queue keeps to each limit that is set, counting the text of four fields |
| QueueStores.RejectionHarmlessIff | internal/relay/memory_store.go:43-46 | a refused call leaves the memory queue unchanged if and only if expired envelopes sit last |
| QueueStores.RejectionDuplicatesIff | internal/relay/memory_store.go:43-46 | after a refused call some surviving envelope is stored more often than before if and only if expired envelopes do not all sit last |
| QueueStores.RefusedCallDeliversTwice | internal/relay/memory_store.go:39-58 | three calls, the last one refused, after which a drain returns one envelope twice |
| DeliveryServer.Server.constructor | internal/relay/server.go:49-79 | TTL and queue limits are the options' or the defaults, so always positive |
| DeliveryServer.Server.Snapshot | internal/relay/server.go:143-157 | the locked half of publish: the finalized envelope and the receivers |
| DeliveryServer.Server.Register | internal/relay/server.go:110-117 | adds the session to its mailbox's set and to no other |
| DeliveryServer.Server.Unregister | internal/relay/server.go:129-141 | removes the session, and the mailbox with its last session |
| DeliveryServer.Server.FetchBacklog | internal/relay/server.go:119-126 | the unlocked drain after registration, or an error that leaves the queue as it was |
| DeliveryServer.Server.QueueOffline | internal/relay/server.go:151-155 | the unlocked enqueue after an empty snapshot, or a failed write |
| DeliveryConservation.StepConserves | internal/relay/server.go:110-164 | each atomic step keeps every envelope's number of places equal to its number of publications |
| DeliveryConservation.ExactlyOnePlace | internal/relay/server.go:110-164 | after every interleaving each published envelope is in exactly one place once: on the way to the queue, queued for its recipient, or with one fate in the log |
| DeliveryConservation.NeverQueuedAndSent | internal/relay/server.go:143-164 | an envelope with a fate is neither queued nor on the way, and has only that fate; so never both queued and sent live, and handed to one session at most |
| DeliveryConservation.FatesAreFinal | internal/relay/server.go:110-164 | over every run a logged fate stays as it was logged |
| DeliveryConservation.FatesAreJustified | internal/relay/server.go:110-164 | over every run each fate has its reason in the state of the step that logged it: live receivers listen on the mailbox, a hand-over is unexpired and to a registered session, a drop is expired, a refusal means a full queue, no key or a failed write |
| DeliveryTimes.StampedByRelay | internal/relay/server.go:103-108 | every envelope of a run has the ID and time of its publication, expires one TTL later and otherwise is the draft |
| DeliveryTimes.LiveIffListening | internal/relay/server.go:143-164 | a publication goes out at once to exactly the sessions listening on its mailbox, and waits for the queue if there are none |
| DeliveryTimes.QueueSettles | internal/relay/server.go:151-155 | the second half queues it if there is room under a key Bolt takes and the write works, and answers with an error otherwise |
| DeliveryTimes.StaysQueued | internal/relay/store_helpers.go:13-17 | within one TTL only a fetch for its mailbox takes a message out of the queue |
| DeliveryTimes.FetchHandsOver | internal/relay/server.go:119-126 | a fetch within one TTL of the publication hands the message over, and a later one gives it up |
| DeliveryTimes.ExpiredOnlyAfterTtl | internal/relay/store_helpers.go:13-17 | no run gives a message up as expired earlier than one TTL after its publication |
| DeliveryOnline.TidyStepIff | internal/relay/server.go:110-156 | a step leaves something queued for a listening mailbox if and only if it is a publish overtaken by a registration, or a failed fetch of a non-empty backlog that no other session is about to fetch |
| DeliveryOnline.TidyRunIff | internal/relay/server.go:110-164 | a run keeps nothing queued for a listener, at any of its steps, if and only if none of its publishes is overtaken and none of its fetches fails in this way |
| DeliveryOnline.RetainedWhileOnline | README.md:8 | a four-step run after which an online recipient's message sits in the queue |
| DeliveryOnline.RetainedAfterFailedFetch | internal/relay/server.go:119-122 | another one, with a fetch that fails |
| DirectorySigning.DirectoryEntrySigningBytes | internal/relayapi/types.go:85-134 | builds a payload sort.Slice may lead to |
| DirectorySigning.PayloadIgnoresOrder | internal/relayapi/types.go:107-112 | for devices with distinct mailbox and ID pairs the payload is the same for every device order and every way of sorting |
| DirectorySigning.UniquePayloadIff | internal/relayapi/types.go:107-112 | an entry has a single payload if and only if no two different devices share mailbox and ID |
| DirectorySigning.SignedInOneOrderVerifiesInAll | internal/relayapi/types.go:47-83 | an entry signed with its devices in one order verifies with them in any order |
| DirectorySigning.PayloadInOrder | internal/relayapi/types.go:107-112 | the signed devices are in order of mailbox and ID |
| DirectorySigning.SignedVerifiesIff | internal/relayapi/types.go:58-83 | what an account signs verifies if and only if mailbox, time and invite are in order and the mailbox is the account |
| DirectorySigning.OthersCannotSign | internal/relayapi/types.go:71-81 | an entry signed with any other key is refused |
| DirectorySigning.EntrySignatureBinds | internal/relayapi/types.go:85-134 | two entries that verify under one signature are equal but for the order of their devices |
| DirectorySigning.InviteAcceptedIff | internal/identity/crypto.go:24-62 | an invite is accepted if and only if it names an account, lists a device, and the account key signed every unrevoked device with exactly its own fields |
| DirectorySigning.DeviceSignatureBinds | internal/identity/crypto.go:45-79 | a device signature is accepted for one account, ID, mailbox and pair of keys only |
| DirectoryStores.DirectoryStore.PutDirectoryEntry | internal/relay/bolt_store.go:108-126 | result and all three maps are the same for every iteration order of the device maps; a conflict or a key Bolt refuses changes nothing |
| DirectoryStores.DirectoryStore.Sync | internal/relay/store_helpers.go:60-95 | conflicts are found before anything is written; otherwise the former owners are released and the new ones put, up to the first refused key |
| DirectoryStores.DirectoryStore.ActiveDirectoryDevices | internal/relay/store_helpers.go:153-165 | unrevoked devices by mailbox, the last one winning; nothing for the zero entry |
| DirectoryStores.DirectoryStore.CheckOwners | internal/relay/store_helpers.go:61-77 | succeeds if and only if no active device is owned by another account or claimed with another key |
| DirectoryStores.DirectoryStore.ReleaseOwners | internal/relay/store_helpers.go:78-88 | exactly the former devices the account still owns lose owner and claim |
| DirectoryStores.DirectoryStore.PutOwners | internal/relay/store_helpers.go:89-93 | every active device gets the account as owner and its key as claim, unless the backend refuses one of the mailboxes as a key |
| DirectoryStores.DirectoryStore.AuthorizeMailbox | internal/relay/bolt_store.go:88-102 | claims an unclaimed mailbox if the backend takes it as a key, otherwise compares with the claim |
| DirectoryStores.DirectoryStore.LookupDirectoryEntryByDeviceMailbox | internal/relay/memory_store.go:117-123 | the two-step lookup |
| DirectoryAgreement.ReachableAgreement | internal/relay/store_helpers.go:60-95 | on both backends every reachable directory agrees with its index maps |
| DirectoryAgreement.PublishKeepsAgreement | internal/relay/store_helpers.go:60-95 | one publication, accepted or refused, keeps entries and index maps in agreement |
| DirectoryAgreement.OwnershipIffPublished | internal/relay/bolt_store.go:108-126 | a mailbox belongs to an account if and only if it is an unrevoked device of the account's entry, and then the claim is such a device's key |
| DirectoryAgreement.LookupIsScan | internal/relay/memory_store.go:106-123 | the two-step lookup finds what a scan of all entries finds, and at most one entry matches |
| DirectoryAnswers.PublishedIff | internal/relay/store_helpers.go:60-95 | a publication succeeds if and only if the account is new or keeps its key, every mailbox listed unrevoked is listed by no other account and unclaimed or claimed with the device's key, and the backend takes the keys; each refusal likewise; success stores the entry, refusal changes nothing |
| DirectoryAnswers.ClaimsAfterPublish | internal/relay/store_helpers.go:78-93 | listed devices claim their mailboxes, mailboxes no longer listed are unclaimed, all others keep theirs |
| DirectoryAnswers.RepublishWorks | internal/relay/memory_store.go:79-92 | after every run any account can publish its stored entry again |
| DirectoryAnswers.ActiveIsLast | internal/relay/store_helpers.go:153-165 | of several unrevoked devices with one mailbox the last one counts |
| DirectoryOwnership.OwnershipOverRuns | internal/relay/store_helpers.go:62-93 | while a mailbox stays owned, over any stretch of any run, its owner and its key are constant |
| DirectoryOwnership.OwnershipStep | internal/relay/store_helpers.go:60-95 | no step moves a mailbox directly from one account or key to another |
| DirectoryOwnership.AccountKeyOverRuns | internal/relay/memory_store.go:83-86 | a published account stays published under the signing key it first used |
| DirectoryOwnership.FreedOnlyByOwner | internal/relay/store_helpers.go:78-88 | only a publication by the owning account, under its own key and without the device, frees a mailbox |
| DirectoryOwnership.BackendsAgreeIff | internal/relay/store_helpers.go:97-151 | over every run plain maps and Bolt give the same answers if and only if no step meets an empty claim that is the only obstacle or a key Bolt refuses, and then they reach the same directory |
| DirectoryOwnership.AnswersDifferIff | internal/relay/store_helpers.go:97-151 | on one directory the two answers differ exactly then |
| DirectoryOwnership.PlainRunsAgree | internal/relay/memory_store.go:64-92 | runs that name only mailboxes of 1 to 32768 bytes and no empty key are the same on both |
| DirectoryOwnership.EmptyClaimTellsBackendsApart | internal/relay/store_helpers.go:103-136 | after an empty claim the plain maps refuse the owner and Bolt publishes |
| DirectoryOwnership.EmptyMailboxTellsBackendsApart | vendor/go.etcd.io/bbolt/bucket.go:467-471 | the plain maps let an empty mailbox be claimed and Bolt does not |
| SubscriptionSessions.WsSession.HandleSubscribe | internal/relay/websocket.go:106-141 | mailbox, challenge, subscriber sets, directory, queue, backlog and error after one subscribe message |
| SubscriptionSessions.Relay.VerifySubscribeRequest | internal/relay/websocket.go:178-212 | the first failing check decides the refusal, and only the last one may write a claim |
| SubscriptionSessions.WsSession.Close | internal/relay/websocket.go:68-71 | unregisters only a session that has a mailbox |
| SubscriptionSessions.Relay.VerifyMailboxOwnership | internal/relay/directory.go:12-42 | the search succeeds exactly for a key of an unrevoked device of the owning verified entry |
| SubscriptionSoundness.EachChallengeOnce | internal/relay/websocket.go:114-125 | in every run each challenge authorizes at most one subscription, on the connection it was issued to and before it expires |
| JoinedLines.SubscriptionBound | internal/protocol/protocol.go:130-132 | the joined bytes of a subscription determine mailbox, nonce and expiry for nonces without a line break, whatever the mailbox |
| SubscriptionSoundness.AcceptedIffEntitled | internal/relay/websocket.go:178-212 | on a directory in agreement the check accepts exactly the entitled and writes nothing |
| SubscriptionSoundness.GrantedIffEntitled | internal/relay/websocket.go:178-212 | in every run a subscribe is granted if and only if it is well-formed, within the rate limit, its key signed this connection's unexpired challenge for this mailbox, is that of an unrevoked device of the published verified entry and equals the claim; no claim is ever created |
| SubscriptionAnswers.GrantedIffPublished | internal/relay/websocket.go:106-141 | the same in terms of message fields and published entries: complete, within the rate limit, the held challenge answered in time, signed by the key of the last unrevoked device published for the mailbox |
| SubscriptionAnswers.RefusedBecause | internal/relay/websocket.go:178-212 | which refusal a complete subscribe gets: challenge first, then key and proof, then the directory, where an unpublished mailbox and a foreign key are told apart |
| SubscriptionAnswers.ChallengeIssued | internal/relay/websocket.go:114-125 | after connecting and after a refused complete subscribe the session holds exactly the challenge just sent, for 30 seconds; a granted one uses it up; nothing else touches it |
| SubscriptionAnswers.TimelyAnswerIsGranted | internal/relay/websocket.go:106-141 | whatever was refused before, answering the latest challenge within 30 seconds with the published key is granted |
| SubscriptionAnswers.PublishAndTryAgain | internal/relay/websocket.go:114-141 | a client refused before it published is granted on the same connection afterwards |
| SubscriptionSoundness.OneSubscriberSet | internal/relay/server.go:110-141 | while drains succeed a session is in at most one subscriber set, the one named by its mailbox |
| SubscriptionSoundness.SubscribersOkIffDrained | internal/relay/websocket.go:127-133 | an authorized subscribe keeps that right if and only if the drain succeeds |
| SubscriptionSoundness.FailedDrainSticks | internal/relay/websocket.go:127-133 | otherwise the session is in the set of a mailbox it does not name |
| SubscriptionSoundness.StuckStepIff | internal/relay/server.go:129-141 | no step removes such a session from the set; it stops being stuck if and only if it subscribes to that mailbox again with a working drain |
| SubscriptionSoundness.StuckRun | internal/relay/websocket.go:68-141 | over any stretch of a run without such a subscribe the session stays in the set |
| SubscriptionSoundness.ResubscribeThenClose | internal/relay/websocket.go:68-71 | after such a subscribe closing removes it |
| RoomLists.MergeRoomMembers | internal/messaging/room_state.go:45-77 | the loop with its index map and the sort yield the specified merge |
| RoomLists.NormalizeMembers | internal/store/rooms.go:178-208 | for every list and map order, in place, the result equals merging into an empty list |
| RoomLists.SortMembers | internal/messaging/room_state.go:64-75 | sorts the front of the array and leaves the rest |
| RoomLists.AnySortingIsSort | internal/store/rooms.go:196-207 | the members' order ties nothing, so every sorting gives the same list |
| RoomLists.CollectMembers | internal/store/rooms.go:182-191 | the map holds for every account what the list reports about it |
| RoomMembers.MergeIsJoin | internal/messaging/room_state.go:45-77 | merging is the join of what both sides say about every account, in canonical form |
| RoomMembers.MergeLaws | internal/messaging/room_state.go:45-77 | on stored lists merging is idempotent, commutative and associative |
| RoomMembers.CanonicalIsUnique | internal/messaging/room_state.go:64-75 | a canonical list is determined by what it says |
| RoomMembers.CanonicalIff | internal/messaging/room_state.go:64-75 | stored lists have known join times ascending, unknown ones last and ties in string order |
| RoomService.RoomStore.SaveRoomState | internal/store/rooms.go:52-66 | stores the normalized list; the caller's shared array comes out unchanged if it was canonical |
| RoomService.RoomStore.LoadRoomState | internal/messaging/room_api.go:20-35 | the normalized stored state with default ID and name, or a fresh room |
| RoomService.Service.FindJoinTime | internal/messaging/room_state.go:79-95 | the first entry of an account in the list, if any |
| RoomService.Service.HandleRoomMembership | internal/messaging/room_incoming.go:14-46 | stored state and reply after an announcement |
| RoomService.Service.HandleRoomMessage | internal/messaging/room_incoming.go:48-87 | stored state and reply after a room message, with all error cases |
| RoomService.Service.JoinDefaultRoom | internal/messaging/room_api.go:84-109 | stored state and reply after joining; where the announcement cannot be encrypted the reply is an error and the state stays saved |
| RoomStateInvariants.RoomInvariant | internal/messaging/room_incoming.go:14-87 | over every run of joins, announcements and messages: at most 16 distinct non-empty members in canonical order, no member lost, known join times only earlier |
| RoomStateInvariants.StepKeepsRoom | internal/messaging/room_incoming.go:14-87 | one event of any kind and content keeps the stored list canonical and within the cap, and only adds to it |
| RoomStateInvariants.SaveThenLoad | internal/store/rooms.go:34-66 | saving and loading a handler-built list returns it |
| RoomStateInvariants.JoinedIsMember | internal/messaging/room_api.go:97-103 | a client that joins is a member, with the earlier of its known join times |
| RoomReplies.LoadMeaning | internal/messaging/room_api.go:20-35 | a fresh room, or the stored one with missing ID and name filled in |
| RoomReplies.MessageMeaning | internal/messaging/room_incoming.go:48-87 | a room message is refused without ID, without sender or under a sender other than the contact; a new contact becomes a member from now on if the room is not full; nothing else changes |
| RoomReplies.AnnouncementMeaning | internal/messaging/room_incoming.go:14-46 | an announcement is taken if and only if it is for this room and both lists together name at most 16 accounts; otherwise nothing changes |
| RoomReplies.JoinMeaning | internal/messaging/room_api.go:84-109 | joining is refused to a member and in a full room and otherwise makes the client a member as of now |
| RoomReplies.AnnouncingMeaning | internal/messaging/room_api.go:84-109 | a failed announcement is an error that does not undo the join |
| RoomConvergence.ReplicasConverge | internal/messaging/room_incoming.go:14-46 | replicas that hear the same announcements, in any order and multiplicity, with at most 16 accounts, end with identical members and update time |
| RoomConvergence.JoinOfAllIff | internal/messaging/room_incoming.go:14-46 | a replica ends with the join of its start and everything heard if and only if at most 16 accounts are involved |
| RoomConvergence.ReceivedIsJoin | internal/messaging/room_incoming.go:14-46 | with at most 16 accounts each account has the earliest known time of the start and everything heard, and the update time is the latest |
| RoomConvergence.OverCapDiverges | internal/messaging/room_incoming.go:27-29 | with 15 members and two newcomers the order of announcements decides who gets in |
| RoomHistoryStore.HistoryStore.MergeRoomHistory | internal/store/rooms.go:99-142 | the file and the count after a merge, for any way the sort orders ties |
| RoomHistoryStore.HistoryStore.LoadRoomHistory | internal/store/rooms.go:68-92 | the unexpired records of the file, in order |
| RoomHistoryStore.SortRecords | internal/store/rooms.go:128-133 | some arrangement sorted by time and ID |
| RoomHistoryStore.HistoryStore.PurgeExpired | internal/store/sweeper.go:61-74 | the file keeps exactly its unexpired records |
| RoomHistoryStore.HistoryStore.LoadRoomHistoryWindow | internal/store/rooms.go:144-160 | the unexpired records in the window, in order |
| RoomHistoryProofs.HistoryStaysWellKept | internal/store/rooms.go:99-142 | over every run of merges and sweeps the file is sorted by time and ID with at most one record per non-empty ID |
| RoomHistoryProofs.MergeMeaning | internal/store/rooms.go:107-127 | unexpired records stay, nothing comes from elsewhere, the first record for an ID wins, the count is the growth of the unexpired list |
| RoomHistoryProofs.MergeKeepsWellKept | internal/store/rooms.go:107-133 | a merge of any batch writes a list sorted by time and ID with at most one record per non-empty ID |
| RoomHistoryProofs.WellKeptIff | internal/store/rooms.go:128-133 | kept files are in order of time, records of one time in order of ID, no ID twice |
| RoomHistoryProofs.UnexpiredAre | internal/store/rooms.go:68-92 | loading and sweeping keep exactly the records without an expiry or with a later one |
| RoomHistoryProofs.MergeAgain | internal/store/rooms.go:99-142 | a repeated merge adds exactly the new records without an ID or already expired, so nothing if and only if there are none |
| RoomHistoryProofs.ExpiredRecordReturns | internal/store/rooms.go:99-142 | a batch of one expired record is added by every merge |
| HistorySyncProofs.AnswerIsWindow | internal/messaging/room_incoming.go:107-129 | the answer is the responder's unexpired history from the latest of a week ago, the requester's join and the requested start, up to the end, a zero bound being no bound |
| HistorySyncProofs.StaysInsideIff | internal/store/rooms.go:144-160 | nothing outside the two bounds is handed out, whatever the history, if and only if neither bound is the zero time |
| HistorySyncProofs.SplitIsFaithful | internal/messaging/room_incoming.go:130-169 | chunks of at most 64 carry every record once in order, and only the final one is marked last |
| HistorySyncProofs.ChunkStep | internal/messaging/room_incoming.go:189-226 | a chunk adds its missing acceptable records the first time and nothing later |
| HistorySyncProofs.ChunkAdds | internal/messaging/room_incoming.go:195-218 | a chunk's new records are its missing ones if it was not handled before, and none otherwise |
| RoomHistoryStore.HistoryService.SplitRecords | internal/messaging/room_incoming.go:130-168 | the chunk loop yields the specified chunks |
| RoomHistoryStore.HistoryService.AcceptRecords | internal/messaging/room_incoming.go:189-217 | the filter loop keeps exactly the acceptable records |
| HistorySyncProofs.SyncIsExact | internal/messaging/room_incoming.go:89-226 | after all chunks, in any order and multiplicity, the requester has its old records plus exactly the sent acceptable ones it lacked, and the counts sum to their number |
| HistorySyncProofs.SyncBrings | internal/messaging/room_incoming.go:89-226 | after a sync exactly those of the responder's records have entered whose ID and sender are named, whose sender the client knows, and which are dated, unexpired, at most a week old, not from the future and not from before either side's notion of the client's join, unless the ID was listed before; nothing else entered, nothing was lost, the counts add up |
| HistorySyncProofs.ChunkLetsIn | internal/messaging/room_incoming.go:189-226 | of any chunk from anyone only wanted records enter, and every wanted record's ID is listed afterwards |
| HistorySyncProofs.HandledIff | internal/messaging/room_incoming.go:171-188 | a chunk is handled if and only if it is for this room, has an ID and comes from a member to a joined client; others change nothing |
| HistorySyncProofs.AnsweredIff | internal/messaging/room_incoming.go:89-112 | a request is answered if and only if it is for this room, has an ID and comes from a member to a joined client |
| HistorySyncProofs.AnsweredRecords | internal/messaging/room_incoming.go:107-129 | the records any request is answered with, bound by bound |
| RoomHistoryStore.HistoryService.HandleRoomHistoryRequest | internal/messaging/room_incoming.go:89-169 | the reply, in every branch |
| RoomHistoryStore.HistoryService.HandleRoomHistoryChunk | internal/messaging/room_incoming.go:171-226 | file and reply, in every branch |
| RoomHistoryStore.HistoryService.RequestDefaultRoomHistory | internal/messaging/room_api.go:41-81 | refusal before joining, nothing when no member can be reached, an error when encryption fails for one of them, otherwise the window asked for and whom |
| RoomHistoryStore.HistoryService.RoomSyncRecipients | internal/messaging/room_outgoing.go:36-52 | the loop keeps the reachable other members in list order |
| HistorySyncProofs.AsksReachableMembers | internal/messaging/room_api.go:49-80 | exactly the reachable other members are asked, nobody if and only if there are none, and none of them if and only if encryption fails for one |
| IdentityObjects.Account.Approve | internal/identity/enrollment.go:89-119 | device list and approval; the list has changed even when the key length is refused |
| IdentityObjects.Account.UpsertDevice | internal/identity/device.go:109-121 | the first device sharing ID or mailbox is overwritten but keeps both, otherwise the device is appended |
| IdentityObjects.Account.RevokeDevice | internal/identity/identity.go:94-108 | by ID, then by mailbox, never the current device |
| IdentityObjects.Account.CompactRevokedDevices | internal/identity/identity.go:118-126 | keeps the current, active, undated and recent devices, in order |
| IdentityObjects.DevicesFromBundles | internal/identity/enrollment.go:80-82 | every bundle becomes a device, and only the pending device's own gets private keys |
| IdentityLifecycle.NewIsSound | internal/identity/identity.go:28-46 | a new identity is sound if and only if account and mailbox are named |
| IdentityLifecycle.ApproveKeepsValidIff | internal/identity/enrollment.go:89-97 | an approval leaves a sound identity valid if and only if keys have the right length and the matching device, if any, has both the ID and the mailbox and is not the current one being revoked |
| IdentityLifecycle.SharedIdSpoils | internal/identity/enrollment.go:89-97 | a request with the ID of the only device and another mailbox spoils a sound identity |
| IdentityLifecycle.ApproveKeepsSoundIff | internal/identity/enrollment.go:89-119 | an approval keeps an identity sound if and only if the request is for another account, or keeps it valid and, under the current device's ID, has that device's public keys |
| IdentityLifecycle.OwnIdSpoils | internal/identity/enrollment.go:89-97 | a request with the current device's ID and mailbox and other keys leaves a valid identity that is not sound |
| IdentityLifecycle.ApproveKeepsSound | internal/identity/enrollment.go:89-119 | a genuine request with unused ID and mailbox appends one device and keeps the identity sound |
| IdentityLifecycle.RevokeKeepsSound | internal/identity/identity.go:94-108 | no revocation spoils the identity |
| IdentityLifecycle.CompactKeepsSound | internal/identity/identity.go:118-126 | compaction keeps the identity sound and its current device |
| IdentityLifecycle.CompactDropsIff | internal/identity/identity.go:118-126 | a device disappears if and only if it is not the current one and was revoked at a known time not after the cutoff |
| IdentityLifecycle.CompactKeepsActive | internal/identity/identity.go:118-126 | the unrevoked devices stay, in order |
| MessageFanOut.CompactKeepsInvite | internal/store/client.go:157 | so the invite, and all that is encrypted for it, is the same after saving |
| IdentityLifecycle.NeverRevokedStays | internal/identity/identity.go:94-126 | over any stretch of a life a device that is not revoked stays in the list |
| IdentityLifecycle.RevokeIff | internal/identity/identity.go:94-108 | revocation works if and only if the identifier names a device, by ID or else by mailbox, that is not the current one; then that one is revoked as of now and nothing else changes |
| IdentityLifecycle.ApproveMeaning | internal/identity/enrollment.go:89-119 | the first device that shares ID or mailbox is overwritten but keeps both and its private keys, otherwise a device without private keys is appended; the signature covers exactly its fields |
| IdentityLifecycle.LifeStaysSoundIff | internal/identity/identity.go:94-147 | over every run of approvals of any requests, revocations and compactions the identity is sound all along if and only if every approved request is harmless where it is approved; account keys are constant in any case |
| IdentityLifecycle.CompleteAfterApprove | internal/identity/enrollment.go:50-87 | completing an approval yields a sound identity with the same public devices and the pending device's private keys |
| IdentityLifecycle.ApprovalCompletesIff | internal/identity/enrollment.go:50-119 | for every request a sound identity approves and every pending enrollment: completing works if and only if account, device ID and key pair are those of the request, the requested device is not a revoked one and the approver stays valid |
| IdentityLifecycle.CompletedMeans | internal/identity/enrollment.go:50-87 | whatever approval completes is for this account and device, was sealed for the device's own key pair and describes a list in which every device verifies |
| MessageModel.EncryptForDevices | internal/session/messages.go:18-57 | the loop yields one envelope per active device, or the first error |
| MessageFanOut.InviteBecomesContact | internal/identity/contact.go:26-48 | the invite of a sound identity is accepted and lists exactly its active devices |
| MessageFanOut.FirstIsFound | internal/identity/contact.go:65-72 | of several devices with one mailbox the first is found |
| MessageFanOut.EncryptsIff | internal/session/messages.go:18-57 | encrypting works if and only if the sender has a current device with keys and the contact an active device and no active one without a key, and which refusal comes first |
| MessageFanOut.EveryActiveDeviceReads | internal/session/messages.go:18-112 | one envelope per active device, addressed to it, and each such device decrypts it to the text |
| MessageFanOut.EnrolledDeviceReads | internal/identity/enrollment.go:50-119 | a newly enrolled device reads what is sent to the account's new invite |
| MessageFanOut.ReadByHoldersOnly | internal/session/messages.go:18-112 | of the envelopes made for any contact the k-th is read by exactly those who hold the key of its k-th active device and list the sending device first under its mailbox, unrevoked and with its keys; they read the text |
| MessageFanOut.ReadWithItsKeyOnly | internal/session/messages.go:18-112 | between sound accounts a reader holding any key reads the k-th envelope if and only if that is the key of the recipient's k-th active device |
| MessageFanOut.RevokedIsCutOff | internal/identity/identity.go:48-108 | after a revocation nothing sent to the new invite is read with the device's key, unless another device shares it, and nothing from its mailbox is read by those who have the new invite |
| MessageBinding.ContentIsBound | internal/session/messages.go:83-116 | under a signature taken from an encrypted envelope only its text is read, with the same nonce, ciphertext and keys, and with addresses that join to the same string |
| MessageBinding.AddressesBoundIff | internal/session/messages.go:114-116 | both addresses are bound by the signature, for every reader and every contact made from a valid invite, if and only if the mailboxes bring in no line break of their own, the sender's first character aside |
| MessageBinding.AddressesCanShift | internal/session/messages.go:114-116 | an envelope from "a" to "b\nc" is also read with sender "a\nb" and recipient "c" |

## Left out

- HTTP, websocket, TLS, Bolt, YAML and command-line plumbing, the terminal UI, media and logging: only their state changes are modelled.
- Write failures other than saving an attachment, queueing an envelope and fetching a backlog: an error return without a state change.
- Error texts, and which of several errors `VerifyInvite` reports: a failed check is a failed check.
- AttachmentService.Service.HandleIncoming: contact lookup, decryption and the other payload kinds are one case without effect on the table, because they only decide whether a chunk comes out; decryption is `MessageModel.Decrypt`.
- `handlePublish`'s size check and rate limit (internal/relay/websocket.go:143-156): a publish step is one that passed them.
- Failed socket writes: a live send is the attempt, as in `send`.
- The encryption of room payloads, which is that of any message.
- Bolt's limit of 2^31 - 2 bytes on values: queues and entries are taken to stay below it.
- Rendezvous slots, contact requests, trust labels, passphrases and invite codes: easier state that adds little.
- The directory entry's `Version` is signed but the stores never compare it, so nothing is claimed about it.
- Envelopes with an empty body encoding are returned as plain bodies by `Decrypt`, signature or not; `MessageBinding` speaks of encoded ones.
- Secrecy: boxes and signatures are ideal, so only functional properties are stated.
- AttachmentTransfer.ExactlyOnce: assumes no sweep, cap or failed write hits the transfer, as the source promises nothing then; `AttachmentTransfer.PromptTransferArrives` gives hypotheses on the deliveries alone.
- Filename characters are compared after trimming Unicode white space; no other Unicode normalisation is modelled.
