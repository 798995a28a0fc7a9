# SwiftChat: a verified model of its stateful cores

SwiftChat is a chat system of small services over RocksDB: a chat service with messages,
groups and offline queues, a friend service, a file service, a websocket gate, a desktop
client, and an asynchronous logger and token library shared by all. This project models the
parts of it that keep state or transform data, and proves what every run of them keeps.

RocksDB is an ordered set of byte-string keys with `Seek`, `Next` and atomic batches. A service
call is a step; a class with methods follows the source's own statements and is proved equal to
a step function, and the theorems are about every sequence of steps. Identifiers and clocks are
arguments. Identifiers carry no colon, as generated (`backend/common/src/utils.cpp:121-138`).

| file | what it holds |
|---|---|
| `Collections.dfy`, `OrderedKeys.dfy` | shared values; bytewise order, iterators, prefix scans |
| `MessageKeys.dfy`, `MessageIndex.dfy`, `MessageStore.dfy` | message keys, what the key space means, the message store |
| `Paging.dfy`, `MessagePaging.dfy` | a client that follows a cursor, applied to offline queues and history |
| `GroupModel.dfy`, `GroupStore.dfy`, `GroupService.dfy` | group membership |
| `ChatModel.dfy`, `ChatService.dfy` | sending, recalling, reading and dissolving, over both stores |
| `FriendModel.dfy`, `FriendService.dfy` | friendships and friend requests |
| `FileModel.dfy`, `FileService.dfy` | resumable uploads, instant upload, range reads |
| `RingBuffer.dfy`, `AsyncLogger.dfy` | the logger's buffer, and its threads interleaved |
| `Base64Url.dfy`, `Jwt.dfy` | base64url over 32-bit accumulators, HS256 tokens |
| `Strings.dfy` | split, join and in-place replacement |
| `WsSession.dfy`, `GateService.dfy`, `ProtocolHandler.dfy` | write queue, connection maps, pending requests |

`dafny verify dfyconfig.toml` checks the project.

## Main results

- A prefix scan with an early break visits exactly the keys under the prefix
  (`OrderedKeys.ScanIsComplete`), so `GetHistory` returns exactly the newest `limit` messages of
  the conversation before the anchor, newest first and ties by id
  (`MessageStore.RocksDBMessageStore.GetHistory`, `MessagePaging.HistoryIsNewestPage`).
- Following either cursor to the end shows every message once **if and only if** no page ends in
  a timestamp tie (`OfflinePagingExact`, `HistoryPagingExact`). Offline ties repeat but never lose
  messages, and the walk ends **if and only if** no tie is longer than a page and followed by another
  entry (`OfflineLosesNothing`, `OfflineEndsExact`). Scrolling back always ends and never repeats, and
  loses a message **if and only if** a tie is split (`HistoryAlwaysStops`, `HistoryRepeatsNothing`,
  `HistoryLossExact`).
- A message that is sent is stored as sent, waits for exactly its recipients, and is read by both sides of the
  chat (`ChatModel.SentIsFiled`, `SendQueuesRecipients`, `SentIsRead`).
- In every interleaving of producers, backend and `Stop`, accepted log entries are written in lock
  order; once `Stop` has returned the undelivered ones are exactly the commits after the final
  swap, which do happen, and shutdown ends; a push is refused **only** by a stopped or a full buffer
  (`AsyncLogger`).
- `Base64UrlDecode(Base64UrlEncode(x)) == x` with wrapping 32-bit accumulators, and any token
  verifies **if and only if** it carries the MAC under the verifier's secret and its subject, issuer and
  expiry cut to 32 bits allow it; a token made under another secret is refused.
- Over every run, group indexes mirror each other and every live group has its owner; who joins,
  who goes, whose role changes to what, when the owner changes, when the owner row stops being unique and
  which error is answered is characterised exactly;
  the stored count is off by the number of founders for good; a dissolved group stays dead and its
  timeline never grows.
- Over every run, friendships are symmetric, irreflexive and agreed upon; at most one request per
  ordered pair is pending; answers are final.
- From the first chunk to any later moment, an uploaded file is exactly its accepted chunks; a
  sender that resumes at the reported offset stores its content; tiling range reads rebuild it **if and
  only if** they reach its end without overflow; instant upload never names a deleted file, and finds an
  md5 **if and only if** the last event about it was a completion; nothing is left behind on disk
  **unless** the session goes between the lookup and the write of an append.
- `ReplaceAll(s, from, to)` is `Join(Split(s, from), to)`, and splitting undoes joining **if and
  only if** no delimiter starts too early in the parts.
- Session writes, connection maps and pending requests keep their run invariants.

## Where the code and its comments differ

The model follows the code in each case.

- `component/asynclogger/src/ring_buffer.cpp:19` speaks of dropping the oldest entry; the code
  refuses the newest.
- A dissolved group's id is meant to stay blocked, but its owner can still call `DismissGroup`,
  which removes the tombstone (`ChatModel.TombstoneExact`, `GroupModel.TombstoneLifted`).
- Private conversation ids `p_{a}_{b}` keep the conversation of two generated users to themselves, whatever
  id a third one addresses (`ChatModel.PrivateIdIsPrivate`), but conversations with made-up recipients can
  share an id (`ChatModel.GeneratedCollision`); `ChatModel.PrivateIdExact` says exactly when.
- Reading one chat clears queued messages of the others (`ChatModel.OtherChatCleared`).
- A dissolution between the member test and the end of an invitation or a send lets a member or a message
  into the dissolved group (`ChatModel.LateInviteExact`, `ChatModel.LateSendExact`).
- The md5 behind instant upload is what the uploader declared (`FileModel.Md5IsDeclared`).
- `backend/friendsvr/internal/service/friend_service.cpp:176` says friends of a deleted group get the
  empty group id; the store writes `default`.
- `backend/common/src/jwt_helper.cpp:51-56`: the decode table is zero from 128 up, so such bytes
  decode as if they were `A`; `Table` says so, and codec claims are about the alphabet.
- `iat` and `exp` are read through an `int` default and keep their low 32 bits
  (`Jwt.LateExpiryRefused`).
- `offset + length` in `ReadFileRange` can leave the 64-bit integers; the model answers `Overflow`
  there and states exactly when.

## Model

| member | source | states |
|---|---|---|
| OrderedKeys.ScanIsComplete | backend/chatsvr/internal/store/message_store.cpp:253-255 | a prefix scan visits exactly the sorted keys under the prefix |
| OrderedKeys.CollectSuffixes | backend/chatsvr/internal/store/group_store.cpp:387-404 | the id-collecting scan returns exactly the ids under the prefix, in order |
| MessageKeys.DigitsOrder | backend/chatsvr/internal/store/message_store.cpp:115-120 | zero padding makes bytewise order numeric order |
| MessageKeys.EntryRoundTrip | backend/chatsvr/internal/store/message_store.cpp:151-165 | parsing a timeline or offline key gives back its rev_ts and message id |
| MessageKeys.EntryOrder | backend/chatsvr/internal/store/message_store.cpp:115-136 | key order is newest first, then message id, including out-of-range timestamps |
| MessageKeys.ChatPrefixUnique | backend/chatsvr/internal/store/message_store.cpp:122-128 | a timeline key has a conversation's prefix iff it is of that conversation |
| MessageKeys.OfflinePrefixUnique | backend/chatsvr/internal/store/message_store.cpp:130-136 | an offline key has a user's prefix iff it is of that user |
| MessageIndex.TimelineScan | backend/chatsvr/internal/store/message_store.cpp:240-258 | scanning a conversation visits its messages, newest first, and no other key |
| MessageIndex.OfflineScan | backend/chatsvr/internal/store/message_store.cpp:317-329 | scanning a user's queue visits that queue, newest first, and no other key |
| MessageIndex.TimelineEntryMeans | backend/chatsvr/internal/store/message_store.cpp:200-215 | a timeline key exists iff its message is stored under that conversation and rev_ts, so each message is in one timeline |
| MessageIndex.OfflineEntryMeans | backend/chatsvr/internal/store/message_store.cpp:291-304 | an offline key exists iff the message waits for that user, filed at its own rev_ts |
| MessageStore.RocksDBMessageStore.Save | backend/chatsvr/internal/store/message_store.cpp:200-215 | stores a new message and its single timeline key; refuses a known id; keeps the index exact |
| MessageStore.RocksDBMessageStore.GetHistory | backend/chatsvr/internal/store/message_store.cpp:232-274 | exactly the newest `limit` messages of the conversation older than the anchor, all error paths included |
| MessageStore.RocksDBMessageStore.MarkRecalled | backend/chatsvr/internal/store/message_store.cpp:276-289 | changes status and recall time of one message; the index stays exact |
| MessageStore.RocksDBMessageStore.AddToOffline | backend/chatsvr/internal/store/message_store.cpp:291-304 | queues a stored message for a user; the index stays exact |
| MessageStore.RocksDBMessageStore.PullOffline | backend/chatsvr/internal/store/message_store.cpp:306-349 | one page of the queue behind the cursor, the next cursor and has_more |
| MessageStore.RocksDBMessageStore.ClearOffline | backend/chatsvr/internal/store/message_store.cpp:351-391 | removes exactly the user's entries not newer than the given message, or all |
| MessageStore.TakePage | backend/chatsvr/internal/store/message_store.cpp:321-339 | the page loop skips to the cursor and takes the next entries |
| MessagePaging.HistoryIsNewestPage | backend/chatsvr/internal/store/message_store.cpp:232-274 | with timestamps in range, history is the first `limit` of the sorted messages strictly older than the anchor |
| MessagePaging.NoHistory | backend/chatsvr/internal/store/message_store.cpp:232-251 | an unknown anchor, one of another conversation, or a limit that is not positive shows nothing |
| MessagePaging.HistoryShowsAll | backend/chatsvr/internal/store/message_store.cpp:232-274 | without an anchor and with a limit that large, history shows exactly the conversation |
| Paging.PagingExact | backend/chatsvr/internal/store/message_store.cpp:306-349 | a cursor client sees every item once iff resuming lands right behind each full page |
| MessagePaging.OfflinePagingExact | backend/chatsvr/internal/store/message_store.cpp:306-349 | following PullOffline yields the queue once, newest first, iff no inner page ends inside a tie |
| MessagePaging.DistinctTimestampsPageCleanly | backend/chatsvr/internal/store/message_store.cpp:306-349 | with distinct timestamps every limit works |
| MessagePaging.OfflineLosesNothing | backend/chatsvr/internal/store/message_store.cpp:306-349 | whoever is told to stop has every entry, ties or not |
| MessagePaging.OfflineEndsExact | backend/chatsvr/internal/store/message_store.cpp:321-347 | following PullOffline ends iff no tie is longer than a page and followed by another entry |
| MessagePaging.TiesNeverFinish | backend/chatsvr/internal/store/message_store.cpp:321-347 | a walk without end: three or more entries at one time and a limit of one |
| MessagePaging.HistoryPagingExact | backend/chatsvr/internal/store/message_store.cpp:232-274 | scrolling back shows the timeline once iff no page boundary splits a tie |
| MessagePaging.HistoryRepeatsNothing | backend/chatsvr/internal/store/message_store.cpp:262-262 | scrolling back never repeats a message |
| MessagePaging.HistoryLossExact | backend/chatsvr/internal/store/message_store.cpp:232-274 | scrolling back leaves a message out for good iff a page boundary splits a tie |
| MessagePaging.TwinNeverShown | backend/chatsvr/internal/store/message_store.cpp:262-262 | two messages of one moment read one at a time: one is never shown |
| MessagePaging.HistoryAlwaysStops | backend/chatsvr/internal/store/message_store.cpp:232-274 | scrolling back always comes to an end |
| RingBuffer.RingBuffer.Push | component/asynclogger/src/ring_buffer.cpp:12-33 | a push is taken iff the buffer is not stopped and holds fewer entries than its capacity, behind all earlier ones |
| RingBuffer.RingBuffer.SwapAndGet | component/asynclogger/src/ring_buffer.cpp:35-58 | hands over all entries in push order and leaves the buffer empty |
| RingBuffer.BackendThread.ProcessEntries | component/asynclogger/src/backend_thread.cpp:79-94 | every sink receives every entry once, in order |
| AsyncLogger.StepKeepsInv | component/asynclogger/src/ring_buffer.cpp:12-58 | each critical section keeps the conservation and shutdown invariant |
| AsyncLogger.AcceptedIsConserved | component/asynclogger/src/ring_buffer.cpp:12-58 | in every interleaving accepted = written ++ batch ++ buffer, within capacity |
| AsyncLogger.OnlyLateCommitsUndelivered | component/asynclogger/src/backend_thread.cpp:25-49 | when Stop returns, what is missing are distinct pushes past the stop test that committed after the final swap |
| AsyncLogger.DeliveredExact | component/asynclogger/src/backend_thread.cpp:25-49 | everything accepted was written iff there was no such commit |
| AsyncLogger.LateCommitIsLost | component/asynclogger/src/ring_buffer.cpp:12-25 | a run in which a push returns true and is never written |
| AsyncLogger.ShutdownTerminates | component/asynclogger/src/backend_thread.cpp:25-77 | after the stop only boundedly many moves are left, and one is possible until Stop returns |
| AsyncLogger.CommitExact | component/asynclogger/src/ring_buffer.cpp:18-29 | a commit is accepted, behind everything accepted so far, iff the buffer holds fewer entries than its capacity |
| AsyncLogger.BurstExact | component/asynclogger/src/ring_buffer.cpp:12-33 | of pushes with no swap in between the first are accepted, in order, as many as there is room for, and the others refused |
| AsyncLogger.FirstPushesAccepted | component/asynclogger/src/ring_buffer.cpp:12-33 | up to `capacity` pushes into a new logger are all accepted, in order |
| AsyncLogger.BackendRoundWrites | component/asynclogger/src/backend_thread.cpp:61-77 | while running, one round of the backend writes whatever the buffer holds |
| Base64Url.CodecRoundTrip | backend/common/src/jwt_helper.cpp:19-69 | decoding an encoding gives back every byte sequence |
| Base64Url.EncodedExact | backend/common/src/jwt_helper.cpp:19-36 | every character is the standard's: three bytes as one 24-bit number, cut into sextets, looked up in table 2 of RFC 4648 |
| Base64Url.StopsExact | backend/common/src/jwt_helper.cpp:44-62 | decoding stops at exactly the ASCII characters outside both alphabets |
| Base64Url.EncodedShape | backend/common/src/jwt_helper.cpp:19-38 | unpadded, length ceil(4n/3), alphabet of section 5 of RFC 4648 |
| Base64Url.PushedIsSextets | backend/common/src/jwt_helper.cpp:22-31 | the wrapping 32-bit accumulator pushes exactly the sextets of the input |
| Base64Url.EmittedIsBytes | backend/common/src/jwt_helper.cpp:57-67 | the wrapping 32-bit accumulator emits exactly the bytes of the sextets |
| Base64Url.Base64UrlEncode | backend/common/src/jwt_helper.cpp:19-38 | the loops compute the encoding |
| Base64Url.Base64UrlDecode | backend/common/src/jwt_helper.cpp:44-69 | the loops compute the decoding, stopping at the first foreign character |
| Jwt.HexDecode | backend/common/src/jwt_helper.cpp:86-99 | the loop decodes digit pairs, foreign characters as zero |
| Jwt.JwtCreate | backend/common/src/jwt_helper.cpp:103-128 | header and claims with their defaults, each encoded, and the encoded MAC of the two under the secret |
| Jwt.JwtVerify | backend/common/src/jwt_helper.cpp:130-171 | the verdict on any token, malformed ones included |
| Jwt.IssuedTokensVerify | backend/common/src/jwt_helper.cpp:103-171 | an issued token is valid iff user, issuer and 32-bit expiry allow it, and names its user |
| Jwt.LateExpiryRefused | backend/common/src/jwt_helper.cpp:107-161 | one past that range is refused from the start |
| Jwt.AcceptedExact | backend/common/src/jwt_helper.cpp:130-171 | any token is accepted iff it is two dot-free segments and their encoded MAC under the verifier's secret, with claims that have a subject, an accepted issuer and an unexpired 32-bit expiry, whom the verdict names |
| Jwt.OtherSignatureRefused | backend/common/src/jwt_helper.cpp:141-149 | any other signature than the encoded MAC under the verifier's secret is refused, whatever the claims and the time |
| Jwt.WrongSecretRefused | backend/common/src/jwt_helper.cpp:122-149 | a token issued under one secret is refused under another whenever the MACs of its message differ |
| Jwt.Int32Exact | backend/common/src/jwt_helper.cpp:158-159 | the cut keeps the value modulo 2^32, and keeps what fits an int |
| GroupModel.StepKeepsInv | backend/chatsvr/internal/service/group_service.cpp:25-271 | every operation keeps the mirror, the keys and the owner |
| GroupModel.RunKeepsInv | backend/chatsvr/internal/service/group_service.cpp:25-271 | the same over every run |
| GroupModel.SingleOwnerExact | backend/chatsvr/internal/service/group_service.cpp:250-271 | an operation keeps the owner row unique iff it is not its owner granting the owner role to a member |
| GroupModel.RunKeepsSingleOwner | backend/chatsvr/internal/service/group_service.cpp:25-271 | a run without such grants keeps every owner row unique |
| GroupModel.TwoOwners | backend/chatsvr/internal/service/group_service.cpp:250-271 | creating a group and granting the role ends with two owner rows |
| GroupModel.JoinExact | backend/chatsvr/internal/service/group_service.cpp:25-170 | someone becomes a member iff they found a new group of at least three or a member invites them |
| GroupModel.PartExact | backend/chatsvr/internal/service/group_service.cpp:96-217 | a member goes iff they leave and are not the owner, are kicked by a higher rank, or the owner closes the group |
| GroupModel.OwnerChangeExact | backend/chatsvr/internal/service/group_service.cpp:227-248 | the owner pointer moves iff the owner hands over to a member |
| GroupModel.RowExact | backend/chatsvr/internal/service/group_service.cpp:227-271 | the row of a member who stays changes only in its role: to what the owner set for a member who is not an owner, or by the owner's hand-over |
| GroupModel.JoinedRow | backend/chatsvr/internal/service/group_service.cpp:50-170 | whoever joins is an ordinary member, except the creator, who is owner |
| GroupModel.GroupsExact | backend/chatsvr/internal/service/group_service.cpp:25-108 | a group is there iff it was and its owner did not dismiss it, or at least three founders create it under a fresh id |
| GroupModel.NewGroupRow | backend/chatsvr/internal/service/group_service.cpp:50-65 | a new group has the given name, or the usual one, the picture, its creator as owner and no announcement |
| GroupModel.GroupRowExact | backend/chatsvr/internal/service/group_service.cpp:116-142 | a group row changes in name, picture and announcement iff the owner or an administrator edits it, and in status iff its owner dissolves it |
| GroupModel.NotOwnerExact | backend/chatsvr/internal/service/group_service.cpp:96-271 | NOT_GROUP_OWNER is answered iff someone else asks for what only the owner may do |
| GroupModel.KickRefusedExact | backend/chatsvr/internal/service/group_service.cpp:172-200 | KICK_NOT_ALLOWED is answered iff the target is an owner, or both are administrators |
| GroupModel.ForbiddenExact | backend/chatsvr/internal/service/group_service.cpp:116-271 | PERMISSION_DENIED is answered iff an ordinary member kicks or edits, or the role of an owner is to be set |
| GroupModel.CreationSurplus | backend/chatsvr/internal/service/group_service.cpp:50-90 | creation counts the founders twice |
| GroupModel.SurplusConserved | backend/chatsvr/internal/store/group_store.cpp:268-315 | no operation changes count minus rows of a live group |
| GroupModel.SurplusForever | backend/chatsvr/internal/service/group_service.cpp:50-90 | from creation on, as long as the group lives, the count is ahead of the rows by the number of founders |
| GroupStore.MemberKeys | backend/chatsvr/internal/store/group_store.cpp:84-92 | a key under a group's prefix is present iff that member row is |
| GroupStore.UserKeys | backend/chatsvr/internal/store/group_store.cpp:87-95 | a key under a user's prefix is present iff that index row is |
| GroupStore.RocksDBGroupStore.MemberIds | backend/chatsvr/internal/store/group_store.cpp:333-363 | exactly the members, in user id order |
| GroupStore.RocksDBGroupStore.GetUserGroupIds | backend/chatsvr/internal/store/group_store.cpp:387-404 | exactly the groups that have the user as a member |
| GroupStore.RocksDBGroupStore.GetMembers | backend/chatsvr/internal/store/group_store.cpp:333-363 | the total and one page of the member rows in user id order, or exactly when the 32-bit page bounds overflow |
| GroupStore.PagesTile | backend/chatsvr/internal/store/group_store.cpp:346-361 | pages follow one another without gap or overlap until all members are listed |
| GroupStore.FirstPage | backend/chatsvr/internal/store/group_store.cpp:346-352 | any page number below two is the first page, and fifty the size when none is given |
| GroupStore.RocksDBGroupStore.AddMember | backend/chatsvr/internal/store/group_store.cpp:268-291 | both index rows and the count in one batch |
| GroupStore.RocksDBGroupStore.RemoveMember | backend/chatsvr/internal/store/group_store.cpp:293-315 | both index rows and the count in one batch |
| GroupStore.RocksDBGroupStore.DeleteGroup | backend/chatsvr/internal/store/group_store.cpp:197-225 | the group row and both index rows of every scanned member go |
| GroupStore.RocksDBGroupStore.DissolveGroup | backend/chatsvr/internal/store/group_store.cpp:227-262 | all members go, the row stays with status 1; idempotent |
| GroupService.GroupService.CreateGroup | backend/chatsvr/internal/service/group_service.cpp:25-94 | the creation step, with its error codes, and the store stays valid |
| GroupService.GroupService.DismissGroup | backend/chatsvr/internal/service/group_service.cpp:96-108 | the dismissal step, owner only |
| GroupService.GroupService.UpdateGroup | backend/chatsvr/internal/service/group_service.cpp:116-142 | the update step, owner or admin |
| GroupService.GroupService.InviteMembers | backend/chatsvr/internal/service/group_service.cpp:144-170 | the invitation step |
| GroupService.GroupService.RemoveMember | backend/chatsvr/internal/service/group_service.cpp:172-200 | the kick step with its rank checks |
| GroupService.GroupService.LeaveGroup | backend/chatsvr/internal/service/group_service.cpp:202-217 | the leave step |
| GroupService.GroupService.TransferOwner | backend/chatsvr/internal/service/group_service.cpp:227-248 | demote, promote and move the pointer amount to the transfer step |
| GroupService.GroupService.SetMemberRole | backend/chatsvr/internal/service/group_service.cpp:250-271 | the role step, for any role number |
| ChatModel.PrivateIdSymmetric | backend/chatsvr/internal/store/message_store.cpp:534-551 | both users get the same conversation |
| ChatModel.PrivateIdExact | backend/chatsvr/internal/store/message_store.cpp:534-551 | two pairs share an id iff they are the same pair or one text can be cut at another underscore into the other |
| ChatModel.GeneratedUnderscores | backend/authsvr/internal/service/auth_service.cpp:213-215 | generated user ids hold one underscore |
| ChatModel.PrivateIdIsPrivate | backend/chatsvr/internal/store/message_store.cpp:534-551 | whatever id a user addresses, it is the conversation of two users iff it is their own, for senders and users with equally many underscores |
| ChatModel.PrivateIdCollision | backend/chatsvr/internal/store/message_store.cpp:534-551 | of three users in order, two conversations with made-up recipients share an id |
| ChatModel.GeneratedCollision | backend/chatsvr/internal/store/message_store.cpp:534-551 | any three generated user ids give such a collision |
| ChatModel.StepKeepsWorld | backend/chatsvr/internal/service/chat_service.cpp:41-279 | every call, with the keys it writes and deletes, keeps both stores' invariants |
| ChatModel.RunKeepsWorld | backend/chatsvr/internal/service/chat_service.cpp:41-279 | over every run the index keys are exactly one timeline key per stored message and one offline key per waiting pair, and groups stay mirrored and owned |
| ChatModel.EveryRunFromStart | backend/chatsvr/internal/service/chat_service.cpp:41-279 | and so from empty stores |
| ChatModel.DissolvedForever | backend/chatsvr/internal/service/chat_service.cpp:240-279 | a dissolved group never regains a member, and its timeline never changes |
| ChatModel.DissolvingKills | backend/chatsvr/internal/service/chat_service.cpp:64-71 | after dissolution every send to the group fails |
| ChatModel.TombstoneExact | backend/chatsvr/internal/service/group_service.cpp:96-108 | the tombstone stays and blocks its id until, and only until, its owner dismisses the group |
| GroupModel.TombstoneLifted | backend/chatsvr/internal/service/group_service.cpp:96-108 | a run in which a dissolved group is dismissed and its id used again |
| ChatModel.SendQueuesRecipients | backend/chatsvr/internal/service/chat_service.cpp:89-141 | a sent message waits for exactly its recipients |
| ChatModel.SendExact | backend/chatsvr/internal/service/chat_service.cpp:41-88 | a send succeeds iff both ids are given, the sender is a member of a group it addresses and the message id is new; else nothing changes |
| ChatModel.SentIsFiled | backend/chatsvr/internal/service/chat_service.cpp:56-88 | a sent message is stored as sent, live, in the timeline of the group or of the private conversation of the two |
| ChatModel.SentIsRead | backend/chatsvr/internal/service/chat_service.cpp:192-206 | sender and recipient find a private message, and every reader a group message, when they open the chat |
| ChatModel.RecipientsExact | backend/chatsvr/internal/service/chat_service.cpp:89-141 | recipients are the peer, or the members other than the sender among the first thousand |
| ChatModel.AllMembersReachedExact | backend/chatsvr/internal/service/chat_service.cpp:133-141 | all other members are recipients iff there are at most 1000 members, or 1001 with the sender last |
| ChatModel.RecallChangesLittle | backend/chatsvr/internal/service/chat_service.cpp:150-180 | a message is recalled iff its sender asks within 120 seconds; recalling changes its status and recall time and nothing else |
| ChatModel.ReadClearsExact | backend/chatsvr/internal/store/message_store.cpp:369-387 | marking a chat as read clears exactly what is not newer than the last message read, in every conversation |
| ChatModel.OtherChatCleared | backend/chatsvr/internal/service/chat_service.cpp:208-218 | a run in which reading one chat drops an unread message of another |
| ChatModel.LateInviteExact | backend/chatsvr/internal/service/group_service.cpp:144-170 | with other calls between member test and adding, the invariant survives iff the group was not dissolved or there is nobody to add |
| ChatModel.InvitedAfterDissolution | backend/chatsvr/internal/store/group_store.cpp:268-291 | a run in which a dissolved group gains a member that way |
| ChatModel.LateSendExact | backend/chatsvr/internal/service/chat_service.cpp:64-141 | a send finished after the dissolution lengthens the dead timeline iff it goes to that group under a new id, and reaches nobody |
| ChatService.ChatServiceCore.SendMessage | backend/chatsvr/internal/service/chat_service.cpp:41-148 | the send step, and when it succeeds |
| ChatService.ChatServiceCore.FanOut | backend/chatsvr/internal/service/chat_service.cpp:133-141 | queues for every listed member but the sender |
| ChatService.ChatServiceCore.GetHistory | backend/chatsvr/internal/service/chat_service.cpp:192-206 | no history for a dissolved group, else the store's history of the resolved conversation |
| ChatService.ChatServiceCore.RecallMessage | backend/chatsvr/internal/service/chat_service.cpp:150-180 | the recall step: sender only, within two minutes |
| ChatService.ChatServiceCore.MarkRead | backend/chatsvr/internal/service/chat_service.cpp:208-218 | clears the offline entries up to the message read |
| ChatService.ChatServiceCore.DeleteConversation | backend/chatsvr/internal/service/chat_service.cpp:240-279 | private conversations are refused; for a group: owner only, and the group is dissolved |
| FriendModel.StepKeepsInv | backend/friendsvr/internal/service/friend_service.cpp:21-198 | symmetric, irreflexive, agreed friendships; one pending request per ordered pair; exact indexes; statuses only leave pending |
| FriendModel.RunKeepsInv | backend/friendsvr/internal/service/friend_service.cpp:21-198 | the same over every run, and answers are final |
| FriendModel.FriendshipExact | backend/friendsvr/internal/service/friend_service.cpp:50-93 | friendship begins iff a request between the two is accepted and ends iff one removes the other |
| FriendModel.AcceptExact | backend/friendsvr/internal/service/friend_service.cpp:63-78 | acceptance succeeds iff they are not friends yet, else the request stays pending |
| FriendModel.AskExact | backend/friendsvr/internal/service/friend_service.cpp:21-48 | asking succeeds iff the two differ, have names, are not friends, the other has not blocked the asker and no such request is pending; it files one pending request |
| FriendModel.RefusalExact | backend/friendsvr/internal/service/friend_service.cpp:50-80 | a refusal by the recipient leaves status 2 and touches nothing else |
| FriendModel.AcceptanceExact | backend/friendsvr/internal/service/friend_service.cpp:50-78 | an acceptance leaves status 1 and the two rows: the answerer's in the group asked for or the default one, the asker's in the default one |
| FriendModel.FriendRowExact | backend/friendsvr/internal/service/friend_service.cpp:157-198 | a friend row that stays changes its group by a move or a deletion of the group, its remark when set, and otherwise not at all |
| FriendModel.FriendGroupExact | backend/friendsvr/internal/service/friend_service.cpp:132-219 | a friend group is there iff it was and is not deleted, or is created, or is the default one at an acceptance; its name stays |
| FriendModel.BlockExact | backend/friendsvr/internal/service/friend_service.cpp:106-126 | a user is blocked iff they were and are not unblocked, or are blocked now by someone else |
| FriendModel.DeleteGroupEmpties | backend/friendsvr/internal/store/friend_store.cpp:441-459 | deleting a group moves exactly its friends to the default group and touches no other row |
| FriendModel.ShownExact | backend/friendsvr/internal/store/friend_store.cpp:230-236 | a listed friend stays listed iff nobody ends the friendship and the friend is not moved to the empty group |
| FriendModel.MovedOutOfSight | backend/friendsvr/internal/service/friend_service.cpp:182-189 | moving to the empty group hides a friend who remains one |
| FriendService.ReceivedKeys | backend/friendsvr/internal/store/friend_store.cpp:101-138 | a key under a recipient's prefix is present iff that request was received |
| FriendService.FriendKeys | backend/friendsvr/internal/store/friend_store.cpp:101-138 | a key under a user's friend prefix is present iff that friendship is |
| FriendService.GroupKeys | backend/friendsvr/internal/store/friend_store.cpp:101-138 | a key under a user's group prefix is present iff that group is |
| FriendService.FriendService.GetReceivedRequests | backend/friendsvr/internal/store/friend_store.cpp:350-374 | exactly the stored requests addressed to the user, each once, in id order |
| FriendService.FriendService.GetFriends | backend/friendsvr/internal/store/friend_store.cpp:215-241 | exactly the rows with a group, of the named group if one is named |
| FriendService.FriendService.AddFriend | backend/friendsvr/internal/service/friend_service.cpp:21-48 | the ask step with its five refusals |
| FriendService.FriendService.HandleRequest | backend/friendsvr/internal/service/friend_service.cpp:50-81 | the answer step |
| FriendService.FriendService.DeleteFriendGroup | backend/friendsvr/internal/service/friend_service.cpp:157-180 | the group deletion step with its error codes, through both scans |
| FileModel.PathsNeverClash | backend/filesvr/internal/service/file_service.cpp:68-96 | no two uploads or files share a path |
| FileModel.StepKeepsInv | backend/filesvr/internal/service/file_service.cpp:108-526 | bytes_written is the temporary file's length and at most file_size; stored lengths match records; md5 entries are live; no orphan on disk; other files untouched |
| FileModel.RunKeepsInv | backend/filesvr/internal/service/file_service.cpp:108-526 | the same over every run |
| FileModel.SessionHoldsAccepted | backend/filesvr/internal/service/file_service.cpp:189-235 | a temporary file grows by exactly the accepted chunks, in order |
| FileModel.FileIsImmutable | backend/filesvr/internal/service/file_service.cpp:240-358 | while a record lives neither it nor its bytes change |
| FileModel.CompletedIsAcceptedChunks | backend/filesvr/internal/service/file_service.cpp:108-296 | from start to any later moment the file is exactly the accepted chunks, recorded with the length, name, type, md5 and owner the upload was announced with |
| FileModel.StartedAsAnnounced | backend/filesvr/internal/service/file_service.cpp:131-160 | a new session holds the announced name, type, size, md5 and user, no bytes, and its deadline |
| FileModel.LifetimeExact | backend/filesvr/internal/service/file_service.cpp:479-526 | a started upload lives through every cleanup before its deadline and goes at any from then on |
| FileModel.InitAnswers | backend/filesvr/internal/service/file_service.cpp:108-128 | an upload is refused iff its size is not positive or too large, and started iff its md5 is not on record |
| FileModel.AppendAnswers | backend/filesvr/internal/service/file_service.cpp:189-213 | a chunk is refused iff its session is gone or it would exceed the announced size |
| FileModel.CompleteAnswers | backend/filesvr/internal/service/file_service.cpp:240-260 | an upload completes iff all announced bytes are there |
| FileModel.UploadStores | backend/filesvr/internal/service/file_service.cpp:301-358 | the one-shot upload stores the data as they are, with the record as given |
| FileModel.ResumedUploadIsWhole | backend/filesvr/internal/service/file_service.cpp:170-296 | completing such an upload stores the whole content |
| FileModel.FileDepartureExact | backend/filesvr/internal/service/file_service.cpp:452-464 | a file goes iff its uploader deletes it |
| FileModel.SessionDepartureExact | backend/filesvr/internal/service/file_service.cpp:240-526 | a session goes iff it is completed or found expired |
| FileModel.InstantUploadIsLive | backend/filesvr/internal/service/file_service.cpp:119-128 | instant upload answers iff the md5 is indexed, with a readable file declared under that md5 |
| FileModel.Md5IsDeclared | backend/filesvr/internal/service/file_service.cpp:108-296 | for every content and every md5 there is a run after which instant upload of the md5 hands out the content |
| FileModel.FoundIffLastEntered | backend/filesvr/internal/store/file_store.cpp:117-188 | an md5 is found iff, of the completions and deletions with it, the last was a completion |
| FileModel.TwinHidden | backend/filesvr/internal/store/file_store.cpp:170-188 | deleting one of two files with an md5 hides the other, still readable one |
| FileModel.TwinsArise | backend/filesvr/internal/service/file_service.cpp:240-296 | two uploads of one md5 under way become such files |
| FileModel.TwinRunHides | backend/filesvr/internal/service/file_service.cpp:108-464 | the run from empty stores that hides a stored file |
| FileModel.OrphanExact | backend/filesvr/internal/service/file_service.cpp:189-235 | with other calls between lookup and write of an append, a file without owner is left iff the session went in between |
| FileModel.LateWriteExact | backend/filesvr/internal/service/file_service.cpp:189-235 | the whole invariant survives such an append iff the session is still there with no bytes added |
| FileModel.CleanupRace | backend/filesvr/internal/service/file_service.cpp:479-526 | the cleanup thread between the two leaves a file without owner |
| FileModel.TilingRebuildsFile | backend/filesvr/internal/service/file_service.cpp:406-433 | consecutive reads all succeed and join to the file iff they reach its end and no tile overflows 64 bits |
| FileModel.ReadMeans | backend/filesvr/internal/service/file_service.cpp:406-433 | a range read gives as many bytes as asked for, or all the rest for a negative or too large length |
| FileModel.GreedyTileOverflows | backend/filesvr/internal/service/file_service.cpp:422-424 | a file and tiles that reach its end on which a read overflows |
| FileService.FileServiceCore.InitUpload | backend/filesvr/internal/service/file_service.cpp:108-165 | the init step: size limits, instant upload, new session |
| FileService.FileServiceCore.GetUploadState | backend/filesvr/internal/service/file_service.cpp:170-184 | the offset is the number of bytes on disk; size and expiry as recorded |
| FileService.FileServiceCore.AppendChunk | backend/filesvr/internal/service/file_service.cpp:189-235 | the append step |
| FileService.FileServiceCore.CompleteUpload | backend/filesvr/internal/service/file_service.cpp:240-296 | the completion step; the rename always finds its file |
| FileService.FileServiceCore.Upload | backend/filesvr/internal/service/file_service.cpp:301-358 | the one-shot step |
| FileService.FileServiceCore.DeleteFile | backend/filesvr/internal/service/file_service.cpp:452-464 | the delete step, uploader only |
| FileService.FileServiceCore.ReadFile | backend/filesvr/internal/service/file_service.cpp:385-401 | the stored bytes, as many as recorded, with the record's type and name |
| FileService.FileServiceCore.ReadFileRange | backend/filesvr/internal/service/file_service.cpp:406-433 | the bytes between two clamped bounds, or exactly when the sum overflows |
| FileService.FileServiceCore.ListAllUploadSessions | backend/filesvr/internal/store/file_store.cpp:230-250 | the prefix scan lists exactly the sessions, each once, in key order |
| FileService.FileServiceCore.CleanupExpiredSessions | backend/filesvr/internal/service/file_service.cpp:479-526 | drops every expired session with its file and nothing else |
| Strings.JoinedPieces | backend/common/src/utils.cpp:378-410 | joining a split gives the string back |
| Strings.SplitUndoesJoinExact | backend/common/src/utils.cpp:378-410 | splitting a join gives the parts back iff no delimiter starts too early |
| Strings.Split | backend/common/src/utils.cpp:378-397 | the loop computes the left-to-right pieces, whose join is the string |
| Strings.Join | backend/common/src/utils.cpp:399-410 | the loop puts the delimiter between the parts |
| Strings.ReplaceAll | backend/common/src/utils.cpp:452-465 | the in-place loop yields the pieces joined with the replacement, never rescans, and terminates |
| WsSession.StepKeepsInv | backend/gatesvr/internal/websocket/ws_listener.cpp:183-221 | handed ++ queue = accepted; one write outstanding at most; an open idle session has an empty queue |
| WsSession.DeliveryInOrder | backend/gatesvr/internal/websocket/ws_listener.cpp:183-221 | in every event order, handed ++ queue is what was queued while open, in order |
| WsSession.ClosedIsFinal | backend/gatesvr/internal/websocket/ws_listener.cpp:183-221 | a closed session accepts and hands over nothing more |
| WsSession.Drains | backend/gatesvr/internal/websocket/ws_listener.cpp:198-210 | as many completions as messages empty the queue |
| WsSession.WsSession.QueueSend | backend/gatesvr/internal/websocket/ws_listener.cpp:183-187 | the queue step |
| WsSession.WsSession.OnWrite | backend/gatesvr/internal/websocket/ws_listener.cpp:198-210 | the completion step, failed or not |
| Gate.LiveExact | backend/gatesvr/internal/service/gate_service.cpp:43-104 | an operation leaves an entry on a dead or foreign connection iff it adds a routed id again, or removes or binds a connection routed for the unnamed user |
| Gate.EntryExact | backend/gatesvr/internal/service/gate_service.cpp:53-104 | a user is found iff bound by the call, or found before and neither unbound nor carried by a connection that goes or is bound anew |
| Gate.ConnectionExact | backend/gatesvr/internal/service/gate_service.cpp:43-104 | binding writes user, token and mark of one connection, unbinding clears user and mark of one, nothing else changes any |
| Gate.UnnamedEntryDangles | backend/gatesvr/internal/service/gate_service.cpp:53-90 | binding no name is harmless until the connection is removed |
| Gate.ReusedIdDangles | backend/gatesvr/internal/service/gate_service.cpp:43-51 | a connection id used again takes the entry to a foreign connection |
| Gate.SoundExact | backend/gatesvr/internal/service/gate_service.cpp:43-104 | an operation keeps the map live and without an unnamed entry iff it reuses no routed id and binds a named user |
| Gate.RunKeepsSound | backend/gatesvr/internal/service/gate_service.cpp:43-110 | the same over every run |
| Gate.CompleteExact | backend/gatesvr/internal/service/gate_service.cpp:75-90 | the map keeps finding every bound connection iff no user is bound on a second one |
| Gate.SecondLoginHidden | backend/gatesvr/internal/service/gate_service.cpp:53-90 | a run in which a live second login cannot be found |
| Gate.GateService.AddConnection | backend/gatesvr/internal/service/gate_service.cpp:43-51 | a new unbound connection; the map stays sound iff the id was not routed |
| Gate.GateService.BindUser | backend/gatesvr/internal/service/gate_service.cpp:75-90 | the bind step; fails for an unknown connection; the map stays sound iff a bound user has a name |
| Gate.GateService.UnbindUser | backend/gatesvr/internal/service/gate_service.cpp:92-104 | the entry goes and one matching connection, if any, is cleared |
| Gate.GateService.GetConnIdByUser | backend/gatesvr/internal/service/gate_service.cpp:106-110 | never a dead or foreign connection |
| ProtocolHandler.RequestIdsDiffer | client/desktop/src/network/protocol_handler.cpp:159-161 | different counters make different ids |
| ProtocolHandler.StepKeepsInv | client/desktop/src/network/protocol_handler.cpp:22-184 | requests split disjointly into pending, being cleared and fired, each fired once |
| ProtocolHandler.CompletedExactlyOnce | client/desktop/src/network/protocol_handler.cpp:22-184 | in every interleaving a request fired iff it is neither pending nor held by a clear, and once |
| ProtocolHandler.FiredExact | client/desktop/src/network/protocol_handler.cpp:22-184 | a callback runs iff the event answers its request: a response with its own code, the timer with -2, an abort or a failed send with -1 |
| ProtocolHandler.FirstAnswerCounts | client/desktop/src/network/protocol_handler.cpp:22-184 | whatever follows, a request's callback has run with the code of its first answer and no other |
| ProtocolHandler.ClearAbortsExactly | client/desktop/src/network/protocol_handler.cpp:163-184 | a clear aborts only what was pending when it began, and all of it |
| ProtocolHandler.ProtocolHandler.SendRequest | client/desktop/src/network/protocol_handler.cpp:22-89 | the new request is pending, or its callback runs with -1 when it cannot be serialised |
| ProtocolHandler.ProtocolHandler.Finish | client/desktop/src/network/protocol_handler.cpp:53-130 | response and time-out take the request out before its callback runs, with that code, if it was pending |
| ProtocolHandler.ProtocolHandler.ClearPendingRequests | client/desktop/src/network/protocol_handler.cpp:163-184 | everything pending fires with -1; what the callbacks sent stays pending |

## Left out

- JSON row codecs and payload fields that no rule reads (media, mentions, replies, devices, friend
  timestamps): rows are typed records.
- Conversation rows, unread counts and the private-conversation registry rows: an upsert overwrites
  the unread count, so no count law holds.
- Writes that fail midway (rolled-back creation, partial transfer, failed append or rename): every
  write and file operation succeeds; the roll-back of a failed creation is unreachable in a valid store.
- `std::stoll` on text other than digits: stored keys never hold such text, and the model parses it to none.
- RocksDB, Redis, OpenSSL, JSON and Boost.Beast internals: an ordered key set with atomic batches, an
  abstract MAC, a JSON library that reads back what it wrote, and completion events.
- Identifier generation and clocks: arguments, fresh where the source generates them; ids that clients send
  are colon-free too, which no handler checks.
- Condition-variable waits of the logger: a swap may happen at any time, which allows more schedules
  than the source; one thread calls `Stop`; formatting and the sinks' own output are not modelled.
- 64-bit overflow of `bytes_written + size`, which would need a chunk of nearly 2^63 bytes, and the
  32-bit request counter of the client: both unbounded here.
- Parallel calls to one service run one after another, except the two halves of an append
  (`FileModel.LateWriteExact`), an invitation and a send (`ChatModel.LateInviteExact`,
  `ChatModel.LateSendExact`), and the logger; other interleavings inside a call are not modelled.
- gRPC handlers, RPC clients, the zone service, configuration, heartbeat timing and the Qt interface:
  forwarding and plumbing.
- `UrlEncode`, `UrlDecode`, trimming and case conversion: character-by-character conversions.
- Blocks, remarks and friend-group creation appear as steps of FriendModel only, without a method.
- ChatService.ChatServiceCore.MarkRead: models the clearing of the offline queue, not of the unread
  count, whose outcome is the flag the source returns.
- ChatService.ChatServiceCore.DeleteConversation: models the refusals and the dissolution, not the
  removal of the members' conversation rows.
- Optional collaborators of the chat service (group store, conversation registry) are always present.
