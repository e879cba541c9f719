# NoNetChat: a verified model of its protocols

NoNetChat is a peer-to-peer chat client with a signalling server. This project
models the parts of it that are protocols or data structures, in the form they
have there: classes whose methods update fields and loops proved against
specification functions where the code changes things step by step, and step
systems over whole runs where several peers, transactions or awaits interleave.

- **Public rooms.** Every peer sorts the room's peers by hash, links itself to
  three peers on either side, and floods public messages with a ttl of 6 and a
  window of 2048 seen ids (`PublicNode`, `PublicPeer`, `StableSort`, `Ring`,
  `Overlay`, `Rooms`). The network of such peers, with copies in flight that may
  be lost or reordered, is the step system of `Flood`, `FloodContents`,
  `FloodOnce`, `FloodEnds`, `FloodReach`, `FloodRing` and `FloodThreshold`.
- **Chat outbox.** The in-memory queue, the store of pending messages, and the
  tasks that send, drain, save and restore, interleaved at every await and cut
  off by crashes (`Outbox`, `OutboxRestart`, `OutboxDelivery`).
- **Public message cache.** Eviction after every insert in the database against
  eviction of the whole history at once (`Eviction`, `PublicCache`), and the list
  the page holds in memory (`MemoryCap`).
- **File transfer.** Container, slices, frames, interleaved reassembly, and the
  size check (`FileTransfer`).
- **Server.** The client table with its spatial index (`GeoServer`) and the
  limiter before the AI endpoint (`RateLimiter`).
- **Smaller cores.** The conversation store (`Conversations`), base64url
  (`Base64Url`), and the translation files (`Translations`).

`Prelude` holds the shared vocabulary. Every lemma switches automatic induction
off; what a body does not spell out is left to the solver, and some bodies only
name the steps. `dafny verify dfyconfig.toml` checks everything.

Where a promise of the design turned out not to hold for the code, the model
keeps the code and states exactly when the promise is kept:

- Peers that hold the same members agree on one order exactly when no two hashes
  coincide; ids that end in `fj` and `8t` after the same beginning do coincide,
  and the server admits them (`StableSort.OrderIndependentIffInjective`,
  `Overlay.SharedHashBreaksAgreement`, `Overlay.AdmittedIdsBreakAgreement`).
- A neighbour update closes all stale connections exactly when none of them has
  an id that begins with `ai-` (`PublicPeer.StaleClosedIffNoAi`,
  `PublicPeer.StaleAiStays`).
- Flooding can reach everyone on the ring exactly up to 43 peers
  (`FloodThreshold.ReachThreshold`).
- A lost full chunk is noticed exactly below 16,384,000 bytes
  (`FileTransfer.LostChunkNoticed`); the declared size is right exactly below
  4 GiB (`FileTransfer.ContainerRoundTrip`); a frame reads back exactly for ids of
  36 bytes (`FileTransfer.FrameRoundTrip`).
- The limiter lets up to 19 requests through in one minute. The exact maximum for
  an interval of any length is `RateLimiter.Most`: it is never exceeded and
  always reached (`RateLimiter.BoundedInAnyInterval`, `RateLimiter.BoundIsReached`).
- The conversation table and the messages are in step all along exactly when no
  save reuses the id of another conversation's last message and no deletion
  removes the last message of the conversation with the empty id
  (`Conversations.InStepThroughoutIff`, with inputs that break it in
  `Conversations.ReusedIdBreaks` and `Conversations.NamelessConversationStays`).
  The app never saves under an empty conversation id, so the second case is
  unreachable from it.
- Marking a conversation as read takes two transactions, and a save or a deletion
  may come between them: the tables stay in step exactly when the last message
  that was read is still stored (`Conversations.MarkKeepsIff`); otherwise a deleted
  conversation comes back, and an arrival may show neither as last nor as unread
  (`Conversations.DeletionWhileMarking`, `Conversations.ArrivalWhileMarking`).
- With fresh ids, every last message is the newest all along exactly when saves
  come in timestamp order and marking writes back a newest one
  (`Conversations.NewestThroughoutIff`).
- After a translation merge the keys are the reference's exactly when the target
  had no object where the reference has a leaf (`Translations.MergedKeysIffFits`).

## Model

| member | source | states |
|---|---|---|
| StableSort.SortFacts | src/services/PeerService.ts:536 | sorting by hash gives an ascending permutation of the peers |
| StableSort.SortTies | src/services/PeerService.ts:536 | peers of equal hash keep the order in which they were learned |
| StableSort.SortInOrder | src/services/PeerService.ts:606 | of any two peers the one with the smaller hash comes first, with equal hashes the one that came first before |
| StableSort.SortedPlace | src/services/PeerService.ts:606-608 | the place of a peer is the number of those before it |
| StableSort.OrderIndependentIffInjective | src/services/PeerService.ts:532-538 | every insertion order of a peer set sorts to the same list exactly when its hashes are distinct |
| StableSort.TiedPairBreaksOrder | src/services/PeerService.ts:522-538 | two peers with one hash make the order depend on insertion |
| PublicPeer.Service.StrHashOf | src/services/PeerService.ts:522-529 | the loop from the last character computes the 32-bit xor hash defined by recursion from the first |
| PublicPeer.StrHashValues | src/services/PeerService.ts:522-529 | the seed 5381, and the hashes of `a` and `ab` as numbers |
| PublicPeer.Service.RingNeighbors | src/services/PeerService.ts:554-564 | with more than seven peers: exactly the six distinct peers one to three places away on the ring, never oneself |
| PublicPeer.Service.AllOthers | src/services/PeerService.ts:551-553 | with at most seven peers: everyone but oneself |
| PublicPeer.Service.SelectNeighbors | src/services/PeerService.ts:532-565 | the neighbours are the ring neighbours in hash order; none when oneself is not listed, six beyond seven peers, all others otherwise |
| Ring.SmallRingIsComplete | src/services/PeerService.ts:551-553 | up to seven peers the distance rule links everyone to everyone |
| Ring.AdjacentSymmetric | src/services/PeerService.ts:555-564 | the link relation of the ring is symmetric |
| Ring.PathCoversAtMostThreePerHop | src/services/PeerService.ts:555-564 | no path of links covers more than three places per hop |
| Ring.HopDistance | src/services/PeerService.ts:549-564 | the overlay is connected and the least number of hops is the ring distance over three, rounded up |
| Overlay.AgreedOverlayIsRing | src/services/PeerService.ts:522-564 | peers that computed separately from the same members with distinct hashes form one ring with symmetric links |
| Overlay.SharedHashBreaksAgreement | src/services/PeerService.ts:522-536 | whatever comes before, ids ending in `fj` and `8t` share a hash, and a room with such a pair has no order independent of insertion |
| Overlay.AdmittedIdsBreakAgreement | server/server.js:376 | such a pair exists among the ids of six characters or more that the server admits |
| PublicPeer.OneSideInitiates | src/services/PeerService.ts:740-743 | two peers never both open the channels to each other |
| PublicPeer.GreaterIff | src/services/PeerService.ts:743 | which of two ids is greater is decided at the first code unit where they differ, a beginning being smaller |
| PublicPeer.Service.CreatePeerConnection | src/services/PeerService.ts:737-835 | nothing for a known peer; otherwise registers the connection and opens public channels exactly when this side initiates and the peer is not blocked |
| PublicPeer.Service.ClosePeerConnection | src/services/PeerService.ts:1597-1614 | removes the connection and the chat channel unless the id begins with `ai-` |
| PublicPeer.Service.ConnectNeighbors | src/services/PeerService.ts:567-575 | every neighbour is connected afterwards, once; channels are opened to exactly the new ones with smaller ids that are not blocked |
| PublicPeer.Service.Classify | src/services/PeerService.ts:581-599 | splits the connections into public bridges and stale ones, in connection order |
| PublicPeer.Service.CloseAll | src/services/PeerService.ts:611-616 | closing a list leaves exactly the connections not in it and the AI ones, and no chat channel changes |
| PublicPeer.Service.Prune | src/services/PeerService.ts:577-616 | what stays is neighbours, chat partners, the three first bridges by hash, and AI ids; a listed contact goes only where three with no greater hash stay |
| PublicPeer.FirstBridgesAre | src/services/PeerService.ts:601-608 | exactly the smaller of three and the number of bridges are kept |
| PublicPeer.FirstThreeStay | src/services/PeerService.ts:606-609 | a bridge is kept exactly when fewer than three come before it, by smaller hash or by equal hash and older connection |
| PublicPeer.KeptComeFirst | src/services/PeerService.ts:606-609 | every kept bridge comes before every dropped one in that order |
| PublicPeer.PruningOutcome | src/services/PeerService.ts:566-616 | after an update every neighbour is connected, no chat partner was dropped, and the rest is at most three still-listed public contacts and AI ids |
| PublicPeer.BridgeStaysIff | src/services/PeerService.ts:601-616 | a listed contact loses its connection exactly when it has no AI id and three such contacts, which stay, come before it |
| PublicPeer.PrunedThreeFirst | src/services/PeerService.ts:577-616 | a listed contact is closed only where three others with no greater hash stay connected |
| PublicPeer.AtMostNineSpare | src/services/PeerService.ts:566-616 | with six neighbours at most, at most nine connections remain that carry neither a chat nor an AI id |
| PublicPeer.StaleClosedIffNoAi | src/services/PeerService.ts:592-616 | all stale connections are closed exactly when none has an AI id |
| PublicPeer.StaleAiStays | src/services/PeerService.ts:1597-1602 | an unlisted connection to `ai-xyz` that nobody chats on stays |
| PublicPeer.Service.UpdatePublicNeighbors | src/services/PeerService.ts:531-620 | new neighbour set, its size, exactly the channels opened and the connections pruned, at most nine left without chat or AI id, listed contacts closed only behind three with no greater hash |
| PublicPeer.Service.AdmitListed | src/services/PeerService.ts:655-660 | the room's peers become the listed ones that are not blocked, and oneself |
| PublicPeer.Service.EnterRoom | src/services/PeerService.ts:646-652 | the seen window is cleared exactly when the room changes |
| PublicPeer.Service.OnNearbyPeers | src/services/PeerService.ts:632-668 | a list for the world room changes nothing; any other sets the room, the peers, the ring neighbours and exactly the pruned connections, as the step system has it |
| PublicPeer.Service.TrimSeenPublic | src/services/PeerService.ts:875-883 | drops the oldest ids until the limit is met |
| PublicPeer.Service.SendToNeighbors | src/services/PeerService.ts:945-953 | one copy to each neighbour with an open channel that is not to be skipped, in neighbour order |
| PublicPeer.Service.OnPublicMessage | src/services/PeerService.ts:894-955 | the handler realises the reception step and shows a message exactly when neither sender nor author is blocked, the room rule holds and the id is not seen; otherwise nothing changes |
| PublicPeer.Service.BroadcastToPublicRoom | src/services/PeerService.ts:683-716 | realises the composition step: shows and sends exactly this id, room, author, time and text with ttl 6, or nothing without a room |
| PublicNode.TargetsAre | src/services/PeerService.ts:945-953 | a copy goes to exactly the neighbours with open channels other than sender and author, once each |
| PublicNode.ReceptionShows | src/services/PeerService.ts:894-938 | for every peer and message, with the conditions written out: shown exactly when neither sender nor author is blocked, the room rule holds and the id is not seen; a refused one changes and sends nothing |
| PublicNode.ReceptionForwards | src/services/PeerService.ts:942-953 | a shown message with ttl left goes to exactly the neighbours with open channels other than sender and author, with ttl less one and nothing else changed |
| PublicNode.CompositionSends | src/services/PeerService.ts:683-716 | what a peer writes is shown and sent with exactly its room, id, time and text, itself as author and ttl 6, to every neighbour with an open channel |
| PublicNode.ReactKeepsWindow | src/services/PeerService.ts:647-651 | every event keeps the seen set a suffix of what was shown since the last room switch, never cut below 2048; a reception leaves at most 2048 |
| PublicNode.WindowOverRuns | src/services/PeerService.ts:932-938 | over a whole life of a peer, an id is shown again only after a room switch or 2048 other ids |
| Flood.IntegrityStep | src/services/PeerService.ts:942-953 | every event keeps hops plus ttl equal to seven and text, author and room unchanged |
| Flood.IntegrityOverRuns | src/services/PeerService.ts:683-716 | the same over every run with loss, reordering, room switches and changing overlays |
| FloodContents.CarriedAsWritten | src/services/PeerService.ts:689-716 | over every run, each copy and each display of an id has the room, author, time and text with which that id was written, the ttl telling the hops |
| FloodContents.WriteShowsAndSends | src/services/PeerService.ts:698-715 | a written message is on the author's screen and on its way to every neighbour with an open channel |
| FloodContents.MadeIsWritten | src/services/PeerService.ts:689-697 | the book of messages of a run is what its write events say |
| FloodContents.ShowsNoBlocked | src/services/PeerService.ts:928-931 | no step shows a message whose author or sender the peer blocks at that moment, or of a room it does not display |
| FloodContents.SendsNoBlocked | src/services/PeerService.ts:928-953 | no step passes on a message whose author the peer blocks at that moment |
| FloodContents.BlockedAuthorNeverShown | src/services/PeerService.ts:894-955 | while a peer blocks an author, in any run from any state, it shows and passes on nothing that author wrote |
| FloodOnce.ShownAndForwardedOnce | src/services/PeerService.ts:932-955 | without eviction or room switch each peer shows an id once and each link carries it once, however channels, block lists and neighbours change |
| FloodOnce.OnceOverRuns | src/services/PeerService.ts:932-955 | the bookkeeping behind that holds in every such run |
| FloodOnce.CostAtMostLinks | src/services/PeerService.ts:945-953 | in such a run with fixed neighbours one message costs at most the sum of all degrees |
| FloodOnce.FewMessagesUncut | src/services/PeerService.ts:875-883 | with at most 2048 messages in the network nothing is evicted |
| FloodOnce.FloodShrinks | src/services/PeerService.ts:932-955 | without eviction each delivery or loss makes (unseen places, copies in flight) smaller |
| FloodEnds.LoadShrinks | src/services/PeerService.ts:942-953 | in any state a delivery or loss lowers the copies in flight weighted by ttl and degree |
| FloodEnds.BoundedMoves | src/services/PeerService.ts:942-953 | with evictions, room switches and changing overlays too, a run without new messages makes no more deliveries and losses than that weight |
| FloodReach.NeighborsReached | src/services/PeerService.ts:942-953 | at loss-free rest, in any order, every neighbour of a peer that showed the message with ttl left has shown it |
| FloodReach.ComponentReached | src/services/PeerService.ts:942-953 | if no first copy came with ttl used up, the whole component has shown it |
| FloodReach.SmallNetworkReached | src/services/PeerService.ts:942-953 | with at most eight peers this always happens, in any order |
| FloodRing.EveryoneReachedInHopOrder | src/services/PeerService.ts:549-564 | on the ring, up to 43 peers, delivery in hop order shows the message to everyone |
| FloodRing.FarPeerNeverReached | src/services/PeerService.ts:689-716 | from 44 peers on, some peer never shows it in any run in which neighbours stay, whatever rooms, channels and block lists do |
| FloodThreshold.DrainInHopOrder | src/services/PeerService.ts:942-953 | every state can be drained by deliveries in hop order |
| FloodThreshold.ReachThreshold | src/services/PeerService.ts:549-564 | a message can be flooded to everyone in hop order exactly when the ring has at most 43 peers |
| Rooms.DisplaysMeaning | src/services/PeerService.ts:900-921 | between two numeric rooms the rule is: my geohash is a prefix of theirs |
| Rooms.RoomOfIsServerRoom | server/server.js:801-838 | the server's room ids have the form the rule is stated for |
| Rooms.DisplayOrder | src/services/PeerService.ts:900-921 | display is reflexive, antisymmetric and transitive on server rooms |
| Rooms.DisplayChain | src/services/PeerService.ts:900-921 | the rooms that display a given room form a chain |
| Rooms.LargerRadiusDisplaysSmaller | server/server.js:822-836 | at one place a larger numeric radius displays what a smaller one sends |
| Rooms.DisplaysIff | src/services/PeerService.ts:900-921 | between server rooms: the same room, or two numeric ones whose cells contain each other; without a room nothing is displayed |
| Rooms.PrecisionLadder | server/server.js:822-829 | the largest radius, 1, 3, 25 and 100 km, for each length of the geohash |
| Rooms.SameKmRoomIff | server/server.js:822-836 | two numeric clients share a room exactly when radius step and cell agree |
| Rooms.PlaceRooms | server/server.js:810-821 | country and city codes can be read back from the room |
| Rooms.NoPlaceRooms | server/server.js:801-838 | without a code, absent or empty, and without a place the room is the default one |
| Rooms.ParseIntMeaning | src/services/PeerService.ts:911-912 | the precision is read from the leading digits, with an optional sign; no digits, no number |
| Eviction.TopSize | src/services/IndexedDBService.ts:961-974 | the newest of a set are as many as the cap or the set |
| Eviction.PerRoomStep | src/services/IndexedDBService.ts:933-949 | capping only the insert's own room equals capping every room |
| Eviction.GlobalStep | src/services/IndexedDBService.ts:961-984 | capping the total after each insert loses nothing the whole history would keep |
| Eviction.InsertMatchesBatch | src/services/IndexedDBService.ts:889-992 | expire, cap one room, cap the total after an insert equals doing all three once on the history |
| Eviction.RepeatMatchesBatch | src/services/IndexedDBService.ts:900-931 | the same when the message was already stored and only the purges run |
| Eviction.BatchWithinCaps | src/services/IndexedDBService.ts:889-894 | what is kept is within both caps |
| PublicCache.Store.Find | src/services/IndexedDBService.ts:901-907 | whether a message of this room and id is stored |
| PublicCache.Store.Insert | src/services/IndexedDBService.ts:908 | adds one record and keeps the index order |
| PublicCache.Store.PurgeExpired | src/services/IndexedDBService.ts:912-927 | stopping at the first recent record deletes exactly the expired ones |
| PublicCache.Store.PurgeRoom | src/services/IndexedDBService.ts:933-959 | the counting walk leaves exactly the newest of the room, other rooms untouched |
| PublicCache.Store.PurgeTotal | src/services/IndexedDBService.ts:961-985 | the counting walk leaves exactly the newest overall |
| PublicCache.Store.StoreUnlessRepeated | src/services/IndexedDBService.ts:900-910 | a repeated (room, id) is not stored again |
| PublicCache.Store.AppendPublicMessageCapped | src/services/IndexedDBService.ts:889-992 | after any calls with any timestamps and a clock that does not go back, the store is the batch result on everything ever inserted |
| PublicCache.Store.GetRecentPublicMessages | src/services/IndexedDBService.ts:994-1013 | the newest of the room, oldest first |
| MemoryCap.CapPublicMessages | src/App.tsx:94-117 | the backward loop with its count map computes the scan |
| MemoryCap.CapWithinCaps | src/App.tsx:94-117 | the result is a subsequence, unexpired, within both caps |
| MemoryCap.CapIdempotent | src/App.tsx:94-117 | capping twice at one clock is capping once |
| MemoryCap.ListedOnce | src/App.tsx:380-392 | whatever arrives, in whatever order and however often, the page holds no id twice, nothing that did not arrive, and both caps |
| MemoryCap.CapIncremental | src/App.tsx:380-392 | capping, appending and capping again equals capping the whole list |
| MemoryCap.ListedIsCappedHistory | src/App.tsx:380-392 | for arrivals in timestamp order the page holds the cap of the whole history |
| MemoryCap.ScanMatchesStore | src/App.tsx:94-117 | the scan in memory keeps exactly what the database rule keeps |
| MemoryCap.PageMatchesStore | src/services/IndexedDBService.ts:912-985 | for arrivals in timestamp order the page shows exactly the stored messages |
| Outbox.MessageQueue.FindIndex | src/services/PeerService.ts:155 | the first position of the id, or -1 |
| Outbox.MessageQueue.EnqueueMessage | src/services/PeerService.ts:138-150 | appends unless queued; then only the persisted flag can rise |
| Outbox.MessageQueue.RemoveQueuedMessage | src/services/PeerService.ts:152-160 | removes that entry alone, and an emptied queue altogether |
| Outbox.MessageQueue.Destroy | src/services/PeerService.ts:1675-1690 | empties the queue |
| Outbox.MessageQueue.RestoreAll | src/services/PeerService.ts:188-198 | enqueues every record read, flagged as persisted |
| Outbox.EnqueueAllOk | src/services/PeerService.ts:188-198 | restoring queues every record and keeps the queues free of repeated ids |
| Outbox.InvStep | src/services/PeerService.ts:1300-1355 | every step of a send, drain, database request, crash or restart keeps the invariant |
| Outbox.InvOverRuns | src/services/PeerService.ts:1071-1088 | the invariant holds after every interleaving in which chats take fresh ids |
| Outbox.NoWrittenChatIsLost | src/services/PeerService.ts:162-205 | a written record is still stored unchanged or its message was handed to an open channel; an entry flagged persisted is stored or was handed over |
| Outbox.RecordLeavesOnlyHanded | src/services/IndexedDBService.ts:473-501 | a record leaves the store only after the hand-over and never changes before |
| OutboxDelivery.UndeliverableIsKept | src/services/PeerService.ts:1336-1354 | a new message to a closed channel, or whose send throws, ends behind all others in its peer's queue; a chat with an id not yet flagged asks last of all for its record to be written |
| OutboxDelivery.OfflineMessageWaits | src/services/PeerService.ts:1350-1354 | whatever is sent to a peer with a closed channel waits in its queue behind what was there, nothing being handed over |
| OutboxDelivery.UndeliveredStaysQueued | src/services/PeerService.ts:1346-1348 | a queued message that still cannot be sent stays queued and the drain goes on with the next |
| OutboxDelivery.FailedCipherSkips | src/services/PeerService.ts:1304-1311 | a failing cipher changes neither queue nor store, and a drain goes on |
| OutboxDelivery.DeliveredIsHandedOver | src/services/PeerService.ts:1321-1334 | on an open channel a chat is handed over, still queued, and asks for its record to be deleted; any other message leaves the queue, the rest in order |
| OutboxDelivery.OnlineMessageGoesOut | src/services/PeerService.ts:1319-1334 | whatever is sent over an open channel is handed over at once |
| OutboxDelivery.UpdatedLeavesQueue | src/services/PeerService.ts:1333 | after the status update exactly that entry leaves the queue, the others in order |
| OutboxDelivery.DeliveredIsForgotten | src/services/PeerService.ts:1321-1334 | a chat handed over with nothing else in the way ends without queue entry and without record |
| OutboxDelivery.WrittenIsFlagged | src/services/PeerService.ts:167-177 | once the record is written the entry is flagged, and no other property of the queue changes |
| OutboxDelivery.SettledRequest | src/services/IndexedDBService.ts:473-501 | a settled request does to the store what it says and nothing else; reading all gives every record in key order |
| OutboxDelivery.DrainTakesAll | src/services/PeerService.ts:1076-1080 | a key exchange sets out to send everything queued for the peer, in order |
| OutboxDelivery.EveryAnswerAdvances | src/services/PeerService.ts:1078-1088 | every answer brings a call nearer to its end, and no failure with one message keeps a drain from the ones behind it |
| OutboxDelivery.RefusedRequest | src/services/PeerService.ts:178-186 | a refused request leaves queues and store as they were |
| OutboxDelivery.OnlyTheStoreSurvives | src/services/PeerService.ts:1675-1690 | a teardown or crash empties the queues and closes the channels, the store keeps what it has |
| OutboxDelivery.AccountedStep | src/services/PeerService.ts:1300-1355 | no step loses track of a chat except a crash, a teardown, a failing cipher on its first send, or a refused write of its record |
| OutboxDelivery.SentChatIsKept | src/services/PeerService.ts:1357-1359 | over every run without these: a sent chat is on its first way through the cipher, handed over, or in its peer's queue with its record stored or asked for |
| OutboxRestart.RestartRestoresEverything | src/services/PeerService.ts:188-205 | right after a crash and restart every record is queued for its peer, flagged, without repeated ids |
| OutboxRestart.SafeStep | src/services/PeerService.ts:152-160 | a chat in its peer's queue leaves it only when handed over, except by a crash or teardown |
| OutboxRestart.RestartKeepsEverythingQueued | src/services/PeerService.ts:188-205 | after a crash, once the records are back, whatever else is sent, drained or saved meanwhile: every stored chat is queued for its peer or was handed over |
| FileTransfer.LittleEndianRoundTrip | src/services/CryptoService.ts:255-256 | a size below 4 GiB reads back from its four bytes |
| FileTransfer.PackContainer | src/services/CryptoService.ts:253-267 | filling header and body piece by piece gives IV, key, size and cipher text in that order |
| FileTransfer.ContainerRoundTrip | src/services/CryptoService.ts:274-304 | decrypting the container gives the file back; its declared size is right exactly below 4 GiB |
| FileTransfer.ContainerLayout | src/services/CryptoService.ts:253-267 | IV at 0, key at 12, the size modulo 4 GiB at 44 with the least byte first, cipher text from 48 |
| FileTransfer.SlicesConcat | src/services/PeerService.ts:1441-1449 | the slices are full except the last and concatenate to the container |
| FileTransfer.SendChunks | src/services/PeerService.ts:1438-1504 | the sending loop sends exactly the slices, each behind the id, in order |
| FileTransfer.FrameRoundTrip | src/services/PeerService.ts:1055-1061 | a frame reads back as it was built exactly for ids of 36 bytes (or shorter with nothing behind) |
| FileTransfer.FileReceivers.OnFileStart | src/App.tsx:556-562 | opens an empty receiver for the transfer |
| FileTransfer.FileReceivers.OnFileChunk | src/App.tsx:656-659 | appends the chunk to its own transfer if it comes from its peer, and changes no other |
| FileTransfer.FileReceivers.TotalOf | src/App.tsx:602 | the summing loop gives the length of the joined chunks |
| FileTransfer.FileReceivers.OnFileEnd | src/App.tsx:593-646 | judges the size, yields the joined chunks, and forgets the transfer |
| FileTransfer.Demultiplexed | src/App.tsx:656-659 | a transfer's receiver depends only on that transfer's own arrivals |
| FileTransfer.TransferOutcome | src/App.tsx:602-618 | the end event judges the total length of the peer's own frames and yields their concatenation, whatever other transfers run and whatever frames other peers send under the same id |
| FileTransfer.EndForgets | src/App.tsx:644 | after its end a transfer is unknown until it is started again: late frames are dropped, a second end finds nothing |
| FileTransfer.InterleavedFilesArrive | src/services/PeerService.ts:1377-1505 | any number of interleaved files, amid frames of other peers, arrive whole and decrypt to the originals |
| FileTransfer.GapNoticed | src/components/ChatWindow.tsx:194-202 | exactly which gaps, of missing or surplus bytes, the tolerance lets pass |
| FileTransfer.LostChunkNoticed | src/App.tsx:605-610 | losing one full chunk is rejected exactly below 16,384,000 bytes |
| RateLimiter.Limiter.CheckAiRateLimit | server/server.js:495-514 | realises the fixed-window decision, accepts exactly below ten in an open window, and leaves other addresses alone |
| RateLimiter.InOpenWindow | server/server.js:499-513 | an open window admits what is left of ten, then ten for each further window that can open |
| RateLimiter.BoundedInAnyInterval | server/server.js:491-514 | in an interval of any length an address gets at most `Most` requests through, both ends included |
| RateLimiter.BoundIsReached | server/server.js:499-513 | every interval has requests that reach that bound |
| RateLimiter.MostInMinutes | server/server.js:491-493 | for k minutes it is at most 10k + 9, and exactly that up to 60000 minutes |
| RateLimiter.NineteenInOneMinute | server/server.js:499-513 | nineteen requests get through in one minute |
| GeoServer.Server.RebuildGeoTree | server/server.js:783-796 | the index holds exactly the located geo-mode clients at their places |
| GeoServer.Server.RegisterBegin | server/server.js:1087-1107 | registering, before the await, keeps the index covering the table |
| GeoServer.Server.RegisterEnd | server/server.js:1108-1113 | after the await the index is exact |
| GeoServer.Server.UpdateLocation | server/server.js:1130-1152 | changes only what was sent of the client's place and radius, and leaves the index exact |
| GeoServer.Server.RequestLanDiscovery | server/server.js:1154-1161 | leaves geo mode, and the index, exactly |
| GeoServer.Server.OnClose | server/server.js:1259-1266 | removes the client from table and index |
| GeoServer.Server.OnPong | server/server.js:1272-1276 | marks the client alive; the index still covers the table |
| GeoServer.Server.HeartbeatTick | server/server.js:742-758 | removes exactly the silent clients, asks the others again, and keeps the index covering |
| GeoServer.Server.TablePeers | server/server.js:885-941 | exactly the others of the same address, country or city, once each |
| GeoServer.Server.NearbyPeers | server/server.js:843-998 | no duplicate, never the receiver, nobody stale or beyond the horizon, and everyone fresh inside both search box and horizon |
| Conversations.Store.SaveMessage | src/services/IndexedDBService.ts:305-336 | stores the message, makes it the last, counts it as unread when the partner wrote it |
| Conversations.Store.FindLast | src/services/IndexedDBService.ts:537-547 | the newest message of the conversation, among equal timestamps the one with the smallest id; none exactly when it has none |
| Conversations.Store.RefreshConversationAfterDelete | src/services/IndexedDBService.ts:535-572 | drops an empty conversation, otherwise sets its last message to that newest one and keeps the unread count |
| Conversations.Store.DeleteMessage | src/services/IndexedDBService.ts:575-601 | removes message and blob and refreshes the conversation it belonged to |
| Conversations.Store.DeleteConversation | src/services/IndexedDBService.ts:605-633 | removes every message of the conversation with its blob, then refreshes |
| Conversations.SaveKeepsIff | src/services/IndexedDBService.ts:305-336 | a save keeps table and messages in step exactly unless it takes another conversation's last message away |
| Conversations.SaveKeepsNewestIff | src/services/IndexedDBService.ts:312-331 | with a fresh id the last message stays newest exactly when the saved one is not older |
| Conversations.DeletionKeepsIff | src/services/IndexedDBService.ts:535-633 | deletions keep table and messages in step exactly unless the conversation with the empty id loses its last message |
| Conversations.ExistsIffHasMessage | src/services/IndexedDBService.ts:549-563 | in step, a conversation exists exactly when it has a message |
| Conversations.InStepThroughoutIff | src/services/IndexedDBService.ts:305-633 | over every sequence of transactions, table and messages are in step all along exactly when none takes a last message away or writes back one that is gone |
| Conversations.InStepOverRuns | src/services/IndexedDBService.ts:305-633 | with fresh ids, or ids reused in their own conversation, and marking undisturbed, a conversation exists iff it has a message, and its last message is its own; no timestamp order needed |
| Conversations.NewestThroughoutIff | src/services/IndexedDBService.ts:305-633 | with fresh ids the last message is newest all along exactly when saves come in timestamp order and marking writes back a newest |
| Conversations.ReusedIdBreaks | src/services/IndexedDBService.ts:312-332 | saving a conversation's only message again under another one leaves the first pointing at nothing |
| Conversations.NamelessConversationStays | src/services/IndexedDBService.ts:598-600 | deleting the only message of the conversation with the empty id leaves the conversation |
| Conversations.DeletedConversationIsGone | src/services/IndexedDBService.ts:605-633 | none of its messages or blobs remain and nothing of other conversations changes |
| Conversations.PrecedesIff | src/services/IndexedDBService.ts:537-547 | which of two ids comes first is decided at the first character where they differ |
| Conversations.UnreadAddsUp | src/services/IndexedDBService.ts:312-331 | over every run that neither drops nor marks a conversation, its unread count grows by exactly the messages its partner wrote |
| Conversations.UnreadSinceMark | src/services/IndexedDBService.ts:382-393 | after a conversation was marked as read it counts exactly what arrived since |
| Conversations.Store.MarkConversationAsRead | src/services/IndexedDBService.ts:382-393 | uninterrupted, it sets that one unread count to zero and changes nothing else |
| Conversations.MarkKeepsIff | src/services/IndexedDBService.ts:382-393 | whatever comes between its two transactions, the tables stay in step exactly when the last message it read is still stored, and newest exactly when that is a newest |
| Conversations.ArrivalWhileMarking | src/services/IndexedDBService.ts:383-389 | a message that arrives in between is stored, yet an older one shows as last and nothing as unread |
| Conversations.DeletionWhileMarking | src/services/IndexedDBService.ts:383-389 | a conversation deleted in between comes back without messages |
| Base64Url.BinaryString | src/services/AuthService.ts:41-45 | one character per byte |
| Base64Url.EncodeBytes | src/services/AuthService.ts:40-47 | the method computes the unpadded url form |
| Base64Url.UrlForm | server/server.js:44-46 | the form is the plain encoding in the safe alphabet: no `+`, `/` or `=` |
| Base64Url.Alphabet | src/services/AuthService.ts:46 | the 64 digits are those of RFC 4648, section 4 |
| Base64Url.QuadIsBigEndian | src/services/AuthService.ts:46 | three bytes and their four digits are one 24-bit number |
| Base64Url.UrlLetters | server/server.js:44-46 | minus and underscore stand for plus and slash, and back (RFC 4648, section 5) |
| Base64Url.BytesOf | src/App.tsx:677-678 | one byte per character of the binary string |
| Base64Url.UrlBase64ToUint8Array | src/App.tsx:673-680 | the method computes the decoding, or fails as `atob` does; white space is skipped |
| Base64Url.SpaceSkipped | src/App.tsx:677 | white space anywhere makes no difference to the decoding |
| Base64Url.PadFromLength | src/App.tsx:674 | the missing padding is a function of the length modulo four |
| Base64Url.RoundTrip | src/App.tsx:673-680 | decoding the unpadded url form of any bytes returns them (RFC 4648, section 5) |
| Base64Url.PaddedRoundTrip | src/services/CryptoService.ts:45-65 | decoding the padded form of any bytes returns them (RFC 4648, section 4) |
| Translations.PathLeadsToLeaf | check-translations.cjs:5-23 | following the keys of the i-th leaf arrives at the value of the i-th leaf |
| Translations.ExtractedKeyResolves | src/i18n.ts:106-108 | the i-th extracted dotted key leads, by path lookup, to the value of the i-th leaf |
| Translations.ExtractedAreJoined | check-translations.cjs:5-23 | the extracted strings are the leaves' key paths joined by dots, in order |
| Translations.MergeKeepsKeys | sync-translations-from-fr.cjs:28-34 | a merged object has the reference's own keys |
| Translations.TranslationsSurvive | sync-translations-from-fr.cjs:24-35 | at every leaf of the reference the merged file has what the locale had there, and the reference's value exactly where the locale had nothing |
| Translations.SyncedKeyResolves | src/i18n.ts:106-108 | after a sync every dotted key looks up the locale's text if it had one, otherwise the reference's |
| Translations.OwnProperties | src/i18n.ts:107 | texts and lists have their elements by decimal index and their length; falsy values have nothing |
| Translations.MergeIdempotent | sync-translations-from-fr.cjs:24-35 | merging again changes nothing |
| Translations.MergedKeysIffFits | sync-translations-from-fr.cjs:24-35 | the extracted keys are the reference's exactly when the target has no object where the reference has a leaf |
| Translations.MisfitKeyGone | sync-translations-from-fr.cjs:25-27 | otherwise a key of the reference disappears |

## Left out

- React rendering, gestures, audio, service worker, push, diagnostics and the AI chat over HTTP: input and output without an invariant of their own.
- WebRTC, ICE, TURN and geolocation: a channel is open or closed, and a public copy in flight may be lost or overtaken.
- AES-GCM, gzip, the geohash library, the quadtree and the spherical distance: only their contracts (inverse pairs, codes that extend as prefixes, a lookup that returns at least what overlaps the box).
- The shuffled sample of 150 peers for the world room: random, and it creates no connections.
- The branch of the neighbour order that uses measured distances: the table it reads is never written.
- Malformed public messages (invalid JSON, missing or ill-typed fields): the handler catches them; the model starts from well-formed ones.
- A send that throws in the middle of the forwarding loop: the handler then stops forwarding, which the model covers only as loss of the copies.
- Room text that is not built by the server: the order properties of display are stated for server rooms, whose numbers have one digit; leading white space in a parsed number is not modelled.
- Freshness of uuids: a composed public message and a sent chat message take ids not used before, as the runs state; other messages may share an id.
- Reach of the flood under eviction, room switches or closed channels: the reach theorems assume none of them, WindowOverRuns and BoundedMoves cover the rest.
- OutboxRestart.RestartKeepsEverythingQueued: chats and other messages have different ids, since a queued message that is not a chat would otherwise take the place of the record.
- Ids with characters outside the basic multilingual plane: message ids are compared character by character, which is the order of the index for all others.
- Outbox.NoWrittenChatIsLost: claims no exactly-once delivery, because a crash between the hand-over and the deletion of the record sends the message again.
- Outbox.InvStep: sets the persisted flag by id where the code holds the entry object; and a message that is not a chat message has one more point of interleaving than the code, so the model allows more runs.
- Chat messages without a shared secret: encryption throws and nothing is queued, which the model has as a task that ends.
- The order of the queue after a restart: it follows the store's keys, so the restart theorem holds for every order.
- Listeners that throw while a sent message is announced.
- Message status, acknowledgements and reactions: statuses are written unconditionally, and reactions can be toggled twice.
- MemoryCap.PageMatchesStore: for arrivals in timestamp order with no room switch only; otherwise the page may keep what the store evicted earlier.
- MemoryCap.CapPublicMessages: the total cap is positive, as the constant 3000 is.
- Replacing an open transfer by switching the conversation: one reassembler owns each transfer, and the start event is handled before the first chunk.
- The second reassembler in ChatWindow: it applies the same size check, and in addition refuses files with no bytes.
- Decoding the transfer id as UTF-8: an id is its bytes.
- Updates of single message fields (status, reactions): they touch no member of the invariant.
- The three transactions of a deletion: together they are one event of the conversation runs, while marking as read is split where the code awaits.
- GeoServer.Server.NearbyPeers: does not claim to find every peer within the horizon, because the search box ignores the other peer's accuracy.
- A superseded socket: its close event removes the newer registration, as OnClose states.
- Inherited properties in path lookup (`constructor`, `__proto__`, a key named `hasOwnProperty`).
