# Verification of the Peerster peer

A Dafny model of the peer in `peer/impl`: the per-node operations as classes and methods with loops,
each proved against a specification function or predicate, and three networks of such nodes as state
machines whose steps are those specifications. Packets are lost, duplicated and delivered in any order;
map iteration and random draws are arbitrary choices. Runs are finite lists of steps of any length.

- **Rumor gossip with anti-entropy.** `Messages`, `Replicas` (file `Replica.dfy`: status and logs),
  `NbrSets`, `GossipNode` (handlers), `GossipNetwork` (machine, invariant of every run). On top of it
  `Relaying` (what one delivery does to the network), `RouteHistory` (where routes and neighbours come
  from), `Routing`, `Storm` (relays are bounded), `Quiescence` (every schedule drains), `Exchange` (anti-entropy
  is a join), `Rounds` (what one round of it guarantees, whatever is lost), `Convergence` (agreement
  can always be reached) and `Spreading` (what deliveries alone bring about).
- **Content-addressed storage.** `Codec` (hex, separator, join and split, the shared key space),
  `BlobStore` (the store holds slices of buffers, as the original does; upload and download loops),
  `RoundTrip` (one node), `SharingNetwork` and `Agreement` (many nodes), `Availability` (exactly
  when a download can finish), `DownloadHistory`, `Backoff` with `Geometric`.
- **Budgeted search.** `Budgets`, `Targets` (who a divided budget can reach), `SearchNode` (handlers),
  `SearchPeer` (the node object, `SearchAll`, `SearchFirst`), `SearchNetwork` (floods), `Searches` (what
  a search costs the network), `Catalogs` and `FullFiles` (what replies teach is true), `FindAndFetch`
  (what a search found can be downloaded), `Answers` (floods carry their question, and answers come home),
  `Naming` (what a name stands for), `OwnCatalog` (a peer can come to list itself).
- **Topology generator.** `Topology`.

`Basics` holds options, addresses, catalogs and finite sums. `dafny verify dfyconfig.toml` checks everything.

Where a promise fails, the exact condition is proved. An upload's download gives back the data if and
only if there is a chunk and none is the raw concatenation of the upload's own chunk hashes
(`RoundTrip.LocalRoundTrip`, `RoundTrip.EmptyUpload`); bytes that a reader returns together with EOF are
lost (`RoundTrip.ReaderRoundTrip`); stores agree if and only if no uploaded chunk is the hash
concatenation of some uploaded metafile (`Agreement.AgreementExact`, with a run that breaks agreement in
`Agreement.ClashBreaksAgreement`); a download can finish if and only if what it still needs is stored
here or can be asked of listed holders (`Availability.DownloadFinishesIff`), so none can at a peer that
uploaded nothing and learned of nobody (`DownloadHistory.NobodyToAsk`); the backoff schedule is exact if and only if its last
term fits an int64 (`Backoff.ScheduleExact`); the targets of `SearchAll` exist if and only if the empty
address is no neighbour or the budget is below the number of neighbours, and otherwise its retry loop
spins or it fails (`Targets.TargetsExist`, `SearchPeer.Node.SearchAll`).

Where code and documentation disagree, the model follows the code. A node keeps the direct route to
itself exactly as long as every outside call that diverts it is made good later (`peer/messaging.go:52`;
`Routing.OwnRouteIff`). Adding oneself as a peer does have an effect (`peer/messaging.go:31`;
`Routing.AddingSelf`). A node may broadcast to itself exactly if it was added to itself
(`peer/messaging.go:24`; `Routing.BroadcastToSelf`). What a peer stores may appear in its own catalog,
exactly if a reply mentions it or it is stored when already listed, and a search can even make a peer
list itself (`peer/datasharing.go:84`; `OwnCatalog.OwnCatalogRun`, `OwnCatalog.PeerListsItself`); every
successful remote fetch does it (`OwnCatalog.FetchBreaks`).

The hash is an arbitrary function to 32 bytes. It is never assumed injective: results that need it say
that the strings hashed for the uploads in question do not collide.

## Model

| member | source | states |
|---|---|---|
| Replicas.Status.constructor | peer/impl/mod.go:25-27 | a new status has no counters and no logs |
| Replicas.Status.GetSeqForNode | peer/impl/status.go:20-24 | an origin never heard of counts as 0 |
| Replicas.Status.GetStatusMsg | peer/impl/status.go:32-41 | the loop copies every counter and adds none |
| Replicas.Status.CompareWithOthersStatus | peer/impl/status.go:43-72 | exact difference, for any order of both maps: each flag holds iff that side is ahead for some origin, and the rumors are per origin exactly the log segment the other side lacks, in order, with nothing else; no slice is out of range |
| Replicas.Status.CompareUnmentioned | peer/impl/status.go:62-70 | the second loop completes the comparison for origins the other status does not mention |
| Replicas.Status.UpdateForNewRumorFromNode | peer/impl/status.go:74-79 | one origin's counter and log grow by one, together; everything else stays |
| Replicas.AcceptAllWf | peer/impl/handlers.go:75-95 | whatever rumors arrive, a counter stays the length of its log and entry k keeps sequence k + 1 |
| Replicas.AcceptAllPerOrigin | peer/impl/handlers.go:27-31 | origins do not interfere: one origin's log depends only on that origin's rumors in the message, in their order |
| Replicas.ExtendSegment | peer/impl/handlers.go:75-95 | a contiguous segment offered to a log of any length adds exactly the part beyond the log, or nothing if there would be a gap |
| Replicas.StaleDelta | peer/impl/handlers.go:27-31 | stale deltas are safe: suffixes computed for an old status bring a receiver that has grown since to the longer log and the maximum counter for every origin, for any interleaving of origins |
| Replicas.GapIsRefused | peer/impl/handlers.go:75-95 | a segment that starts beyond the log leaves it unchanged: nothing is accepted out of order |
| Replicas.DeltaExists | peer/impl/status.go:43-72 | for every status there is a message with exactly the missing segments |
| NbrSets.NbrSet.SelectARandomNbrExcept | peer/impl/nbrSet.go:14-27 | returns some neighbour other than the excepted one, and fails iff there is none |
| NbrSets.NbrSet.AddNbr | peer/impl/nbrSet.go:29-33 | the set grows by the new neighbour |
| NbrSets.NbrSet.Contains | peer/impl/nbrSet.go:35-40 | membership |
| NbrSets.NbrSet.GetSize | peer/impl/nbrSet.go:42-46 | the number of neighbours |
| NbrSets.ConcurrentStrSet.AddStr | peer/impl/ConcurrentStringSet.go:29-33 | the set grows by the new string |
| NbrSets.ConcurrentStrSet.Contains | peer/impl/ConcurrentStringSet.go:35-40 | membership |
| NbrSets.ConcurrentStrSet.GetStrSlice | peer/impl/ConcurrentStringSet.go:43-51 | the loop returns each string of the set exactly once |
| GossipNode.Node.constructor | peer/impl/mod.go:22-41 | a new node knows only the route to itself and has no neighbours, counters or logs |
| GossipNode.Node.DirectlySendToNbr | peer/impl/handlers.go:388-400 | one packet with the node as source and relay, sent straight to the neighbour |
| GossipNode.Node.Relay | peer/impl/mod.go:173-188 | keeps the original source and takes the routing table's next hop; without a route it sends nothing and reports failure |
| GossipNode.Node.SetRouting | peer/impl/mod.go:240-254 | an empty relay deletes the route; a direct route to another node makes it a neighbour |
| GossipNode.Node.AddOnePeer | peer/impl/mod.go:216-225 | a direct route and a neighbour for the given address, also if it is the node's own |
| GossipNode.Node.CreateRumor | peer/impl/mod.go:191-200 | the rumor takes the next own sequence number and is logged under it |
| GossipNode.Node.Broadcast | peer/impl/broadcast.go:15-56 | logs the rumor, sends it to one neighbour (or to the empty address) and processes the message here once |
| GossipNode.Node.ExecOneRumor | peer/impl/handlers.go:75-95 | says whether the rumor was next in sequence; only then is it delivered, logged and perhaps routed |
| GossipNode.Node.ExecRumorsMessage | peer/impl/handlers.go:15-72 | the loop and the sends after it have exactly the effect of the specification `HandleRumors`: the whole message goes on once if anything was expected, then the acknowledgement with the new status |
| GossipNode.Node.ExecStatusMessage | peer/impl/handlers.go:149-189 | own status if the other is ahead, exactly the missing rumors if this node is, mongering only if neither is and with positive probability |
| GossipNode.Node.ReceivePacket | peer/impl/mod.go:116-135 | a step of the receive loop refines the transition function `HandlePacket`, keeps the log invariant, and never mongers with ContinueMongering 0 |
| GossipNode.ExecRumorsReplica | peer/impl/handlers.go:26-47 | a rumors message accepts at least one rumor if it reports one as expected, and changes nothing at all otherwise |
| GossipNetwork.InvStep | peer/impl/handlers.go:15-189 | every step keeps: logs are prefixes of what origins created, deliveries match logs, every rumor in flight is genuine |
| GossipNetwork.ReachableInv | peer/impl/mod.go:95-111 | the invariant holds after every run from the initial network |
| GossipNetwork.PrefixAgreement | peer/impl/handlers.go:75-95 | prefix agreement over every run with loss, duplication and reordering: each log is a prefix of its origin's creations, the counter is its length, entry k has sequence k + 1, rumors in flight are genuine |
| GossipNetwork.LogsComparable | peer/impl/status.go:74-79 | any two nodes' logs of an origin are prefix-comparable, and the origin's own log is the longest |
| GossipNetwork.DeltaGenuine | peer/impl/handlers.go:165-170 | what a node ships as missing rumors are rumors their origins created, under their own numbers |
| GossipNetwork.InOrderExactlyOnce | peer/impl/handlers.go:78-87 | over every run the payloads handed to the registry for a remote origin are exactly its first `counter` broadcasts, in order, without repeats; own broadcasts are processed here exactly once each |
| GossipNetwork.OwnOriginNeverExpected | peer/impl/handlers.go:77-92 | no rumor in flight that names a node as origin is ever expected at that node |
| Relaying.RumorsDelivered | peer/impl/handlers.go:26-63 | a rumors message at its destination: if anything was accepted and chance picks a routed neighbour other than the source, the whole message goes on once with its source; otherwise nothing goes on; exactly one acknowledgement with the new counters returns to the hop unless the node is the source; nobody else changes |
| Relaying.StatusDelivered | peer/impl/handlers.go:149-189 | a status or acknowledgement at its destination: exactly the own status if behind and exactly the missing rumors if ahead, both to the sender; if neither, the own status to the neighbour that chance may pick; no node changes |
| Relaying.Forwarded | peer/impl/mod.go:128-134 | a packet at a hop goes on to its destination with its source and message; no node changes |
| RouteHistory.HeardAll | peer/impl/handlers.go:88-91 | a rumors message routes exactly those origins it brought something of that are no neighbours, and all to the hop; it makes a neighbour only of the hop itself |
| RouteHistory.RouteByHistory | peer/impl/handlers.go:88-91 | after every run, with any outside calls, a routing entry is what the last step that set it gave it: SetRoutingEntry or AddPeer for that address, or a delivery that brought rumors of an origin that was no neighbour, which gives the hop of the packet |
| RouteHistory.NbrsByHistory | peer/impl/mod.go:216-254 | after every run a node is a neighbour iff some step was an AddPeer of it, a direct SetRoutingEntry for another node, or a delivery that brought rumors of it from itself as the hop |
| Routing.RoutedStep | peer/impl/handlers.go:77-92 | only an outside SetRoutingEntry at the node itself can disturb its own route, its direct routes to neighbours, or its having a route for every origin in its status |
| Routing.RoutesKept | peer/impl/mod.go:240-254 | after any run without outside SetRoutingEntry calls at a node the above holds there, and Relay to a neighbour takes one hop |
| Routing.OwnRouteStep | peer/impl/mod.go:240-254 | a step makes or breaks a node's direct route to itself exactly if it is a call at that node that sets the entry: AddPeer or SetRoutingEntry, for the node itself |
| Routing.OwnRouteIff | peer/impl/mod.go:240-254 | after every run, with any outside calls, a node has the direct route to itself, which the documentation says it always has, iff each SetRoutingEntry that gave it another relay or deleted it was followed by one that set it back or by adding the node to itself |
| Routing.AddingSelf | peer/impl/mod.go:216-225 | adding oneself makes the node its own neighbour and sets its own route; it has no effect iff the node was its own neighbour and its own route the direct one |
| Routing.AddingSelfToNew | peer/impl/mod.go:216-225 | on a new node the documented absence of an effect fails |
| Routing.SelfNeighbour | peer/impl/mod.go:216-254 | over every run a node is its own neighbour iff it was added as a peer to itself |
| Routing.BroadcastToSelf | peer/impl/broadcast.go:33-37 | after every run a broadcast may go to the node itself, which its documentation rules out, iff the node was added to itself |
| Routing.SelfBroadcast | peer/impl/broadcast.go:33-37 | a run of two steps in which it does |
| Storm.RelayPaid | peer/impl/handlers.go:26-47 | each Relay of a handler is paid for by at least one acceptance |
| Storm.RelaysCounted | peer/impl/handlers.go:33-47 | the relays counted are exactly the deliveries of a rumors message from which it goes on |
| Storm.AcceptedAtMost | peer/impl/handlers.go:75-95 | a node accepts at most as many rumors as the other nodes created |
| Storm.NoRumorStorm | peer/impl/handlers.go:26-47 | over every run with loss and duplication: Relay sends at most acceptances, at most (nodes - 1) times the rumors created |
| Quiescence.NoStatusOverstates | peer/impl/handlers.go:56-63 | over every run no status in flight, plain or in an acknowledgement, is ahead of its sender |
| Quiescence.QuietDelivery | peer/impl/handlers.go:33-63 | among agreeing nodes without mongering a delivery changes no node and replaces its packet by strictly less work |
| Quiescence.Drains | peer/impl/handlers.go:112-189 | from any reachable agreeing state every schedule of deliveries and losses leaves all nodes alone and is no longer than the weighted count of packets in flight |
| Quiescence.CanDeliver | peer/impl/mod.go:95-111 | such a schedule can always go on: any packet at a node can be delivered without mongering |
| Exchange.DeltaIsGap | peer/impl/status.go:43-72 | during an exchange, what one side ships is per origin the difference of the two original logs or nothing, and it is the difference if the other side still lacks it |
| Exchange.ExchangeInv | peer/impl/handlers.go:112-189 | the exchange invariant holds after any deliveries between the two ends, in any order and with copies |
| Exchange.ExchangeJoins | peer/impl/handlers.go:149-189 | anti-entropy computes a join: each counter is always the original or the maximum, and when nothing is left between the two ends both hold exactly the pointwise maximum and the longer original log |
| Rounds.ShipArrives | peer/impl/handlers.go:165-170 | missing rumors bring their receiver, whenever they arrive, at least to where the sender was when it shipped them |
| Rounds.RoundReaches | peer/impl/handlers.go:149-189 | in any run whatsoever, with loss, duplication, broadcasts and other nodes: once a status, the answers to it and the rumors these call for are delivered, both sides hold at least the pointwise maximum of that status and the other side's counters |
| Rounds.RoundJoins | peer/impl/handlers.go:149-189 | when only the two talk, with any loss and duplication, such a round leaves both with exactly the pointwise maximum and the longer original log, whatever is still in flight |
| Convergence.Pull | peer/impl/mechanisms.go:17-27 | along a neighbour link, in either direction, timers and deliveries alone can bring one node to all that the other has |
| Convergence.AgreementReachable | peer/impl/mechanisms.go:9-35 | from every state reached without outside route changes in which the neighbour graph is connected, a run of timers and deliveries alone brings all nodes to everything ever created, and every quiet schedule from there is bounded |
| Spreading.GapRepaired | peer/impl/handlers.go:49-63 | over every run: the acknowledgement of a rumors message is in flight after it, and once it and the rumors that the hop answers it with are delivered, the receiver is at least where the hop was, so it has every rumor it refused for a gap and the hop had |
| Spreading.GapCanBeRepaired | peer/impl/handlers.go:49-63 | after any rumors message at most two more deliveries, and no timer, bring the receiver at least to the hop's counters |
| Spreading.BroadcastReaches | peer/impl/broadcast.go:15-37 | a broadcast hands the neighbour it goes to, if that had all of the origin's rumors, exactly one more rumor, with the payload, and it again has all of them |
| Spreading.RetransmitReaches | peer/impl/broadcast.go:74-81 | a rumor sent again hands itself over to whom it is the next |
| Spreading.PassOn | peer/impl/handlers.go:26-47 | a rumor in flight can be passed on by deliveries alone along any path of directly routed links whose nodes lack only it |
| Spreading.BroadcastTravels | peer/impl/handlers.go:26-47 | a broadcast and one delivery per node can bring the payload to every node of any path without repeats, not back to the origin, of directly routed links whose nodes are up to date on the origin |
| Spreading.MongerTravels | peer/impl/handlers.go:171-186 | a status can be carried on by deliveries alone along any path of neighbours, not straight back, whose nodes agree with it, and changes none |
| Codec.HexInjective | peer/impl/dataSharing.go:71-75 | hex encoding loses nothing |
| Codec.SplitJoin | peer/impl/dataSharing.go:206-206 | split undoes join for every non-empty list of separator-free strings |
| Codec.JoinSplit | peer/impl/dataSharing.go:206-206 | join undoes split on every string, so no two strings split alike |
| Codec.MetafileSplits | peer/impl/dataSharing.go:38-47 | splitting a metafile gives the chunk keys of its upload, in order |
| Codec.SameKey | peer/impl/dataSharing.go:36-54 | chunks and metafiles share one key space: absent collisions, equal keys hold different values iff one entry is a chunk and the other a non-empty metafile |
| BlobStore.Store.constructor | storage/inmemory/mod.go:43-47 | a new store is empty |
| BlobStore.Store.Get | storage/inmemory/mod.go:58-63 | the stored slice itself, nil iff the key is absent |
| BlobStore.Store.Set | storage/inmemory/mod.go:66-71 | the key holds the slice's bytes and all other keys keep theirs |
| BlobStore.Store.Delete | storage/inmemory/mod.go:74-79 | only that key goes |
| BlobStore.Reader.Read | peer/impl/dataSharing.go:28-32 | the reader's contract: up to a buffer of bytes per read, EOF after the last |
| BlobStore.Peer.ReadChunk | peer/impl/dataSharing.go:27-36 | the chunk goes into a buffer of its own, so no stored bytes change later |
| BlobStore.Peer.Upload | peer/impl/dataSharing.go:21-56 | for any pattern of short reads and any prior store: the store gains every piece under its hash and the metafile under the returned key, and nothing else changes |
| BlobStore.Peer.GetRemote | peer/impl/dataSharing.go:225-249 | any failure or nil reply is an error; a value is stored under the key the reply names |
| BlobStore.Peer.GetOrFetch | peer/impl/dataSharing.go:210-218 | a stored value is used without asking anybody |
| BlobStore.Peer.DownloadBlob | peer/impl/dataSharing.go:167-223 | the loop has the effect of `Downloaded`: metafile, then each chunk in order, stopping at the first failure |
| RoundTrip.UploadedLookup | peer/impl/dataSharing.go:36-54 | after an upload a chunk's key holds the chunk, or the metafile iff the chunk is the metafile's hashed string |
| RoundTrip.LocalRoundTrip | peer/impl/dataSharing.go:201-223 | round trip for every prior store and list of pieces: a local download returns the data and asks nobody iff no piece is the raw concatenation of the pieces' hashes |
| RoundTrip.EmptyUpload | peer/impl/dataSharing.go:206-216 | an upload of nothing downloads as whatever the store, or else a peer's reply, has under the empty key; without a reply it fails iff the store has nothing there |
| RoundTrip.ReaderRoundTrip | peer/impl/dataSharing.go:28-32 | for a whole reader the round trip gives back its data iff EOF comes without bytes; data that comes only along with EOF is not uploaded at all |
| RoundTrip.RepeatIsLocal | peer/impl/dataSharing.go:210-220 | a download that succeeded, repeated, asks nobody, returns the same bytes and changes nothing |
| RoundTrip.MisnamedReply | peer/impl/dataSharing.go:246-248 | a reply is stored under the key it names: asked again, its value is found without asking iff that is the key asked for |
| RoundTrip.RemoteDownload | peer/impl/dataSharing.go:167-249 | against a peer that stores the metafile and every chunk it lists, and whose values the own store agrees with, a download succeeds with exactly the replies for the keys missing here, returns the peer's chunks in order and loses nothing |
| SharingNetwork.InvStep | peer/impl/handlers.go:191-222 | every step keeps: whatever is stored, in flight or collected under a key was put there by some upload, and replies carry the key they were asked for |
| SharingNetwork.RunInv | peer/impl/dataSharing.go:167-249 | this holds in every run of uploads and downloads by any nodes |
| Agreement.AgreementExact | peer/impl/dataSharing.go:36-54 | without collisions, all values uploads can put under a key agree iff no uploaded chunk is the hash concatenation of an uploaded non-empty metafile |
| Agreement.StoreAgreement | peer/impl/handlers.go:202-222 | over every such run two nodes holding a key hold the same bytes, and so does every non-nil reply in flight |
| Agreement.ClashBreaksAgreement | peer/impl/dataSharing.go:36-54 | a run of three puts at two nodes that breaks agreement, so the condition is needed |
| Agreement.DownloadReturnsUpload | peer/impl/dataSharing.go:167-223 | a download that ends, at any node, interleaved with anything, returns exactly the bytes uploaded under its metahash |
| Agreement.ReplyAnswersWaiter | peer/impl/dataSharing.go:225-249 | in every run the reply that reaches a waiting download names the key it wants; bytes in it come from an upload, become the next part and are stored under that key; without a value the download ends |
| Agreement.DownloadExactOrError | peer/impl/dataSharing.go:167-249 | the Download operation returns exactly the uploaded bytes or an error for any mix of stored and fetched parts, and keeps the store sound |
| Availability.BackStep | peer/impl/dataSharing.go:280-314 | no step of a download, and no answer of a peer, makes it available when it was not: a request goes only to listed peers with a route, a resend to the same peer, a reply only to where there is a route |
| Availability.FinishesExactly | peer/impl/dataSharing.go:225-314 | in every state with the invariant a download can be finished by its own steps and the answers of peers iff it is available: each part it lacks is stored here or listed in the catalog under a holder, with routes both ways; and if it waits, the value is in flight, or the peer asked holds it and the request is in flight or may be sent again |
| Availability.DownloadFinishesIff | peer/impl/dataSharing.go:167-249 | so in every reachable state; and for an upload's metahash, without collision or clash, every such run ends with exactly the uploaded bytes |
| Availability.StartedFinishesIff | peer/impl/dataSharing.go:167-223 | a download just started in any reachable state can be finished iff a metafile for its metahash and every chunk that it lists is stored here or held by a peer that can be asked; and with an upload's metahash it returns the uploaded bytes |
| DownloadHistory.KnownByHistory | peer/impl/dataSharing.go:569-582 | over every run of the data-sharing network a catalog lists a peer under a key iff it learnt so, and the routes are those given last |
| DownloadHistory.RunsByHistory | peer/impl/dataSharing.go:167-249 | over every run a download runs, for the metahash it was started with, iff it was started and has neither failed nor received a reply without a value since |
| DownloadHistory.NobodyToAsk | peer/impl/dataSharing.go:298-302 | over every run in which a peer uploads nothing and learns of nobody, its downloads get no part, ask nobody and cannot finish, whatever the others hold |
| Agreement.UploadIsRun | peer/impl/dataSharing.go:21-56 | what Upload does to a store is what its puts do as steps of the network |
| Backoff.WaitForReplyMsg | peer/impl/dataSharing.go:320-364 | at most Retry resends and Retry + 1 waits, the k-th of the schedule, and exactly how each outcome ends the loop |
| Backoff.ScheduleExact | peer/impl/dataSharing.go:347-361 | all waits of a full run are exactly Initial * Factor^k iff the last product fits an int64 |
| Backoff.TotalWait | peer/impl/dataSharing.go:347-361 | the total time of such waits in closed form |
| Geometric.GeomClosed | peer/impl/dataSharing.go:359-359 | the closed form of the geometric sum |
| Budgets.DrawIndices | peer/impl/dataSharing.go:528-535 | the retry loop draws that many distinct indices |
| Budgets.Increment | peer/impl/dataSharing.go:536-538 | exactly the drawn shares grow, by 1 |
| Budgets.DivideBudget | peer/impl/dataSharing.go:515-541 | the shares sum to the budget and exactly budget mod n of them get one more than the rest; no positive share from a negative budget |
| Budgets.SharesTotal | peer/impl/dataSharing.go:515-541 | n equal shares with some raised by 1 sum to n shares plus the number raised |
| Budgets.FairShares | peer/impl/dataSharing.go:515-541 | any two shares differ by at most 1 and none is negative |
| Budgets.FreeIndex | peer/impl/dataSharing.go:529-533 | while indices are still to be drawn a free one exists, so the retry loop can end |
| SearchNode.RemoteTestAgrees | peer/impl/searchFirst.go:145-176 | a responder reports a name as full iff it matches and passes the local full-file test on the responder's own stores |
| SearchPeer.Node.constructor | peer/impl/mod.go:28-41 | a new node has no neighbours, seen requests, files or catalog |
| SearchPeer.Node.ForwardShare | peer/impl/handlers.go:359-381 | a positive share goes to a neighbour other than the packet's source, or to the empty address iff there is none |
| SearchPeer.Node.SendRequest | peer/impl/handlers.go:363-379 | one request with the given origin and share, from this node straight to the neighbour |
| SearchPeer.Node.ForwardSearchRequest | peer/impl/handlers.go:355-382 | one request per positive share to some neighbour but the packet's source, possibly the same twice; the share goes to the empty address if there is none |
| SearchPeer.Node.ListChunks | peer/impl/handlers.go:318-330 | the chunk hashes in order, nil for each chunk not stored here |
| SearchPeer.Node.MatchingFiles | peer/impl/handlers.go:309-341 | each matching name with a local metafile is reported exactly once, and nothing else |
| SearchPeer.Node.ExecSearchRequestMessage | peer/impl/handlers.go:258-353 | refines `HandleRequest`: a known request is ignored; a new one is marked, forwarded with its budget less 1, and answered toward its origin |
| SearchPeer.Node.GetRandomPeerWhoHasHash | peer/impl/dataSharing.go:298-314 | one of the peers that the catalog lists under the hash, or failure iff it lists none |
| SearchPeer.Node.GetRemoteChunkAndUpdateBlob | peer/impl/dataSharing.go:225-249 | a chunk is fetched only if the catalog lists it; the value that comes back is stored, and the catalog stays |
| SearchPeer.Node.UpdateCatalog | peer/impl/dataSharing.go:569-582 | the peer joins those listed under the key; other keys stay |
| SearchPeer.Node.ExecSearchReplyMessage | peer/impl/handlers.go:224-255 | the loops have the effect of `HandleReply`: names are tagged, and the packet's source is listed for each metahash and non-nil chunk |
| SearchPeer.Node.CheckFilenameIsFullFileLocal | peer/impl/searchFirst.go:156-176 | true iff the name's metafile and every chunk it lists are stored here |
| SearchPeer.CheckFileInfoFullFile | peer/impl/searchFirst.go:145-153 | true iff no chunk is nil |
| SearchPeer.Node.MatchedNames | peer/impl/searchFirst.go:18-25 | each matching local name exactly once |
| Targets.PositivesDivided | peer/impl/dataSharing.go:515-541 | a divided budget reaches as many neighbours as it has units, and at most all |
| Targets.TargetsExist | peer/impl/dataSharing.go:386-407 | the positive shares can go to distinct neighbours that a draw returns iff the empty address is no neighbour or the budget is below the number of neighbours |
| Targets.NoTargets | peer/impl/dataSharing.go:393-396 | with the empty address, one other neighbour and a budget of 2 there are no distinct targets |
| SearchPeer.FreshNbr | peer/impl/dataSharing.go:393-396 | the retry loop has a fresh neighbour to end with iff fewer were contacted than there are besides the empty address |
| SearchPeer.Node.SelectUnsentNbr | peer/impl/dataSharing.go:393-396 | a neighbour not contacted yet and not the empty address; failure iff no draw can succeed; no end iff all that a draw returns were contacted |
| SearchPeer.Node.SendToDistinctNbrs | peer/impl/dataSharing.go:386-407 | one request per positive share, all to different neighbours; exactly when the loop spins instead, having contacted all, and when it fails after one request to the empty address |
| SearchPeer.Node.SearchAll | peer/impl/dataSharing.go:366-418 | fair shares to distinct neighbours under one request id; it spins iff the empty address is one of several neighbours and the budget reaches all, fails iff that is the only neighbour; otherwise the result is every matching local name and every name replied, once each |
| SearchPeer.CollectNames | peer/impl/dataSharing.go:476-512 | the names of all replies join the local ones, without repeats |
| SearchPeer.Node.SendShare | peer/impl/searchFirst.go:64-79 | a positive share goes to some neighbour under an id never used before, or nowhere if there is no neighbour |
| SearchPeer.Node.SendSearchRequests | peer/impl/searchFirst.go:57-86 | one request with an id of its own per positive share; an error means that nothing was sent and there is no neighbour |
| SearchPeer.CollectFull | peer/impl/searchFirst.go:104-143 | adds exactly the names reported without missing chunks |
| SearchPeer.Node.SendSearchReqToNbrs | peer/impl/searchFirst.go:54-99 | a round sends fair shares of its budget, listens only if it sent something, and returns a name found so far, or none if there is none or the empty one is picked |
| SearchPeer.Node.SearchRounds | peer/impl/searchFirst.go:33-49 | at most int(Retry) rounds, none if that is negative, each with the last budget times Factor on 64 bits, ending at the first round that finds a name |
| SearchPeer.Node.SearchFirst | peer/impl/searchFirst.go:15-50 | a local full match is returned without sending anything; otherwise a name returned was reported as full in some round, and after int(Retry) rounds without a name nothing (or only a nameless file) was reported |
| SearchPeer.SilentSendsNothing | peer/impl/searchFirst.go:61-86 | a round makes no request iff it has no positive share |
| SearchNetwork.RequestsTotal | peer/impl/handlers.go:355-382 | the budgets of the requests sent sum to what was divided |
| SearchNetwork.HandleBudget | peer/impl/handlers.go:274-304 | what a node sends on of one request costs at most its budget less 1, and each request sent has at least 1 |
| SearchNetwork.ForwardsExact | peer/impl/handlers.go:274-304 | a first arrival at a node with neighbours sends on exactly the budget less 1 if that fits a signed 64-bit integer, else nothing; a share misses every neighbour iff the packet's source is the only one |
| SearchNetwork.InvStep | peer/impl/handlers.go:258-353 | every step but duplication keeps the conservation of every flood |
| SearchNetwork.FloodConservation | peer/impl/handlers.go:258-304 | for every request id: budgets in flight plus requests delivered never exceed the initial budget, no more requests are ever sent than that, and Budget - 1 never wraps |
| SearchNetwork.FloodTerminates | peer/impl/handlers.go:274-304 | every arrival or loss of a request lowers the budget in flight, which is thus a termination measure |
| SearchNetwork.AnswersOnce | peer/impl/handlers.go:268-272 | a node answers exactly the requests it has seen, and none of them twice, even with duplication |
| Searches.RoundBudget | peer/impl/searchFirst.go:54-86 | a round never gives out more than its budget |
| Searches.RoundIds | peer/impl/searchFirst.go:64-69 | over all rounds the requests have the ids in order, and each may start a flood of its own |
| Searches.RoundIdsDiffer | peer/impl/searchFirst.go:64-69 | if ids are unique, no request id is used twice over all rounds |
| Searches.BudgetWraps | peer/impl/searchFirst.go:45-45 | the wrapped budget of round r is at most Initial * Factor^r |
| Searches.BudgetExact | peer/impl/searchFirst.go:45-45 | the budget of round r is exactly Initial * Factor^r modulo 2^64 |
| Searches.RingExact | peer/impl/searchFirst.go:33-46 | the budgets of all rounds up to r are the exact powers iff the last fits an unsigned 64-bit integer |
| Searches.RoundSpends | peer/impl/searchFirst.go:54-98 | with a neighbour other than the empty address a round gives out its whole budget, so it asks somebody, and then listens, unless the budget is 0 |
| Searches.RingExpands | peer/impl/searchFirst.go:33-46 | then the requests of round r give out exactly Initial * Factor^r while that fits a signed 64-bit integer |
| Searches.RingFinds | peer/impl/searchFirst.go:33-49 | a search that ends without a name made Retry rounds, and a full file that came back in one of them with a positive budget that fits was found, unless only the empty name was picked |
| Searches.SearchAllTraffic | peer/impl/dataSharing.go:386-407 | however far it gets, SearchAll's requests go to distinct neighbours, with exactly the budget in total when all are sent, and over every run its flood makes at most that many requests |
| Searches.SearchFirstTraffic | peer/impl/searchFirst.go:33-46 | over every run all floods of a SearchFirst together make at most the geometric sum of requests |
| Catalogs.CatalogSound | peer/impl/handlers.go:224-243 | every peer a catalog lists under a key holds that key, in every run and ever after |
| Catalogs.FullFileHeld | peer/impl/searchFirst.go:145-153 | the source of a reply holds every key it reports for a full file, now and ever after |
| FullFiles.ExactStep | peer/impl/handlers.go:306-341 | while keys keep their values, every file info in flight matches the metafile at its source |
| FullFiles.UploadsSettle | peer/impl/dataSharing.go:36-54 | keys keep their values in every run whose blob stores hold and are given only what uploads without collision or clash put under them |
| FullFiles.StoredByUploads | peer/impl/dataSharing.go:167-249 | that is all that any node of the data-sharing network ever stores |
| FullFiles.FullReplyIsWhole | peer/impl/searchFirst.go:145-153 | where blob stores hold what such uploads put there, a file once reported as full is held whole, metafile and every chunk it lists, by the reporting node from then on |
| FullFiles.SearchFirstSound | peer/impl/searchFirst.go:15-50 | there, a name found by the rounds of SearchFirst belongs to a file that one node holds whole |
| FullFiles.ReportStaysExact | peer/impl/handlers.go:309-341 | what a reply reports of a file stays an exact account of it at the reporting node |
| FindAndFetch.ReplyLists | peer/impl/handlers.go:232-243 | a reply lists its source, and nobody else, under exactly the keys it mentions; what was listed stays |
| FindAndFetch.CatalogExact | peer/impl/handlers.go:224-243 | over every run a catalog lists a peer under a key iff some reply of that peer that mentions the key was handled there |
| FindAndFetch.FullReportLists | peer/impl/handlers.go:232-243 | once a report of a full file was handled, the catalog lists the reporting node for the metahash and every chunk of the file, and that node holds them |
| FindAndFetch.FoundCanBeDownloaded | peer/impl/dataSharing.go:167-249 | such a file can then be downloaded from that node, given routes both ways, and the download returns the uploaded bytes |
| Naming.ReplyNames | peer/impl/handlers.go:232-234 | a handled reply gives a name the metahash of the last file info of that name, and names nothing else |
| Naming.NamingExact | peer/impl/handlers.go:232-234 | over every run a name stands for what the last tag or the last handled reply with that name gave it |
| Naming.ReportedBecomesFull | peer/impl/searchFirst.go:156-176 | a file reported as full by a handled reply, which was the last to name it, is full by the local test once its parts are stored here |
| Answers.RequestsAsk | peer/impl/handlers.go:355-382 | every request sent carries the id, the origin and the pattern it was made for |
| Answers.RoundsAsk | peer/impl/searchFirst.go:64-77 | all requests of all rounds of SearchFirst ask its pattern for the searching node, each under the next id |
| Answers.FloodAsksOneQuestion | peer/impl/handlers.go:274-304 | over every run all requests of a flood have the origin and the pattern it was started with |
| Answers.RequestDelivered | peer/impl/handlers.go:258-353 | a known request changes and sends nothing; a new one is marked, only requests with the same question go on, and then exactly one answer goes to the origin by way of the sender, which reports as full exactly the matching names full here |
| Answers.Forwarded | peer/impl/mod.go:128-134 | a search packet at a hop goes on to its destination as it is |
| Answers.AnswerComesHome | peer/impl/handlers.go:224-243 | at most two deliveries bring a reply to the origin, which then lists the sender for all that is mentioned and names what is named |
| Answers.HolderIsFound | peer/impl/handlers.go:258-353 | a request that reaches a node with a matching full file brings the origin, in at most two more deliveries, a report of it as full |
| Answers.FoundIsOffered | peer/impl/handlers.go:306-341 | a file that was found, named last by its report and since stored, is reported as full to every new matching request |
| OwnCatalog.OwnCatalogExact | peer/impl/handlers.go:232-243 | a reply makes something stored here appear in the own catalog, which the documentation rules out, iff it mentions something stored here |
| OwnCatalog.OwnCatalogStep | peer/impl/handlers.go:232-243 | over the steps of the network this happens exactly by such a reply, or by storing what the catalog lists already |
| OwnCatalog.OwnCatalogRun | peer/impl/handlers.go:232-243 | after every run from empty catalogs it holds at a node iff some step of the run was one of these two there |
| OwnCatalog.FetchBreaks | peer/impl/dataSharing.go:225-249 | a remote fetch succeeds iff a peer is listed and a value comes back; it then returns and stores that value, and is such a step |
| OwnCatalog.PeerListsItself | peer/impl/handlers.go:268-272 | a run without loss or duplication in which a peer's own search comes back, is answered by the peer and makes it list itself |
| Topology.Generate | internal/graph/mod.go:45-71 | for every outcome of the draws each peer but the first has an edge to an earlier one, each pair at most one, and the edges are exactly those drawn in each peer's first pass with an edge, in the direction drawn |
| Topology.ConnectPeer | internal/graph/mod.go:47-70 | passes are repeated until one draws an edge; those before leave no trace |
| Topology.OnePass | internal/graph/mod.go:49-69 | a pass connects the peer iff some draw is an edge |
| Topology.GrownIsConnected | internal/graph/mod.go:45-71 | after every outer iteration the undirected graph on the peers so far is connected by walks among them |

## Left out

- Paxos, TLC, blockchain: the repository holds only their message types and tests.
- Real time, goroutines, channels, Start and Stop: timeouts are steps or parameters, each handler is one atomic step, and a Broadcast (create, send, process here) is one step.
- Heartbeat: it is a Broadcast on a timer, so the Broadcast step covers it; private and chat messages, notifications and the registry are not modelled.
- waitForAck: packet ids and acknowledgement channels; the Retransmit step lets a node resend any own rumor to anybody at any time, so nothing is claimed about retransmission succeeding or stopping.
- JSON, sockets, file storage, the HTTP proxy, logging and the web client: encoding is the identity, with nil and empty byte slices kept apart; a send hands the packet to the network.
- Spreading.RetransmitReaches: which rumor is sent again and to whom is a choice, as the timers are.
- Rumor payloads are application messages, not nested rumors messages.
- Regular expressions and SHA-256: abstract functions; xid gives a sequence of request ids.
- Sequence numbers and packet counts are unbounded; search budgets, int(budget), and durations have their machine width.
- Retry loops that draw until something new comes up are modelled by their result; whether one exists is proved exactly.
- SearchPeer.Node.SearchAll: the file infos that come back are a parameter; a retry loop that never ends is the outcome `Spins`, since a method has to end.
- SearchPeer.Node.SearchFirst: the file infos that come back in each round are a parameter; the neighbours do not change during the call.
- SearchPeer.Node.SearchRounds: the same parameter.
- SearchPeer.Node.GetRemoteChunkAndUpdateBlob: what the peer replies, if anything, is a parameter.
- Backoff.WaitForReplyMsg: what ends each wait is a parameter.
- Topology.Generate: the draws are a parameter on which the passes end, which they do with probability 1 for a positive edge probability; addresses are distinct; the final AddPeer calls are not part of it.
- BlobStore.Peer.Upload: a read error other than EOF, which the original ignores, does not occur.
- BlobStore.Peer.DownloadBlob: the choice of a remote peer from the catalog and the wait for it are the list of replies; other nodes' steps in between are covered by the network of SharingNetwork.
- Data requests and replies travel in one step in SharingNetwork: a node's routes are the set of destinations it has an entry for, which changes from outside at any time; the hops in between are left out.
- Availability.FinishesExactly: only the steps of that download and answers to requests are taken; what other uploads, downloads or searches may add meanwhile is not counted.
- FindAndFetch.FoundCanBeDownloaded: the two machines are related at one moment only, by what nodes store and list.
- The search node's blob and naming stores are maps of bytes; the slice store is used for upload and download. The data-sharing and search networks are separate machines, and UpdateCatalog from outside is not a step of the latter.
- Routing loop freedom: a relayed message can set a next hop that is behind, so it is not claimed.
- ForEach, Len and the other stores of storage/inmemory: the loops over a store are in the methods that use them.
