# Verified model of a networking course repository

Three programs of the repository are modelled, each as imperative Dafny that changes the same fields the source
changes, and each is proved against a specification on values about which the real theorems are stated.

**Routing (`mp3`).** `Topology.dfy` has weighted graphs, walks, and labels (distance, neighbour) compared the way both
programs compare them. `CanonicalTree.dfy` shows that with positive costs and ties broken towards the smaller id there
is exactly one tree per root, and what packets do when every router looks only in its own table. `TopologyLines.dfy`
is what topology lines do to a graph. `Linkstate.dfy` is Dijkstra's search per router, `Rounds.dfy` and `Distvec.dfy`
are the synchronous distance-vector rounds on values and on the nodes' queues and tables. `Agreement.dfy` proves that
the two programs agree, path by path.

**Reliable transfer (`mp2`).** `Packets.dfy` cuts a file into chunks. `Congestion.dfy` is the congestion window with
its swapped function pointers (sections 3.1 and 3.2 of RFC 5681), `Sender.dfy` the sender's event loop, `Receiver.dfy`
the ring buffer with cumulative acknowledgements. `Transfer.dfy` puts both into a network that loses, duplicates and
reorders, and proves safety over all runs; `Session.dfy` shows that the programs' own records take exactly those steps,
`Limits.dfy` where the promises end, and `Completion.dfy` from which states the transfer can still be completed.

**CSMA simulator (`mp4`).** `Slots.dfy` simulates slot by slot, scanning the stations by id. `HeapOrder.dfy` and
`Csma.dfy` are the event-driven simulator over a heap; it is proved to refine the slot-by-slot one draw for draw.

## What is assumed

- Routing: ids are non-negative, costs fit (number of nodes times the largest cost is below `INT_MAX`, the sentinel for
  infinity), for the topology after the file and after every change.
- Transfer: between 1 and 2^32 - 1 bytes, so that 32-bit numbers and offsets do not wrap.
- Transfer, for `Transfer.TransferIsSafe` and what rests on it: no packet is sent WINDOW or more past the sender's
  base, the base counting as 1 at least, because the receiver stores nothing before it has written chunk 0. The code
  does not ensure this. `Limits.UnrestrainedIsRightExactly` says for which files it need not: all runs are right if
  and only if the file has at most WINDOW + 1 chunks; `Limits.OutputIsRightExactly` that what is written is right for
  one chunk more. `Limits.WindowIsNotCapped` shows how a longer file overruns the ring, `Limits.ChunkCanBeMisplaced`,
  `Limits.FileCanBeTruncated` and `Limits.OutputCanBeForeign` what is then written. Each is a run of the whole
  protocol from its start. What even such runs keep is in `Transfer.SenderIsNeverAhead` and
  `Transfer.NothingIsUndone`.
- Transfer, for `Sender.NoSilentStall` only: sending is never refused with EAGAIN, and the timer's descriptor is
  readable only when it has expired. `Sender.StallsExactlyWhen` says what happens without the second one, and
  `Completion.DeadEndReachableExactly` what without the first: for any file of two chunks or more, some run ends with
  the timer stopped, nothing to send and nothing to wait for. `Completion.DeadEndExactly` says which states are of
  that kind, `Completion.DeadEndNeedsRefusal` that it takes a refused packet to get there.
- Simulator: three stations or more, packets of at least one slot, more back-off bounds than the retry ceiling, and
  bounds that are not negative. Random numbers are an arbitrary sequence. A collision after which every station of the
  system stands at zero runs the source out of heap entries; `Csma.CSMA.Simulate` reports that case and says exactly
  when it occurs.

The claim that the halved threshold never drops below 2 segments, as section 3.1 of RFC 5681 has it, is false of the
code: `Limits.ThresholdCanBeOne` is a run of the protocol, `Congestion.ThresholdStep` and `Congestion.ThresholdOverRuns`
give the exact condition.

## Model

| member | source | states |
|---|---|---|
| `TopologyLines.ApplyLineKeepsSound` | mp3/src/linkstate.cpp:187-228 | A topology line leaves every id non-negative and every edge positive, present in both directions and of equal cost. |
| `TopologyLines.ApplyLineAt` | mp3/src/linkstate.cpp:197-226 | A line sets the cost of its pair in both directions, or removes the pair when the cost is not positive, adds its two nodes, and touches nothing else. |
| `TopologyLines.LastLineWins` | mp3/src/distvec.cpp:129-171 | After any sequence of lines, the nodes are those mentioned and the cost of each pair is what the last line about it said: no earlier history shows. |
| `TopologyLines.SameTopology` | mp3/src/distvec.cpp:129-171 | Two histories that mention the same nodes and last say the same about each pair leave equal topologies. |
| `Topology.CutCycles` | mp3/src/linkstate.cpp:84-116 | Every walk can be cut down to a simple one with the same ends and no worse (cost, first hop); with positive costs this is why node-count many hops are enough. |
| `Topology.BestWithinNodes` | mp3/src/distvec.cpp:190-204 | The best label over walks of at most n - 1 or more edges is the best label over all walks, and conversely. |
| `Topology.ShortestIsSymmetric` | mp3/src/distvec.cpp:98-123 | Shortest distances are the same in both directions. |
| `CanonicalTree.CanonicalIsBest` | mp3/src/linkstate.cpp:84-116 | A tree whose distances are relaxed and whose predecessors are the least tight ones labels every node with the least (cost, first hop) over all walks to the root. |
| `CanonicalTree.BestIsCanonical` | mp3/src/distvec.cpp:98-123 | Conversely, labels that are least for every node form such a tree. |
| `CanonicalTree.RootPathIsShortest` | mp3/src/linkstate.cpp:303-314 | Following the predecessors from a node is a walk to the root that costs exactly the recorded distance. |
| `CanonicalTree.SharedSuffix` | mp3/src/linkstate.cpp:108-114 | The suffix of the path s chose, from its first hop a on, is the path a chose in its own tree, and the distances differ by the edge from s to a. |
| `CanonicalTree.ForwardingFollowsTree` | mp3/src/linkstate.cpp:140-147 | Packets forwarded by each router's own table trace out the path in the source's tree. |
| `CanonicalTree.ForwardingIsExact` | mp3/src/linkstate.cpp:140-147 | That path visits no router twice, is a walk of the topology, and costs the distance recorded at the source. |
| `Linkstate.VisitKeeps` | mp3/src/linkstate.cpp:85-100 | Recording the closest waiting node keeps the search invariant: visited distances are final, waiting ones least over the visited neighbours with the smallest-id tie-break. |
| `Linkstate.RelaxKeeps` | mp3/src/linkstate.cpp:105-114 | Relaxing one neighbour with the test on the predecessor's id keeps it. |
| `Linkstate.SearchEnds` | mp3/src/linkstate.cpp:84-138 | When all nodes are visited, the recorded distances and predecessors are the canonical tree. |
| `Linkstate.Node.RemoveNei` | mp3/src/linkstate.cpp:43-52 | Removes exactly the one edge; the neighbour list stays a duplicate-free list of the keys. |
| `Linkstate.Node.AddOrUpdateNei` | mp3/src/linkstate.cpp:54-62 | Sets exactly the one edge; the neighbour list stays a duplicate-free list of the keys. |
| `Linkstate.Node.GetIdxOfMinCost` | mp3/src/linkstate.cpp:164-179 | The id of least cost and, among several, the smallest id, in whatever order the map is iterated; -1 for an empty map. |
| `Linkstate.Node.RelaxNeibours` | mp3/src/linkstate.cpp:101-115 | The loop over the neighbour list, in any list order, relaxes every waiting neighbour once. |
| `Linkstate.Node.Visit` | mp3/src/linkstate.cpp:86-116 | One turn of the search with the closest node: reachable, or out of reach and marked -1 in both tables. |
| `Linkstate.Node.ShortestPaths` | mp3/src/linkstate.cpp:75-116 | The search terminates with the canonical tree: exact shortest distances (INT_MAX iff unreachable) and the smallest-id predecessor on a shortest path. |
| `Linkstate.Node.FirstHopTo` | mp3/src/linkstate.cpp:143-144 | The walk back over predecessors ends at the root and finds the first hop of the tree. |
| `Linkstate.Node.BuildForwardingTable` | mp3/src/linkstate.cpp:73-149 | Every entry of the rewritten table is the first hop of the tree, or -1 out of reach: nothing of an earlier table shows. |
| `Linkstate.LinkState.BuildGraph` | mp3/src/linkstate.cpp:187-228 | One line is applied in place to the nodes; symmetry, positivity and the neighbour lists survive. |
| `Linkstate.LinkState.BuildNodesForwardingTables` | mp3/src/linkstate.cpp:244-250 | Afterwards every router's tree and table are those of the current topology. |
| `Linkstate.LinkState.Run` | mp3/src/linkstate.cpp:330-352 | From a topology file through any changes, all tables are those of a fresh build from the resulting topology. |
| `Linkstate.LinkState.PacketsFollowTree` | mp3/src/linkstate.cpp:140-147 | On the program's own fields: hop-by-hop forwarding takes the tree path, visits no router twice, and costs totalDistance, which is shortest. |
| `Linkstate.LinkState.NextHops` | mp3/src/linkstate.cpp:303-314 | The hop list is the tree path to the destination reversed, without the destination, and the source once more. |
| `Linkstate.LinkState.PrintedHops` | mp3/src/linkstate.cpp:282-285 | The hops printed are the routers a packet visits when each forwards it by its own table, without the destination. |
| `Linkstate.HopListIsReverse` | mp3/src/linkstate.cpp:303-314 | Predecessors read off one by one are the tree path reversed. |
| `Rounds.RoundIsDeterministic` | mp3/src/distvec.cpp:98-123 | A round's outcome does not depend on the order of routers, messages or entries. |
| `Rounds.SendingOnlyChangesSuffices` | mp3/src/distvec.cpp:87-96 | A round in which only changed routers send computes the labels of a round in which all send. |
| `Rounds.RoundKeepsCoherent` | mp3/src/distvec.cpp:87-123 | ... and leaves a state of which the same can be said. |
| `Rounds.SparseRunsSuffice` | mp3/src/distvec.cpp:187-205 | For every k, k rounds in which only changed routers send and k rounds in which all send end in the same distances and next hops. |
| `Rounds.RoundAdvances` | mp3/src/distvec.cpp:187-205 | After round k each label is the least (cost, first hop) over walks of at most k edges; one more round looks one edge further. |
| `Rounds.LateRoundIsQuiet` | mp3/src/distvec.cpp:187-205 | From round n - 1 on nothing changes, next hops included. |
| `Rounds.QuietIsFinal` | mp3/src/distvec.cpp:196-204 | However early a round changes nothing, all labels are final. |
| `Rounds.MidRoundDescends` | mp3/src/distvec.cpp:98-118 | At every point inside a round, whatever the order, each finite entry points at a current neighbour that is nearer by at least the connecting edge. |
| `Rounds.DescendingReaches` | mp3/src/distvec.cpp:279-287 | Following the entries of any such state ends at the destination at no more than the recorded distance. |
| `Rounds.DescendingIsLoopFree` | mp3/src/distvec.cpp:279-287 | ... meeting ever smaller distances, so no router twice. |
| `Rounds.PacketsFollowTreeTo` | mp3/src/distvec.cpp:279-287 | Once converged, a packet forwarded router by router takes the tree's path. |
| `Rounds.TreeToIsCanonical` | mp3/src/distvec.cpp:98-123 | Once converged, what all routers know about one destination is the canonical tree rooted there. |
| `Distvec.MergeIsLeast` | mp3/src/distvec.cpp:98-123 | Working off messages first to last yields the least of the old label and all offers, ties to the smaller neighbour. |
| `Distvec.MergeIsLeastOffer` | mp3/src/distvec.cpp:87-123 | For the messages really delivered in a round, that is the least over the changed neighbours' offers. |
| `Distvec.MergedIsRound` | mp3/src/distvec.cpp:192-203 | Delivering and merging by all routers is one synchronous round. |
| `Distvec.MidRoundIsLoopFree` | mp3/src/distvec.cpp:98-118 | Every state in which each router has merged some prefix of its mail for each entry is loop-free. |
| `Distvec.LoopIsLoopFree` | mp3/src/distvec.cpp:187-205 | ... in every round of the program's loop. |
| `Distvec.RoundStep` | mp3/src/distvec.cpp:190-204 | A round carries the loop's invariant on; round n - 1 is quiet at the latest, and a quiet round is final. |
| `Distvec.NoSenderIsFinal` | mp3/src/distvec.cpp:193-196 | Stopping because nobody sent anything is stopping with all labels final. |
| `Distvec.Node.RemoveNei` | mp3/src/distvec.cpp:50-59 | Removes exactly the one edge; the neighbour list stays a duplicate-free list of the keys. |
| `Distvec.Node.AddOrUpdateNei` | mp3/src/distvec.cpp:61-70 | Sets exactly the one edge and the flag; the neighbour list stays a duplicate-free list of the keys. |
| `Distvec.Node.SendUpdate` | mp3/src/distvec.cpp:87-96 | A changed router appends one copy of its distances to each neighbour's queue and to no other; reports whether it sent. |
| `Distvec.Node.Digest` | mp3/src/distvec.cpp:102-118 | One message relaxes exactly the entries it makes an offer for, in any order; reports whether a label changed. |
| `Distvec.Node.UpdateDistanceAndForwardingTable` | mp3/src/distvec.cpp:98-123 | The queue is merged and emptied; the flag is set iff some label differs from before. |
| `Distvec.DistanceVector.BuildGraph` | mp3/src/distvec.cpp:129-171 | One line is applied in place and every distance but the own one is forgotten; forwarding entries may be stale. |
| `Distvec.DistanceVector.InitialAllDist` | mp3/src/distvec.cpp:258-266 | All distances to other nodes become INT_MAX, in any order. |
| `Distvec.DistanceVector.SendAll` | mp3/src/distvec.cpp:192-195 | Everybody holds exactly the messages of the changed neighbours; the count is zero iff no changed router has a neighbour. |
| `Distvec.DistanceVector.UpdateAll` | mp3/src/distvec.cpp:198-202 | Everybody merges its own messages; the count is zero iff nobody changed. |
| `Distvec.DistanceVector.BuildNodesForwardingTables` | mp3/src/distvec.cpp:187-205 | The loop terminates in at most n sending rounds with every label least over all walks, from tables with stale forwarding entries. |
| `Distvec.DistanceVector.Run` | mp3/src/distvec.cpp:306-323 | From a topology file through any changes, all labels are those of the resulting topology. |
| `Distvec.DistanceVector.NextHops` | mp3/src/distvec.cpp:279-287 | The hop list is the tree path from the source, without the destination; just the source when both are the same. |
| `Distvec.DistanceVector.PrintedHops` | mp3/src/distvec.cpp:238-242 | The hops printed are the routers a packet visits when each forwards it by its own table. |
| `Agreement.TreesCoincide` | mp3/src/linkstate.cpp:110-114 | A topology has one canonical tree per root. |
| `Agreement.ProtocolsAgree` | mp3/src/distvec.cpp:98-123 | Link-state costs equal converged distance-vector costs in both directions, link-state predecessors are distance-vector next hops, and the link-state path s to t is the reverse of the distance-vector path t to s. |
| `Agreement.ProgramsAgree` | mp3/src/linkstate.cpp:137-138 | The same on the fields of the two programs. |
| `Agreement.RunsAgree` | mp3/src/distvec.cpp:306-323 | Both programs having run, on topologies that name the same nodes and last say the same about every pair, they agree about all routers. |
| `Agreement.RootPathIsLexLeast` | mp3/src/distvec.cpp:112-117 | Of all shortest walks the distance-vector path is the first in lexicographic order. |
| `Agreement.ConvergedForwardingIsLexLeast` | mp3/src/distvec.cpp:279-287 | Converged hop-by-hop forwarding delivers along that path, no router twice. |
| `Agreement.DistvecForgets` | mp3/src/distvec.cpp:129-171 | Equal topologies reached by different histories give equal distances and next hops to whatever can be reached. |
| `Agreement.LinkstateForgets` | mp3/src/linkstate.cpp:187-228 | ... and equal distances, predecessors and first hops. |
| `Agreement.TablesForget` | mp3/src/linkstate.cpp:73-149 | ... and equal entries in the forwarding tables of two runs of the link-state program. |
| `Packets.ChunksTileFile` | mp2/src/sender_main.c:160-176 | The chunks' payloads, one after the other, are the file. |
| `Congestion.StepKeepsHealthy` | mp2/src/adt.c:23-129 | Every acknowledgement, confirmation and timeout keeps the invariant of the window machine. |
| `Congestion.AlwaysHealthy` | mp2/src/adt.c:88-129 | In every run: window and threshold at least 1; slow start below the threshold or at 1; congestion avoidance at or above it with a partial round below the window; recovery at least 3 above it. |
| `Congestion.HistoryTells` | mp2/src/adt.c:23-129 | The events of a run alone tell the machine's marks, its duplicate count and its state: it recovers exactly while the last acknowledgement has been repeated three times or more since it was first heard or since the last timeout, with a window of the threshold and a segment per repetition; slow start's window is what it began with and one for each new acknowledgement since. |
| `Congestion.RecoveryStartsAtThird` | mp2/src/adt.c:31-38 | An acknowledgement starts recovery iff it is the third repetition in a row of one number, with no other acknowledgement and no timeout in between. |
| `Congestion.LossSetsThreshold` | mp2/src/adt.c:27-29 | The threshold changes only at a third repetition or a timeout at another base than the last, to half the window, or 2 for a window up to 2; a timeout leaves a window of 1, the end of recovery one of the threshold. |
| `Congestion.RoundsOfAvoidance` | mp2/src/adt.c:53-72 | Congestion avoidance begins with an empty round at the threshold, or at 2 when that is 1; in it only new acknowledgements count, by the numbers they cover, and the window grows by one when the round reaches it. |
| `Congestion.ThresholdStep` | mp2/src/adt.c:27-38 | A step takes the threshold below 2 exactly when it sets it, by a third duplicate outside recovery or a timeout at a new base, while the window is 3. |
| `Congestion.ThresholdOverRuns` | mp2/src/adt.c:27-129 | Throughout a run the threshold stays at 2 or more iff no event of the run sets it while the window is 3. |
| `Limits.ThresholdCanBeOne` | mp2/src/adt.c:27-38 | For any file of four chunks or more, a run of sender, network and receiver after which the threshold is 1. |
| `Congestion.LossHalvesWindow` | mp2/src/adt.c:31-76 | Three or more duplicates in a row and the acknowledgement that ends recovery: threshold half the window, one segment of inflation per duplicate, deflation to the threshold, congestion avoidance. |
| `Congestion.RepeatedTimeoutHalvesOnce` | mp2/src/adt.c:120-129 | A second timeout at the same base changes nothing. |
| `Congestion.AvoidanceGrowsSlowly` | mp2/src/adt.c:53-59 | For every ascending run of acknowledgements in congestion avoidance, w(w-1)/2 plus the partial round grows by no more than the segments acknowledged. |
| `Congestion.SlowStartOpens` | mp2/src/adt.c:40-45 | Acknowledgements in order open the window one by one from 4 to the threshold of 4096, where congestion avoidance begins. |
| `Limits.WindowIsNotCapped` | mp2/src/adt.c:74-76 | For any file of two chunks or more and any size, a run of sender, network and receiver opens the window to that size with nothing but chunk 0 acknowledged, and all of it is sent. |
| `Congestion.Cwnd.constructor` | mp2/src/adt.c:88-94 | The initial window of 4, threshold of 4096, slow start, and all marks at -1. |
| `Congestion.Cwnd.CallAck` | mp2/src/adt.c:40-72 | The function pointer for new acknowledgements does what the state calls for; what that is, the history tells. |
| `Congestion.Cwnd.CallDupAck` | mp2/src/adt.c:31-38 | The function pointer for duplicates does what the state calls for. |
| `Congestion.Cwnd.AckCwnd` | mp2/src/adt.c:96-109 | Duplicate or new acknowledgement, dispatched through the pointers: state and pointers always match. |
| `Congestion.Cwnd.ConfirmThreeDups` | mp2/src/adt.c:111-118 | A third duplicate is reported once and recovery goes on. |
| `Congestion.Cwnd.TimeoutCwnd` | mp2/src/adt.c:120-129 | A timeout halves the threshold once per base and restarts slow start at 1. |
| `Sender.StartedIsExact` | mp2/src/adt.c:149-155 | With 64-bit and 32-bit arithmetic as written, the chunk lengths add up to the file iff it has between 1 and 1444 * (2^32 - 1) bytes. |
| `Sender.HeardMovesBase` | mp2/src/sender_main.c:114-129 | A batch of acknowledgements, in any order, moves the base to its highest number, and the window machine's last acknowledgement is the base or was never set. |
| `Sender.AvoidanceCountsNewSegments` | mp2/src/adt.c:53-59 | Hence the unsigned subtraction counts exactly the newly acknowledged segments. |
| `Sender.DigestedIsSound` | mp2/src/sender_main.c:242-272 | A turn of the event loop keeps the sender's invariant; the base becomes the highest acknowledgement; no third duplicate is left pending. |
| `Sender.DigestedExactly` | mp2/src/sender_main.c:114-158 | Every wake-up in full: the base is the highest acknowledgement; the window machine sees the acknowledgements not below an earlier one, the confirmation, and a timeout iff the timer expired with nothing new and no third duplicate; a retransmission is pending iff such a loss came with it; the timer stops for a loss, after an advance runs iff something is outstanding, and otherwise runs on unless read. |
| `Sender.WindowFollowsHistory` | mp2/src/sender_main.c:233-278 | In every run of wake-ups the window machine is where these events have brought it, so that the history of the run tells its state. |
| `Sender.BurstFillsWindow` | mp2/src/adt.c:136-169 | What may be sent starts at the base when a loss is pending, else behind the last packet sent but not below the base, and ends exactly at min(base + window, total), despite the wrapping initial mark. |
| `Sender.SendStep` | mp2/src/sender_main.c:173-176 | The loop's own test lets out one more packet exactly while the burst lasts; the first one sent clears the retransmission mark. |
| `Sender.OverrunsWhenWindowDoes` | mp2/src/adt.c:136-144 | A packet WINDOW or more past the base is sent iff the window exceeds WINDOW and the file has such a packet. |
| `Sender.TurnKeepsAlive` | mp2/src/sender_main.c:242-277 | Whatever a wake-up brings, with a writable socket the timer runs after the turn or everything is acknowledged, if that was so before. |
| `Sender.NoSilentStall` | mp2/src/sender_main.c:224-278 | From the first burst on, after every turn of every run of wake-ups, the timer runs iff something is not acknowledged. |
| `Sender.LossIsResent` | mp2/src/sender_main.c:131-158 | Third duplicate or timeout: the packet at the base is next, alone after a timeout; otherwise nothing is sent twice. |
| `Sender.StallsExactlyWhen` | mp2/src/sender_main.c:253-276 | Without the premise on the timer's count the sender falls silent iff the timer is read unexpired, nothing is new, no third duplicate came and the window is full. |
| `Sender.SenderStat.constructor` | mp2/src/adt.c:149-160 | The starting record, with the wrapping arithmetic of the source. |
| `Sender.SenderStat.AckAll` | mp2/src/sender_main.c:114-129 | The loop hears the batch in order; the pending base and third duplicate are reported, and none stays pending. |
| `Sender.SenderStat.Merge` | mp2/src/sender_main.c:131-158 | Base, retransmission mark, timer and timeout reaction after a batch. |
| `Sender.SenderStat.PreparePacket` | mp2/src/sender_main.c:160-168 | The packet carries the bytes at 1444 * seq computed in 32 bits, which is the chunk's place iff the product fits. |
| `Sender.SenderStat.SendPkts` | mp2/src/sender_main.c:170-198 | Sends exactly the consecutive chunks from the next number to the window's end, or as many as the socket takes. |
| `Sender.SenderStat.Turn` | mp2/src/sender_main.c:242-277 | A whole turn of the event loop on the record. |
| `Receiver.AppendKeepsOrder` | mp2/src/receiver_main.c:201-207 | Writing the expected packet keeps the ring in order. |
| `Receiver.FlushKeepsOrder` | mp2/src/receiver_main.c:89-104 | Flushing keeps output and ring in order and ends with the next slot empty. |
| `Receiver.StoreKeepsOrder` | mp2/src/receiver_main.c:108-112 | Storing a packet of the window ahead keeps the ring in order: no slot is shared. |
| `Receiver.InWindowIsEnough` | mp2/src/receiver_main.c:185-231 | A chunk of the file keeps the invariant on output and ring iff it is less than WINDOW ahead of what is expected, or chunk 0 is still missing and it is dropped. |
| `Receiver.ChunkKeepsTidy` | mp2/src/receiver_main.c:185-231 | Whatever chunk arrives, however far ahead: full slots hold their own chunk or a later one that shares them, the output only grows, and the number of chunks is neither passed nor reached without the end of the file. |
| `Receiver.ShortFileIsWrittenRight` | mp2/src/receiver_main.c:185-231 | In a file of at most WINDOW + 2 chunks every chunk, however far ahead, leaves the output the file up to the number reached. |
| `Receiver.SlotHoldsItsChunk` | mp2/src/receiver_main.c:108-112 | A full slot holds the one chunk of the window ahead that belongs there. |
| `Receiver.ArrivalIsKept` | mp2/src/receiver_main.c:201-230 | A chunk of the window that arrives is written or waits afterwards, what was written or waited before still does, and nothing else appears. |
| `Receiver.AnyOrderWillDo` | mp2/src/receiver_main.c:185-231 | Chunks of the window ahead may arrive in any order and any number of times: the number then expected is the least that neither arrived nor waited before, and the output is the file up to it. |
| `Receiver.OrderIsForgotten` | mp2/src/receiver_main.c:185-231 | Two sequences of arrivals with the same chunks in them leave the same output and the same number expected. |
| `Receiver.FlushExactly` | mp2/src/receiver_main.c:89-104 | Whatever the ring holds, the full slots from the number expected on are written in order and emptied, the end is seen iff one of them is flagged, and the other slots stay. |
| `Receiver.ArrivalExactly` | mp2/src/receiver_main.c:201-230 | What any packet does to any ring: the one expected is written with all that waits behind it, one ahead takes its slot whatever that held, and nothing else changes anything. |
| `Receiver.RoomIsAhead` | mp2/src/receiver_main.c:75-77 | Counting full slots ends iff some slot is empty, and then within one turn of the ring. |
| `Receiver.OverrunGoesOn` | mp2/src/receiver_main.c:89-104 | With a chunk from beyond the window in the ring, chunks arriving in order are written until that chunk is written in another one's place. |
| `Receiver.AcksAreCumulative` | mp2/src/receiver_main.c:185-231 | A packet is answered iff the sender's address is known; every acknowledgement names the first chunk not yet written, and never 0. |
| `Receiver.AnswersExactly` | mp2/src/receiver_main.c:37-42 | How many acknowledgements a chunk gets, and which are flagged: none before packet 0, one as a rule, flagged iff the end was reached or it is a copy of the last chunk, and 45 flagged ones when the receiver stops, besides which the last chunk itself gets none. |
| `Receiver.CountIsFlushed` | mp2/src/receiver_main.c:75-106 | The number counted before the acknowledgement is the number reached by writing. |
| `Receiver.RenumberingIsLost` | mp2/src/receiver_main.c:38-42 | The sequence number overwritten while acknowledging is gone once the slot is written. |
| `Receiver.ReceiverQ.MapToQueue` | mp2/src/receiver_main.c:108-112 | The packet is copied to its slot in the arrays. |
| `Receiver.ReceiverQ.CountFull` | mp2/src/receiver_main.c:75-77 | The counting loop, which clears nothing, ends at the first empty slot, given that there is one. |
| `Receiver.ReceiverQ.WriteBuffered` | mp2/src/receiver_main.c:89-104 | The writing loop is the flush. |
| `Receiver.ReceiverQ.CheckAndSendBuffer` | mp2/src/receiver_main.c:69-106 | Acknowledges the number that is then reached, with the fin flag of the last packet written. |
| `Receiver.ReceiverQ.RecvPacket` | mp2/src/receiver_main.c:137-147 | The address test: passed by packet 0, which sets the address, and from then on. |
| `Receiver.ReceiverQ.Receive` | mp2/src/receiver_main.c:185-231 | The receive loop's body for a packet of the sender's on arrays, counters and the known address: dropped unanswered before packet 0, else written or saved; new state and acknowledgements, the 45 farewells included. |
| `Transfer.StepIsSafe` | mp2/src/sender_main.c:233-290 | Each step of sender, receiver or network within the ring's reach keeps the protocol's invariant. |
| `Transfer.TransferIsSafe` | mp2/src/receiver_main.c:185-231 | For every run under loss, duplication and reordering that does not overrun the ring: the output is the first chunks of the file, acknowledgements never exceed what was written, every packet in flight can be received, the receiver is done iff the output is the whole file, and the sender finishes only after that. |
| `Transfer.ExpectedIsFirstMissing` | mp2/src/receiver_main.c:185-231 | In every such run the receiver has written exactly the chunks below the first that has not arrived, in whatever order they came. |
| `Transfer.StepIsSane` | mp2/src/sender_main.c:233-290 | Each step of any run, whether it overruns the ring or not, keeps sender and receiver in step and takes nothing back. |
| `Transfer.SenderIsNeverAhead` | mp2/src/sender_main.c:233-233 | In every run whatever: base <= number expected <= number of chunks, no acknowledgement is for more than that, and the sender finishes only after the receiver. |
| `Limits.SmallFileIsTame` | mp2/src/sender_main.c:170-176 | No run overruns the ring if the file is at most one chunk longer than it. |
| `Limits.UnrestrainedIsRightExactly` | mp2/src/sender_main.c:170-176 | All runs, with nothing restraining the sender, keep these promises iff the file has at most WINDOW + 1 chunks; with more, some run leaves the receiver counting full slots forever. |
| `Limits.OutputIsRightExactly` | mp2/src/receiver_main.c:69-112 | In all runs the output is the file up to the number reached and the receiver stops on the whole file only, iff the file has at most WINDOW + 2 chunks. |
| `Limits.ChunkCanBeMisplaced` | mp2/src/receiver_main.c:108-112 | For every chunk j > WINDOW + 1, some run of sender, network and receiver writes it in the place of the first chunk from 2 on that shares its slot. |
| `Limits.MisplacedIsWrong` | mp2/src/receiver_main.c:89-104 | That output is never the file, and a beginning of it iff chunk j's bytes begin those of the chunk it displaced. |
| `Limits.FileCanBeTruncated` | mp2/src/receiver_main.c:92-94 | For any file of more than WINDOW + 2 chunks, some run ends with the receiver done and an output that is not the file. |
| `Limits.OutputCanBeForeign` | mp2/src/receiver_main.c:89-104 | If chunk WINDOW + 2 does not begin chunk 2, some run ends with an output the file does not begin with. |
| `Transfer.NothingIsUndone` | mp2/src/sender_main.c:114-158 | In every run base, number expected and output only grow; once the receiver is done, nothing, the closing packet included, changes it. |
| `Completion.CanComplete` | mp2/src/sender_main.c:149-168 | As long as the timer runs or the window and the ring let something out, whatever was lost, some continuation completes the transfer; only a running timer expires in it, and nothing but the two programs and the network takes part. |
| `Completion.StepInVain` | mp2/src/sender_main.c:131-158 | No step of sender, receiver or network leads out of a dead end: the timer stopped, the window full, and nothing in flight, or none of the answers to it, that the sender would hear as new or as a duplicate that counts. |
| `Completion.DeadEndExactly` | mp2/src/sender_main.c:224-278 | In any state in which the ring is not overrun the transfer can still be completed iff it is in no dead end, with or without stray datagrams reaching the receiver. |
| `Completion.DeadEndReachableExactly` | mp2/src/sender_main.c:131-156 | Dead ends can be reached iff the file has two chunks or more: a duplicate clears the retransmission mark after the socket has refused the packet and the timer was stopped. |
| `Completion.DeadEndNeedsRefusal` | mp2/src/sender_main.c:178-183 | If the socket never refuses a packet, no run comes to a dead end. |
| `Session.Session.Play` | mp2/src/sender_main.c:233-278 | The records of both programs, driven through any run, whether it overruns the ring or not, take exactly the protocol's steps. |
| `Slots.TimeIsConserved` | mp4/csma.py:104-138 | Sending, idle and collision time always add up to the slots passed. |
| `Slots.CollisionsAreCounted` | mp4/csma.py:122-127 | A collision costs each of its stations one collision and one draw and nobody else anything. |
| `Slots.AlwaysAccounted` | mp4/csma.py:105-132 | At every slot, sending time is a packet length per completed transmission plus what was sent of the current one, and node collisions are at least twice the collision time. |
| `Slots.SlotByLaw` | mp4/csma.py:32-51 | In every slot of every run: the retry is the number of collisions modulo M + 1; a station has a packet more iff its transmission ended, a collision more iff it is not alone in having counted down, and then and only then a countdown drawn, in the order of ids, below the bound of its retry; channel, books and draws go on accordingly. |
| `Slots.RunByLaw` | mp4/csma.py:55-67 | So it is in every run of stations that start fresh, with first countdowns drawn in the order of their ids. |
| `Slots.IdleSlots` | mp4/csma.py:110-117 | Idle slots until the first station reaches zero can be taken together. |
| `Slots.SendingSlots` | mp4/csma.py:105-109 | So can the slots of a lone station's transmission. |
| `Slots.JamEvent` | mp4/csma.py:122-127 | When a collision leaves every station at zero, all of them were in it. |
| `HeapOrder.RootIsFirst` | mp4/csma.py:90-91 | The root of the heap is first by countdown and id. |
| `HeapOrder.CollisionShowsAtChildren` | mp4/csma.py:118-118 | Some other station has counted down iff one of the root's two children has. |
| `HeapOrder.CountDownKeepsHeap` | mp4/csma.py:112-113 | Counting all nodes down together keeps the heap. |
| `HeapOrder.RootChangeKeepsRest` | mp4/csma.py:108-127 | A new countdown at the root leaves the heap in order below it. |
| `Csma.Node.Collide` | mp4/csma.py:44-47 | One collision: counter, next retry or the first again, one draw for the new bound. |
| `Csma.Node.SentPacket` | mp4/csma.py:49-51 | One packet: counter and one draw at the retry the node is at. |
| `Csma.CSMA.constructor` | mp4/csma.py:55-67 | Nodes draw in the order of their ids and form a heap; counters are zero. |
| `Csma.CSMA.SiftDown` | mp4/csma.py:109-127 | The root goes down to its place: a heap of the same nodes. |
| `Csma.CSMA.HeapPop` | mp4/csma.py:125-125 | Takes the root: a heap of the other nodes. |
| `Csma.CSMA.HeapPush` | mp4/csma.py:128-129 | Adds a node: a heap of all of them. |
| `Csma.CSMA.CollideRoot` | mp4/csma.py:123-127 | The root collides and leaves the list or moves down. |
| `Csma.CSMA.CollideAll` | mp4/csma.py:121-129 | The heap-driven collision does to each station, draw for draw, what a scan by id does; it runs out of nodes iff all of them are at zero again. |
| `Csma.CSMA.CountAll` | mp4/csma.py:112-113 | Every node counts down once. |
| `Csma.CSMA.WhatRootTells` | mp4/csma.py:115-118 | Root and children tell whether the channel is idle, one station is alone, or there is a collision. |
| `Csma.CSMA.Settle` | mp4/csma.py:105-113 | The first half of the loop's body brings the books up to the time. |
| `Csma.CSMA.Begin` | mp4/csma.py:115-132 | The second half begins the next event and moves time on. |
| `Csma.CSMA.Finish` | mp4/csma.py:134-138 | The event cut off by the end is booked for the slots it had. |
| `Csma.CSMA.Simulate` | mp4/csma.py:98-140 | The event-driven run ends with the counters, draws and stations of the slot-by-slot simulation, except that the countdowns lack exactly the idle slots the run ends in; it breaks off iff some collision before the end leaves every station at zero. |
| `Slots.EndsIdleOnce` | mp4/csma.py:136-138 | The number of idle slots a run ends in is determined by the run. |
| `Csma.CSMA.ResultsAddUp` | mp4/csma.py:98-155 | Its results: times add up to the total, sending time is a packet length per packet plus the part of the last, collisions are at least two per collision slot. |
| `Csma.CSMA.RetriesAddUp` | mp4/csma.py:32-33 | At the end of a run every node's retry is the number of its collisions modulo M + 1. |
| `Csma.SimulateConfig` | mp4/csma.py:186-194 | The program, set up for a configuration and run once: its results are those of the slot-by-slot run of fresh stations, and retries fit collisions. |

## Left out

- Sockets, epoll, mmap, timerfd and sleeps: packets and acknowledgements are values, the timer is a running flag, and
  readiness comes in as a parameter.
- Transfer.Enabled: a packet that would set the receiver counting forever is no step of the model; that none is in
  flight is part of what `Transfer.TransferIsSafe` promises.
- Receiver.ReceiverQ.RecvPacket: every packet comes from the sender's one address. Datagrams of the wrong size or from
  elsewhere are the protocol's step `Garble`, answered by `Receiver.ReceiverQ.Reject`; one from elsewhere that is
  numbered 0 and so takes the sender's place is not modelled.
- Congestion.Cwnd.AckCwnd: window, threshold and partial round are unbounded integers; the source's 64-bit fields would
  need 2^64 segments to wrap.
- Receiver.ReceiverQ.Receive: the number expected next is unbounded, because it stays at or below the number of chunks,
  which fits in 32 bits; what it keeps for packets that are chunks of one file is in `Receiver.InWindowIsEnough` and
  `Receiver.ChunkKeepsTidy`.
- Receiver.ReceiverQ.MapToQueue: a packet's payload stands for the first `payload` bytes of its data field; the bytes
  behind them, which are never written, are not modelled.
- Sender.SenderStat.SendPkts: the socket takes a given number of packets before it reports EAGAIN.
- Sender.SenderStat.AckAll: the flag `recvFin` is not modelled, nor are `highestSeq`, `priorWindow` and `AckSummary`,
  which nothing the sender does depends on.
- Completion.CanComplete: says that completion stays possible, not that it happens under unbounded loss, nor that the 45
  farewells reach the sender.
- Linkstate.Node.GetIdxOfMinCost: maps are iterated in an arbitrary order, which covers the order of `unordered_map`
  and of `std::map`.
- Linkstate.LinkState.PrintedHops: when source and destination are the same, the printing loop of the source starts in
  front of the list; the model prints nothing then.
- Csma.CSMA.SiftDown: `heapq` is a library; its operations are implemented here by the textbook exchanges. The layout of
  the list may differ from the library's, and the results do not depend on it.
- Csma.CSMA.Simulate: `_reinitialize`, and with it a run with new parameters, is not modelled; fewer than three stations
  are not, because the source then reads past the list.
- Parsing of topology, message and configuration lines, printing of results, and the size test in front of the message
  list of the distance-vector program.
- `initial_two_node_dist` and the copy constructors of the two `Node` classes: no run uses them.
- Variances, ratios, report writing and `mp4/csma-report.py`.
- `mp0` and `mp1`: socket, file and string plumbing.
