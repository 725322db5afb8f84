# ANTCONF, the AntTrust routing agent: a verified model

AntTrust is an ad hoc routing protocol in which "ants" (light agents) wander through a radio network, learn
routes on their way and carry back the demands of the nodes that look for one. The agent `ANTCONF`
(`antconf.cc` with `antconf_rtable.cc`, `antconf_phtable.cc` and `antconf_rqueue.cc`) is modelled in two layers.

**One node.** `Protocol.dfy` describes a node as a value and each handler and timer as a function from a
state and an input to a new state and a list of outputs. `Agent.dfy` is the agent itself, class `Antconf`: its
fields are updated in place, its loops walk and change the lists, and every handler is proved to take the
fields from the old value to the one the function of `Protocol.dfy` gives, with the same outputs. Its parts are
classes too: `RQueue.dfy` (the packet buffer, a singly linked list in the heap with head, tail and length),
`RoutingTable.dfy` and `PheromoneTable.dfy`; `Roulette.dfy` fills the three arrays of the search branch.

**A network.** `Network.dfy` joins any number of nodes by a list of messages in flight. The events are: a
message is delivered at the node its next hop names, is lost, or fails at the link layer; a timer fires at a node;
a node's own application hands it a packet; time passes. The schedule, the losses, the hearers of each
broadcast, the values of `rand()` and the contents of memory nobody has written are inputs of the events, so
that a statement about every run is a statement about every choice of them.

What is proved, hardest first:

- `NodeInvariant.dfy`, `HandlersKeep.dfy`, `Network.dfy`: the invariant that ties the buffer, the routing table,
  the requests, the neighbours, the pheromone table and the messages together, kept by every handler and timer
  and therefore true in every run. It makes the drains and re-asks of `rt_purge` idle.
- `Refinement.dfy` with `Agent.dfy`: each node of a run is what its inputs make of a fresh one, and the agent,
  constructed and given the same inputs one after the other, ends in the same state.
- `WanderingAnts.dfy`, `DataPackets.dfy`, `Trips.dfy`, `IdCache.dfy`: whole trips. A launch is transmitted at most
  ten times as a wandering ant, a unicast packet at most thirty times; a return ant retraces its trail; two
  acceptances of the same ant are six seconds apart.
- `Journeys.dfy`: trails are true. In every run the cells of a trail are transmissions of that very launch, and
  the legs of a return ant are transmissions of the run.
- `Lifecycle.dfy`, `Links.dfy`, `Flooding.dfy`: how entries change over a run, what a lost neighbour severs and
  reports, why rectificator floods end.
- `Demands.dfy`: what the protocol is for. A demand is remembered and answered where a route is known; hearing of
  the destination ends the demand and empties the buffer. `RouteLife.dfy`: a learned route lasts ten seconds of
  any run, while its neighbour stays and does not withdraw it.
- `Draws.dfy` with `Roulette.dfy`: the layout of the roulette; in every run that stays inside the arrays a draw lands
  on a written cell, and what lies in unwritten memory never matters. `Overflow.dfy`: a run that does not stay there.
- `Outward.dfy`, `Learning.dfy`, `Homeward.dfy`, `Withdrawals.dfy`, `Delivery.dfy`, `Upkeep.dfy`: what each handler and
  timer as a whole does, read off the lists and tables of the node before and after and off what leaves it: which
  ants go where with which news, which entry is learned, withdrawn or passed on, where a packet goes.
- `QueueRuns.dfy`, `Requests.dfy`, `Choices.dfy`: runs of the buffer, the round robin of requests, the meaning of
  the forwarding decisions.
- `Asserts.dfy`: the assertions written into `antconf.cc` on flags, parity and hop counts hold where they stand.
  `Additions.dfy`: those of `rt_add` fail in runs that are given, and hold exactly at a node's first call for a
  destination.

Ground rules. The configuration is the shipped one: `ANTCONF_LINK_LAYER_DETECTION` defined (`antconf.h:20`),
`ANTCONF_LOCAL_REPAIR` not (`antconf.cc:24`). The clock is a real number that never goes back, pheromone is a
real number, sequence numbers are natural numbers, addresses of nodes are not negative. Two hypotheses are made
about the wire. `Arrives`: an ant is delivered with a hop count below 255 (`INFINITY2`); hop counts are otherwise
bytes that wrap, and `HopLimitExact` shows that the limit cannot be raised. `Delivered`: each delivery adds one to
`num_forwards` of a data packet and marks it as travelling UP, as the simulator's lower layers do; the bound on
transmissions of data packets rests on it.

The roulette arrays of `chooseNextHop` have 1000 cells. The functions of `Protocol.dfy` and the runs of the network
have no such limit: they go on past the point where the code writes beyond its arrays and its behaviour becomes
undefined. `Spills` marks these events and `InBounds` the runs without one; statements about every run are statements
about the code up to the first such event. They do occur (`RunsSpill`): since `ar_purge` is never called, the
quantity of a demand that stays unanswered grows by 0.1 every 0.2 seconds without limit, and a single entry of
quantity 100 or more naming a neighbour is enough (`RichEntryOverruns`).

A packet that arrives at its own destination goes through `rt_resolution` like any other, as `recv` is written: it
is delivered locally only where the node has an UP entry for itself, and otherwise dropped with a rectificator that
names the node. In the simulator the node's address classifier takes such packets before they come to the agent;
in a run of the model that outcome is the loss of the message, so the statements about every run cover both.

Where the code differs from what is said about it, the code is followed:

- `rt_add` asserts that no entry for the destination exists (`antconf_rtable.cc:175`, `:189`), but its callers
  (`antconf.cc:586-589`, `845-850`) add entries beside existing ones: `RtAddAssertFails` and `RtAddViaAssertFails`
  give runs, and `RtAddAssertExact` says which calls meet the assertion. The assertion of `rtph_add`
  (`antconf_phtable.cc:98`) names an undeclared variable, so assertions are compiled out. The table holds several
  entries per destination.
- `purge` unlinks expired packets without calling `drop`; they form an account of their own.
- The scan of `chooseNextHop` never updates its best-so-far variables, so the last match wins, not the best one.
- The round robin withdraws `askRt` when there is only one request, which is put back without the flag:
  `DefaultBranchRotates` says exactly when the flag survives.
- The roulette skips the first neighbour without pheromone, and for a table in which no pair pays it leaves cell 0
  unwritten: `DrawIsWritten` says exactly when a drawn cell was written. With exact arithmetic no run has such a
  table when it draws (`DrawsAreWritten`), since pheromone comes in whole steps of 0.1. The bad draw needs the
  residue of floating point: 0.5 less five times 0.1 leaves about 2.8e-17, whose tenfold truncates to 0.
- `sendAntLight` draws `rand() % nb_num` and reads 0 as 1, so that with two or more neighbours the last in the list
  is never picked (`LaunchPicks`).
- When cloning fails for want of another neighbour the code frees the packet and goes on using it; the model
  lets it go on, and so sends a return ant as well as the ant itself.


## Model

| member | source | states |
|---|---|---|
| `RQueue.RQueue.constructor` | antconf_rqueue.cc:17-23 | a new buffer is a well-formed empty list |
| `RQueue.RQueue.Enque` | antconf_rqueue.cc:25-59 | the linked list afterwards holds exactly the unexpired packets in their order, less the head when 100 were left, followed by the new packet stamped now + 3; the drop is reported as overflow or timeout by the displaced packet's own deadline; head, tail, length and acyclicity stay right |
| `RQueue.RQueue.Deque` | antconf_rqueue.cc:62-74 | after removing everything expired, the first live packet leaves and the others keep their order; null exactly when nothing was live |
| `RQueue.RQueue.DequeFor` | antconf_rqueue.cc:77-107 | the first live packet for the destination leaves, all other live packets stay in order; null exactly when there is none |
| `RQueue.RQueue.Find` | antconf_rqueue.cc:109-118 | true exactly when some waiting packet is bound for the destination |
| `RQueue.RQueue.RemoveHead` | antconf_rqueue.cc:120-134 | unlinks the first packet and keeps head, tail and length consistent, also for the empty and the one-packet list |
| `RQueue.RQueue.FindPacketWithDst` | antconf_rqueue.cc:136-149 | finds the first packet for the destination and its predecessor, or neither |
| `RQueue.RQueue.VerifyQueue` | antconf_rqueue.cc:152-164 | the two checks of verifyQueue hold of every well-formed list: the walk counts len_ packets and ends on tail_ |
| `RQueue.RQueue.FindAgedPacket` | antconf_rqueue.cc:166-179 | finds the first packet past its deadline and its predecessor; false exactly when there is none |
| `RQueue.RQueue.Purge` | antconf_rqueue.cc:181-210 | whatever the order of the queue, exactly the expired packets are unlinked, without a drop, and the rest keep their order |
| `RQueue.RQueue.Unlink` | antconf_rqueue.cc:88-102 | the three unlinking branches (head, tail, middle), shared by deque and purge, each remove just that packet and keep the list well formed |
| `PacketQueue.PurgeIsPrefixDrop` | antconf_rqueue.cc:181-210 | on a queue sorted by deadline the rescan loop removes the maximal expired prefix, and every packet it finds is at the head, so the tail and middle branches are dead |
| `PacketQueue.EnqueKeeps` | antconf_rqueue.cc:25-59 | enque keeps the deadline order and the bound of 100, invents no packet, and leaves only packets whose deadline lies within the next 3 seconds |
| `PacketQueue.KeepSplits` | antconf_rqueue.cc:166-210 | filtering a queue by any of its tests loses and duplicates no packet: kept and removed together are the multiset of the queue |
| `PacketQueue.PopFor` | antconf_rqueue.cc:77-107 | one deque(dst) takes the head of what is bound for dst, and neither it nor the purge before it disturbs anything else |
| `PacketQueue.DequeAllTakes` | antconf_rqueue.cc:77-107 | deque(dst) repeated until it yields nothing takes exactly the live packets for dst, in order, and leaves the others in theirs |
| `QueueRuns.EveryRunSound` | antconf_rqueue.cc:25-107 | over every run of enque, deque and deque(dst) under a monotone clock: at most 100 packets wait, in deadline order; each packet ever enqueued is accounted for in exactly one of queued, dequeued, dropped and expired; none is dequeued after its deadline |
| `RoutingTable.RTable.RtLookup` | antconf_rtable.cc:111-121 | the first entry for the destination, or none |
| `RoutingTable.RTable.RtLookupVia` | antconf_rtable.cc:98-108 | the first entry with this next hop and destination, or none |
| `RoutingTable.FindOptimal` | antconf_rtable.cc:123-157 | none exactly when no entry for the destination is UP; otherwise the first entry in list order that is maximal for (seqno, then fewest hops) among the UP ones |
| `RoutingTable.OptimalUnique` | antconf_rtable.cc:123-157 | only one position can be that optimum |
| `RoutingTable.RTable.RtLookupOptimal` | antconf_rtable.cc:123-157 | the loop over best-so-far variables finds that optimum, and null exactly when there is none |
| `RoutingTable.RTable.RtAddVia` | antconf_rtable.cc:171-182 | a fresh DOWN entry is put at the head; nothing else changes, also when one for the destination exists |
| `RoutingTable.RTable.RtAdd` | antconf_rtable.cc:184-195 | the same without a next hop |
| `RoutingTable.RTable.PcLookup` | antconf_rtable.cc:48-58 | true exactly when the list names the neighbour |
| `RoutingTable.RTable.PcInsert` | antconf_rtable.cc:36-45 | the neighbour is put at the head of the entry's precursor list unless it is there already; no other entry changes |
| `RoutingTable.RTable.PcDelete` | antconf_rtable.cc:60-74 | the neighbour's first occurrence leaves the entry's precursor list; no other entry changes |
| `PheromoneTable.PhTable.NbphInsert` | antconf_phtable.cc:29-38 | the neighbour is put at the head of the entry's list unless it is there already |
| `PheromoneTable.PhTable.NbphLookup` | antconf_phtable.cc:41-51 | true exactly when the list names the neighbour |
| `PheromoneTable.PhTable.RtphLookup` | antconf_phtable.cc:70-80 | the first entry with this (claimant, destination), or none |
| `PheromoneTable.PhTable.RtphDelete` | antconf_phtable.cc:82-92 | exactly the first entry with the key goes |
| `PheromoneTable.PhTable.RtphAdd` | antconf_phtable.cc:94-107 | a new entry at the head, of the given quantity or of 0.5 when that is zero |
| `PheromoneTable.PhTable.PheromoneAdd` | antconf_phtable.cc:109-122 | the entry with the key gains the quantity; all others are untouched |
| `PheromoneTable.PhTable.PhtPurge` | antconf.cc:301-318 | deleting by key while walking removes exactly the entries that reach zero or less and takes one step from each of the others, in order |
| `PheromoneTable.DepositKeeps` | antconf.cc:1493-1508 | what a return ant deposits keeps keys unique, each quantity a positive whole number of 0.1 steps, and neighbour lists non-empty and duplicate-free |
| `PheromoneTable.EvaporateEntry` | antconf.cc:301-318 | after one purge an entry is present exactly when it has pheromone left and was there with one step more |
| `PheromoneTable.EvaporateKeeps` | antconf.cc:301-318 | a purge keeps keys unique, quantities positive whole numbers of steps, and lists non-empty |
| `PheromoneTable.LifetimeOfAnEntry` | antconf.cc:301-318 | an unreinforced entry of quantity q is there after n > 0 purges exactly when q exceeds n/10, holding q - n/10 |
| `PheromoneTable.ExpiryByKey` | antconf.cc:301-318 | its key survives n purges if and only if n < 10q: it goes at the ceil(10q)-th |
| `PheromoneTable.DeleteHere` | antconf.cc:301-318 | with unique keys, deleting by key the entry under the cursor deletes that very entry |
| `Roulette.Fill` | antconf.cc:1022-1079 | the nested loops leave taille and IntablePh as specified and the arrays filled with the specified cells as far as they reach; they write beyond the 1000 cells exactly when the cells do not fit |
| `Roulette.FillPair` | antconf.cc:1034-1059 | one paying pair fills floor(10 qte) + 1 cells after those already filled, for the first pair as for the later ones, and exactly these |
| `Roulette.FillNeighbor` | antconf.cc:1025-1066 | one turn of the outer loop: the neighbour's slots follow those of the neighbours before it, and nb_inph says what the last entry naming it says |
| `Roulette.FillSlots` | antconf.cc:1022-1067 | the outer loop: all slots in order, the neighbours without a paying last entry set aside in order, and each of the two arrays overrun exactly when it is too short |
| `Roulette.FillBlanks` | antconf.cc:1069-1078 | the second phase gives each neighbour set aside but the first one slot, overwrites nothing, and goes beyond the arrays exactly when the cells do |
| `Roulette.PairShare` | antconf.cc:1034-1059 | each (neighbour, entry) pair with floor(10 qte) >= 1 owns exactly floor(10 qte) + 1 slots, every other pair none |
| `Roulette.PairRun` | antconf.cc:1034-1059 | the slots of a pair are one contiguous run that starts where the pair before it ends: no gap, no overlap |
| `Roulette.SlotsEmpty` | antconf.cc:1022-1067 | no slot is filled exactly when no pair pays |
| `Roulette.DrawIsWritten` | antconf.cc:1069-1094 | for any tables at all, a drawn cell is independent of uninitialised memory if and only if some pair pays or the draw is not zero |
| `Roulette.NamedPays` | antconf.cc:1029-1034 | pheromone comes in whole steps, so every entry that names a neighbour pays, and as soon as a draw is made some slot is filled |
| `Roulette.WheelIsWritten` | antconf.cc:1079-1082 | then the wheel is not empty and independent of uninitialised memory in every cell |
| `Roulette.WantedIs` | antconf.cc:1022-1078 | the cells the loops fill are the sum over all paying pairs of floor(10 qte) + 1, or cell 0 if there is none, and one for each neighbour set aside but the first: what Fits compares with 1000 |
| `Roulette.RichEntryOverruns` | antconf.cc:1034-1059 | one entry of quantity 100 or more that names a current neighbour already goes beyond the 1000 cells |
| `Overflow.RunsSpill` | antconf.cc:1008-1067 | there is a run of two nodes after which the next ant makes its receiver write beyond its arrays: a demand unanswered for a thousand ageing ticks is carried to a neighbour |
| `Draws.DrawsAreWritten` | antconf.cc:1079-1094 | in every run in which no handler has gone beyond its arrays: wherever a draw is made and the cells fit, some slot is filled, rand()%taille is an index inside the arrays, and the cell has been written |
| `Draws.ApplyIgnores` | antconf.cc:1079-1103 | two events that differ only in the contents of unwritten memory have the same effect on a sound network, unless they overrun the arrays |
| `Draws.RunsIgnoreMemory` | antconf.cc:1079-1103 | so whole runs that stay inside the arrays and differ only there are the same run |
| `Requests.DeleteKeeps` | antconf.cc:1877-1895 | ar_delete on a duplicate-free list withdraws that request and no other |
| `Requests.InsertKeeps` | antconf.cc:1850-1862 | inserting a destination not yet asked for keeps the list duplicate-free and adds just it |
| `Requests.RotateMoves` | antconf.cc:1386-1395 | the default branch moves the last request to the front and changes no destination and no quantity |
| `Requests.ServeRotates` | antconf.cc:1386-1395 | after any number of advertisements and ageing ticks the list is the first one rotated once per advertisement, each quantity grown by one step a tick |
| `Requests.AdvertisedInTurn` | antconf.cc:1386-1395 | the i-th advertisement, without limit, carries the request i places (mod n) from the end |
| `Requests.RoundServesEachOnce` | antconf.cc:1386-1395 | with n requests, n advertisements among any ageing ticks carry each request exactly once and restore the order; each quantity has gained 0.1 per tick |
| `HandlersKeep.DrainOk` | antconf.cc:853-868 | forwarding everything that waits for a destination whose route just came up restores the node invariant |
| `HandlersKeep.LearnOk` | antconf.cc:832-869 | learning a route from an ant keeps the node invariant, also when the request is withdrawn and the update then refused; what is forwarded is well formed |
| `HandlersKeep.HelloOk` | antconf.cc:1734-1765 | a hello keeps the node invariant |
| `HandlersKeep.NbDeleteOk` | antconf.cc:1781-1802 | deleting a neighbour keeps the node invariant: no UP entry is left leading through it |
| `HandlersKeep.NbPurgeOk` | antconf.cc:1806-1824 | purging neighbours from any position keeps the node invariant |
| `HandlersKeep.LinkLayerFailedOk` | antconf.cc:331-370 | a link-layer failure keeps the node invariant |
| `HandlersKeep.RectificatorOk` | antconf.cc:1609-1659 | a rectificator keeps the node invariant, and what is sent on carries only odd or zero numbers |
| `HandlersKeep.ResolutionOk` | antconf.cc:565-628 | rt_resolution keeps the node invariant in all four outcomes |
| `HandlersKeep.DataHandled` | antconf.cc:517-562 | recv of a data packet keeps the node invariant, and what leaves satisfies deliveries + ttl = 30 |
| `HandlersKeep.NothingWaits` | antconf.cc:832-869 | between handlers nothing in the buffer is bound for a destination with an UP entry |
| `HandlersKeep.PurgeEntryQuiet` | antconf.cc:481-513 | one turn of rt_purge: the drop loop, the forward loop and the re-ask do nothing |
| `HandlersKeep.RtPurgeQuiet` | antconf.cc:473-514 | rt_purge sends and drops nothing, makes no request, takes down exactly the overdue UP entries and keeps the invariant; the buffer loses at most what had expired |
| `HandlersKeep.AdvertiseOk` | antconf.cc:1356-1400 | choosing what to ask for keeps the requests duplicate-free, counted by dem_num and stepped in quantity |
| `HandlersKeep.SendReturnOk` | antconf.cc:1325-1425 | launching a return ant keeps the invariant, and the ant starts on the last cell of its trail at distance 1 |
| `HandlersKeep.ReturnHandled` | antconf.cc:1429-1539 | a return ant keeps the node invariant, and every message it causes is well formed |
| `HandlersKeep.AimOk` | antconf.cc:935-980 | taking over a known route leaves the ant with a positive even number |
| `HandlersKeep.ChooseOk` | antconf.cc:896-1227 | chooseNextHop keeps the node invariant in every branch, whatever is drawn; wandering ants that leave satisfy ttl + visited = 11 and hops = visited |
| `HandlersKeep.GoHandled` | antconf.cc:803-892 | an outward ant keeps the node invariant, and every message it causes is well formed |
| `HandlersKeep.RecvOk` | antconf.cc:517-719 | every message of the wire, delivered, keeps the node invariant |
| `HandlersKeep.TimerOk` | antconf.cc:171-255 | every timer keeps the node invariant |
| `Network.ApplyOk` | antconf.cc:517-719 | every event of the network (delivery, loss, link failure, timer, new packet, delay) keeps the invariant of all nodes and all messages in flight |
| `Network.EveryRunOk` | antconf.cc:144-164 | the invariant holds after every run from freshly constructed nodes, with unicast and broadcast data, under any schedule, losses, hearers and random draws (ants delivered below 255 hops; runs go on past an overrun as if the arrays were longer) |
| `Network.WaitingPacketsAreAskedFor` | antconf.cc:585-606 | in every reachable state a waiting packet's destination has a route request and no UP entry; requests are duplicate-free, counted by dem_num; askRt implies a request |
| `Network.ParityEverywhere` | antconf.cc:382-396 | in every reachable state each entry is UP (even positive seqno, hops < 255, real next hop) or DOWN (hops 255, no next hop, seqno odd or 0); ants in flight carry positive even numbers, rectificators only odd or zero ones |
| `Network.UpEntriesUseNeighbors` | antconf.cc:832-850 | in every reachable state each UP entry's next hop is a current neighbour, and UP entries are unique per (next hop, destination) |
| `Network.ReturnsFollowTheirTrail` | antconf.cc:1511-1532 | in every run each return ant in flight has hop_count + NodeVisitedCount = |trail|, heads for NodeVisited[NodeVisitedCount], and comes from the cell after it or from its launcher |
| `Network.QuantitiesEverywhere` | antconf.cc:1493-1508 | in every reachable state pheromone keys are unique, quantities positive whole numbers of 0.1, neighbour lists non-empty and duplicate-free, so that the head dereferenced at antconf.cc:931-932 exists; each request holds 0.5 plus 0.1 times a whole number |
| `Lifecycle.EntriesOnlyEvolve` | antconf.cc:440-469 | over any stretch of any run: entries are never removed, an entry's seqno never falls, any change of its route strictly increases (seqno, -hops), and once DOWN it never comes up |
| `Lifecycle.StepEvolves` | antconf.cc:517-719 | the same for one step of one node |
| `Links.LostByMembers` | antconf.cc:382-396 | the rectificator lists a pair exactly when an entry using the lost neighbour had that destination and the number just below |
| `Links.NbDeleteSevers` | antconf.cc:1781-1802 | after nb_delete(id) id is no neighbour, no UP entry leads through it, no precursor list names it; entries that used it are DOWN under the next number, all others keep their route |
| `Links.NbDeleteReports` | antconf.cc:374-412 | a rectificator goes out exactly when a route was lost; it lists precisely the destinations lost, each once, with their new odd numbers |
| `Links.NbPurgeExact` | antconf.cc:1806-1824 | nb_purge deletes exactly the overdue neighbours although it deletes from the list it walks |
| `Flooding.ResendsInOrder` | antconf.cc:1620-1645 | what is sent on is an in-order sublist of what arrived |
| `Flooding.RectificatorIdempotent` | antconf.cc:1609-1659 | processing the same rectificator again changes nothing and sends nothing |
| `Flooding.FloodStep` | antconf.cc:1609-1659 | one delivery or loss removes a copy; copies are added only when some UP entry was lost, at most one per hearer |
| `Flooding.FloodDecreases` | antconf.cc:1609-1659 | every such step lexicographically decreases (UP entries in the network, copies in flight) |
| `Flooding.FloodEnds` | antconf.cc:1609-1659 | a flood heard by at most b nodes a broadcast is over after at most copies + b * (UP entries) steps |
| `Trips.ReturnStep` | antconf.cc:1510-1538 | at the receiving node the ant is at its source exactly when its count is 0 and then stops; otherwise it goes on, once, to the previous cell of its trail when that is a neighbour; the unsigned index never wraps |
| `Trips.ReturnInstallsDistance` | antconf.cc:1443-1466 | a route newly created for the launcher leads to the previous node and has the length of the way walked back |
| `Trips.TripRetracesTrail` | antconf.cc:1325-1539 | a whole trip visits the cells of the outward trail from last to first, carrying distance i + 1 at stop i, reaches the source exactly at the last cell and never goes beyond |
| `Journeys.EveryJourneyFlown` | antconf.cc:1216-1219 | in every run the consecutive cells of the trail of an outward ant in flight are transmissions of that launch, each with the trail so far; the trail of a return ant was so flown by one launch of its source up to its launcher; and each leg of its way back so far is a transmission of the run |
| `Journeys.WholeTripFlown` | antconf.cc:1510-1538 | when a return ant is on its last leg to its source its whole trail has been transmitted in both directions |
| `WanderingAnts.GoWanders` | antconf.cc:803-892 | from one wandering ant received, at most one wandering ant leaves, its trail longer by this node, whichever branch is taken |
| `WanderingAnts.TenTransmissions` | antconf.cc:721-799 | in every run each launch has at most one wandering copy in flight and at most 10 transmissions, over the clone, search and return branches together |
| `WanderingAnts.WanderersOnTheWire` | antconf.cc:1218-1227 | in every run a wandering ant on the wire has ttl + NodeVisitedCount = 11, hop_count = NodeVisitedCount, the source first on its trail and never again, and the previous node last |
| `DataPackets.RelayedData` | antconf.cc:543-553 | a packet off the wire is passed on at most once, with one ttl less, never waits at a relay, and is not passed on at its own source |
| `DataPackets.ThirtyTransmissions` | antconf.cc:517-679 | in every run, whatever the tables hold and even with routing loops, a unicast packet exists at most once in flight or waiting and is transmitted at most 30 times |
| `IdCache.AcceptancesSpaced` | antconf.cc:259-298 | in every run two acceptances of the same (source, id) by the same node are at least 6 seconds apart, and no node admits its own ant |
| `Choices.ResolutionForwardsIffRouted` | antconf.cc:565-679 | a packet for a neighbour goes straight there; for another destination it is forwarded if and only if some entry for it is UP: one packet leaves, to the next hop of the first of the best, marked as travelling down, and the time of that entry starts again; ttl 0 is dropped and a packet for this node delivered. Else it is buffered and asked for at its source and dropped with a rectificator elsewhere |
| `Choices.ScanMeans` | antconf.cc:943-973 | the route scan ends with a usable route exactly when the node has an UP route to the subject and none of these leads the way the ant is sent; it is the route through the last neighbour in list order that has one |
| `Choices.AimMeans` | antconf.cc:935-980 | an ant bound elsewhere keeps its valid mark exactly under that condition; it then carries number and distance of the route through the last neighbour in list order that has one, whatever better routes there are, and the way it is sent becomes a precursor of that route |
| `Choices.PrecursorAdded` | antconf.cc:976-978 | rt_lookup and pc_insert put the hop in front of the precursors of the first route that way, unless it is there, and change nothing else |
| `Choices.DefaultBranchRotates` | antconf.cc:1386-1395 | the default branch is one turn of the rotation; askRt survives it if and only if there were at least two requests, although with one the request is still listed |
| `Demands.LearnAnswers` | antconf.cc:832-869 | hearing of a destination through a neighbour always withdraws the request for it and leaves an UP route, whether the news is accepted or refused; the route is good for ten seconds when it was accepted or the ant was on its way out |
| `Demands.LearnEmptiesBuffer` | antconf.cc:858-867 | as many packets leave as live ones waited for that destination; the i-th that leaves is the i-th that waited, sent to that neighbour and marked as travelling down; none stays, and the other packets keep their order |
| `Demands.LearnedSurvivesPurge` | antconf.cc:473-514 | a route just learned survives an rt_purge at any time of the next ten seconds |
| `RouteLife.KnownRouteLives` | antconf.cc:473-514 | over any stretch of a run a route known until a time at most ten seconds off is known until then, while its neighbour stays a neighbour and sends no rectificator |
| `RouteLife.LearnedRouteLives` | antconf.cc:832-869 | so a route learned from an outward ant, or from a return ant with news, is there for the next ten seconds of any run, through every purge and every other event, under that condition |
| `Demands.HelloLasts` | antconf.cc:1806-1824 | a neighbour just heard survives nb_purge if and only if less than 4.5 seconds have passed |
| `Demands.DemandAnswered` | antconf.cc:1480-1509 | the demand part by itself: a node a demand comes by remembers it with the way it came and at least its quantity; it sends a direct ant if and only if it has a route to what is asked for, to the claimant, over the node the demand came from, telling of the best route |
| `Demands.DirectAntFollowsBest` | antconf.cc:870-889 | a direct ant goes on if and only if it is not at its claimant and the node has a route there, and then by the first of the best, one hop longer |
| `Demands.SlotOwner` | antconf.cc:1022-1067 | every filled slot of the roulette belongs to a pair with floor(10 qte) >= 1 |
| `Demands.DrawMeans` | antconf.cc:1079-1103 | whatever is drawn, when a draw is made, is either a demand remembered here, with a current neighbour it came by, or one of the neighbours that brought none, but the first |
| `Demands.LaunchPicks` | antconf.cc:756-775 | the periodic ant leaves exactly when there is a neighbour; remainders 0 and 1 both mean the first, and of two or more neighbours the last is never picked; its identifier is then used up |
| `Demands.UnvisitedMeans` | antconf.cc:1106-1115 | the hop chosen is the first neighbour that is neither the previous node, nor the source, nor on the trail; none is chosen exactly when there is no such neighbour |
| `Demands.CloneHopMeans` | antconf.cc:1284-1299 | a clone goes to the first neighbour other than the previous hop; there is none exactly when all neighbours are the previous hop |
| `Outward.AntRefused` | antconf.cc:811-828 | the node's own ant, and one whose identity is in the cache, change nothing and cause nothing |
| `Outward.TargetedAntFollowsPheromone` | antconf.cc:922-933 | an ant bound for another node: with a pheromone entry for (target, destination) exactly one ant leaves, to the first neighbour of that entry's list, with target, destination, source and identifier kept, one ttl less and this node appended to its trail; without one no outward ant leaves, and a return ant goes to the last cell of the trail if that is a neighbour |
| `Outward.TargetedAntSpreadsNews` | antconf.cc:935-980 | about the node itself that ant says its own number, distance 1, valid; about another node it is valid exactly when the node has an UP route there and none of these leads the way it is sent, and then carries number and distance of the one through the last neighbour that has one, one hop more |
| `Outward.ClaimantTurnsBack` | antconf.cc:912-921 | an ant that has reached its target is answered by a return ant over its whole trail, under the next number, that asks for what the ant was about if that is still wanted, and nothing else leaves |
| `Outward.WandererAnswered` | antconf.cc:983-999 | a wandering ant at a node that asks for something, or at the end of its ttl, is answered by a return ant that asks for the oldest demand or for nothing; with a demand and ttl left a clone follows, with number and mark as they were, to the first neighbour but the previous hop, or for want of one another return ant |
| `Outward.DrawnAntGoes` | antconf.cc:1079-1206 | a draw that names a demand: the clone goes on, and the ant goes to the drawn neighbour, bound for the drawn claimant with news of the drawn destination and ttl 10; a blank draw: the ant goes to the drawn neighbour as it is, and that neighbour becomes a precursor of the route the ant came by |
| `Outward.UndrawnAntGoes` | antconf.cc:1104-1119 | without a draw the ant goes as it is to the first neighbour that is neither its previous node nor its source nor on its trail, which becomes a precursor likewise; having met them all it is turned back |
| `Outward.DirectAntGoes` | antconf.cc:870-889 | a direct ant that is let in goes on if and only if it is not at its claimant and the table, once learned from, has a route there, by the first of the best, one hop longer |
| `Learning.GoTeaches` | antconf.cc:832-869 | an outward ant that is let in, valid and from a neighbour: the entry for its subject that way takes its number and distance if and only if they are fresher, or as fresh and shorter, and is good for ten seconds either way; without an entry a new UP one is put in front; no other route changes. Else no route changes at all |
| `Homeward.ReturnTeaches` | antconf.cc:1443-1478 | the same of a return ant, except that news refused leaves the time of the entry as it was |
| `Homeward.ReturnDeposits` | antconf.cc:1493-1508 | a demand that comes by, at a relay as at the source, adds exactly its quantity to the entry for (claimant, destination), or makes one, and puts the node it came from in front of its list unless it is there; every other key keeps its entry, and without a demand the table stays |
| `Homeward.ReturnAnswers` | antconf.cc:1480-1539 | the ants a return ant causes: first a direct ant if and only if it has a demand and the table has an UP route to what is asked for, telling of the first of the best; then the ant itself, to the previous cell of its trail if that is a neighbour |
| `Homeward.ReturnIsRelied` | antconf.cc:1518-1522 | the cell it is handed back to becomes a precursor of the route to its launcher, exactly when it is handed back; else only what was learned changes the table |
| `Withdrawals.RectificatorStrikes` | antconf.cc:1619-1658 | an entry goes DOWN, wiped and with no precursors, exactly when some item names its destination, it is the first entry for it, leads through the sender and is not newer, under the number of the first such item; every other entry stays as it was. Sent on, in order, are exactly the items that so withdrew an entry with a precursor; without one nothing |
| `Withdrawals.SpreadMembers` | antconf.cc:1638-1645 | an item is sent on exactly when it is the first to withdraw some entry and that entry had a precursor |
| `Withdrawals.FailureGivesUp` | antconf.cc:331-370 | a failed transmission drops the packet; if it is unicast and its destination is in the table, the failed next hop alone is no neighbour any more, exactly the routes through it are withdrawn under the next number, it is in no precursor list, and a rectificator that names exactly these goes out exactly when there are any; else the node is unchanged |
| `Delivery.DataRefused` | antconf.cc:537-551 | a packet of the node's own that comes back is dropped as a loop, a foreign one on its last ttl as over |
| `Delivery.UnicastGoes` | antconf.cc:552-679 | any other unicast packet with a way: to a neighbour it goes straight; else to the next hop of the first of the best routes, whose time starts again, or at its destination it is delivered; the copy sent has the same identity, addresses and count, ttl 30 at its source and one less elsewhere, and travels down; nothing else changes |
| `Delivery.UnicastWaitsOrDies` | antconf.cc:586-626 | without a way the source puts it last in the buffer, displacing the oldest of 100, and asks for the destination unless it does already; elsewhere it is dropped and a rectificator names the destination; one unused entry is added |
| `Delivery.BroadcastGoes` | antconf.cc:561-677 | a broadcast packet changes no state: dropped at ttl 0, delivered on its way up, else sent to all |
| `Delivery.GoReleases` | antconf.cc:857-866 | the first outputs of an outward ant that is learned from are the packets that waited for its subject, in order, to the neighbour it came from; none waits any more |
| `Delivery.ReturnReleases` | antconf.cc:1445-1477 | the same of a return ant, and its launcher is no longer asked for |
| `Upkeep.HelloHeard` | antconf.cc:1734-1765 | a hello makes its sender a neighbour until 4.5 seconds from now, new or known, touches no other, and raises the node's number by two exactly for a new one |
| `Upkeep.NeighborTimerPrunes` | antconf.cc:1806-1824 | exactly the neighbours heard in time stay, in order; exactly the UP routes through the others are withdrawn, under the next number, and announced; exactly they leave the precursor lists; the node's number grows by two for each |
| `Upkeep.IdTimerForgets` | antconf.cc:282-298 | exactly the identifiers whose time is not over stay, so that an ant is let in again exactly when every one it left is overdue |
| `Upkeep.PheromoneTimerEvaporates` | antconf.cc:301-318 | afterwards the table holds exactly the entries with pheromone left, one step less of it, and nothing else changes |
| `Upkeep.RequestTimerAges` | antconf.cc:1898-1906 | every demand gains one step, and nothing else changes |
| `Upkeep.RouteTimerWithdraws` | antconf.cc:473-514 | exactly the UP entries whose time is over are wiped, under the next number, keeping their precursors; nothing is sent and no request made |
| `Upkeep.AntTimerLaunches` | antconf.cc:721-775 | one new wandering ant leaves for the neighbour picked, if there is one, with a new number, the next identifier, ttl 10 and this node as its trail; number and identifier are used up in any case |
| `Agent.Antconf.constructor` | antconf.cc:144-164 | a new agent is the initial node of the network model |
| `Agent.Antconf.IdInsert` | antconf.cc:259-266 | the pair is put at the head, to be kept for 6 seconds |
| `Agent.Antconf.IdLookup` | antconf.cc:270-279 | true exactly when the cache holds the pair |
| `Agent.Antconf.IdPurge` | antconf.cc:282-298 | removing while walking leaves exactly the unexpired identifiers in order |
| `Agent.Antconf.PhdPurge` | antconf.cc:1898-1906 | every request gains one step and nothing else changes |
| `Agent.Antconf.ArLookup` | antconf.cc:1865-1874 | true exactly when the destination is asked for |
| `Agent.Antconf.ArInsert` | antconf.cc:1850-1862 | the request is put at the head and counted |
| `Agent.Antconf.ArDelete` | antconf.cc:1877-1895 | the first request for the destination goes, dem_num follows, and askRt is withdrawn when none is left |
| `Agent.Antconf.NbLookup` | antconf.cc:1768-1777 | the neighbour's first position, or none |
| `Agent.Antconf.RecvHello` | antconf.cc:1734-1765 | the field updates refine the specified hello step: a new neighbour is counted and raises the seqno by 2, a known one is prolonged |
| `Agent.Antconf.LinkFailureManagement` | antconf.cc:373-412 | walking the table in place gives the specified severed table and the specified rectificator |
| `Agent.Antconf.RtDown` | antconf.cc:452-469 | an entry not yet DOWN is wiped; one already DOWN stays as it is |
| `Agent.Antconf.NbDelete` | antconf.cc:1781-1802 | the in-place deletion refines the specified step, output included |
| `Agent.Antconf.NbPurge` | antconf.cc:1806-1824 | the walk over the shrinking list refines the specified step |
| `Agent.Antconf.LinklayerFailed` | antconf.cc:331-370 | the failure callback refines the specified step |
| `Agent.Antconf.RecvRectificatorAgent` | antconf.cc:1609-1659 | the loop over the arrived destinations refines the specified step, output included |
| `Agent.Antconf.Forward` | antconf.cc:631-679 | ttl 0 is dropped, a packet for this node delivered, any other unicast packet sent to the next hop of the route, marked as travelling down; rt_expire is prolonged exactly when the packet goes out |
| `Agent.Antconf.DrainTo` | antconf.cc:858-867 | the while-deque-forward loop sends exactly the live packets for the entry's destination, in order, and leaves the others in the linked buffer |
| `Agent.Antconf.RtPurge` | antconf.cc:473-514 | the loop over the table refines the specified step |
| `Agent.Antconf.RtResolution` | antconf.cc:565-628 | the in-place handler refines the specified step in every branch |
| `Agent.Antconf.RecvData` | antconf.cc:517-562 | recv of a data packet refines the specified step |
| `Agent.Antconf.Learn` | antconf.cc:832-869 | looking up or creating the route, accepting or refusing the news, and draining refine the specified step |
| `Agent.Antconf.ChooseDemand` | antconf.cc:1356-1400 | the loops that pick what to ask for refine the specified choice |
| `Agent.Antconf.SendAntLightReturn` | antconf.cc:1325-1425 | launching a return ant refines the specified step |
| `Agent.Antconf.SendAntLightRt` | antconf.cc:1542-1593 | launching a direct ant refines the specified step |
| `Agent.Antconf.RecordDemand` | antconf.cc:1480-1509 | the answer to a demand and the pheromone deposit refine the specified step |
| `Agent.Antconf.PassBack` | antconf.cc:1510-1538 | handing the ant back refines the specified step |
| `Agent.Antconf.RecvAntLightReturn` | antconf.cc:1429-1539 | the whole handler refines the specified step |
| `Agent.Antconf.SendAntLightClone` | antconf.cc:1230-1322 | cloning refines the specified step, also when the only neighbour is the previous hop |
| `Agent.Antconf.Scan` | antconf.cc:943-973 | the two nested loops over neighbours and entries find what the recursive scan finds |
| `Agent.Antconf.VisitedNode` | antconf.cc:1597-1605 | true exactly when the trail names the neighbour |
| `Agent.Antconf.FindUnvisited` | antconf.cc:1106-1115 | the first neighbour that is neither the previous node, nor the source, nor on the trail |
| `Agent.Antconf.Search` | antconf.cc:1000-1206 | filling the roulette, drawing, and satisfying a claimant or wandering on refine the specified step; the arrays are overrun exactly when the cells do not fit |
| `Agent.Antconf.ChooseNextHop` | antconf.cc:896-1227 | all branches refine the specified step; an overrun happens only in the search branch, exactly when the cells do not fit |
| `Agent.Antconf.RecvAntLightGo` | antconf.cc:803-892 | the whole handler refines the specified step, unless the ant comes to search with more cells than fit |
| `Agent.Antconf.SendAntLight` | antconf.cc:721-799 | the periodic launch refines the specified step: the neighbour picked, the counters raised, nothing sent without a neighbour |
| `Agent.Antconf.Recv` | antconf.cc:517-719 | whatever arrives, the agent's fields and outputs are those of the step the network model takes, unless an outward ant overruns the arrays; the agent owns no more than before but fresh objects, so it can be called again |
| `Agent.Antconf.OnTimer` | antconf.cc:171-255 | whatever timer fires, the agent's fields and outputs are those of the step the network model takes; it owns no more than before but fresh objects |
| `Agent.Antconf.Admit` | antconf.cc:829-869 | caching the identifier and learning the route refine the specified step |
| `Agent.Antconf.TakeAll` | antconf.cc:517-719 | any sequence of messages, own packets, timers and link failures takes the agent through the states of the model, with the outputs of the model, up to the first input that overruns the arrays, if there is one |
| `Refinement.NodeIsItsInputs` | antconf.cc:517-719 | each node of any run of the network is what its inputs, in their order, make of a freshly constructed one |
| `Refinement.Replay` | antconf.cc:144-164 | so an agent constructed and given these inputs ends in the state of that node of the run; in a run that stays inside the arrays it never overruns |
| `Refinement.InBoundsIsNeverTooMuch` | antconf.cc:1008-1067 | while a run stays inside the arrays, no input of any of its nodes is too much for the agent |
| `Asserts.LinkFailureAsserts` | antconf.cc:382-396 | the assertions at 385-386 hold: what is taken down is UP and even |
| `Asserts.AtEntryOk` | antconf.cc:481-513 | the invariant holds each time rt_purge comes to an entry |
| `Asserts.RtPurgeAsserts` | antconf.cc:483-500 | the assertions at 485, 494 and 499 hold at each turn of the loop |
| `Asserts.ResolutionAsserts` | antconf.cc:586-616 | the assertion at 615 holds: no entry is ever in repair, so one that is not UP is DOWN |
| `Asserts.ForwardAsserts` | antconf.cc:648-667 | the assertion at 665 holds: nothing forwarded from the buffer by a route is a broadcast |
| `Asserts.LearnAsserts` | antconf.cc:853-868 | the assertions at 857, 864, 1466 and 1473 hold: an accepted update is UP at a finite distance and stays so while packets leave |
| `Asserts.RectificatorAsserts` | antconf.cc:1620-1633 | the assertions at 1625-1626 hold at each turn of the loop |
| `Asserts.EveryRunAsserts` | antconf.cc:738-740 | in every run each node's own number is even (740, 1354, 1557, 1763, 1787), an entry is UP exactly when its distance is finite, and then its number is even |
| `Asserts.HopLimitExact` | antconf.cc:853-857 | learning news at distance at most 255 keeps the node invariant if and only if the distance is below 255 |
| `Additions.RtAddAssertFails` | antconf_rtable.cc:184-195 | the assertion at 189 fails in a run: after one packet without a route, a second for the same destination makes rt_resolution add a second entry |
| `Additions.RtAddAssertExact` | antconf_rtable.cc:171-195 | in every run a call of rt_add for d at a node meets the assertion (no entry for d yet) if and only if it is the first call for d at that node in the run |
| `Additions.KnownIffAdded` | antconf_rtable.cc:171-195 | in every run a node has an entry for d exactly when it has called rt_add for d |
| `Additions.RecvGrown` | antconf.cc:517-719 | one message makes a node call rt_add at most once, exactly under the guards of its call sites, and no other entry is added or removed |
| `Additions.ResolutionAddExact` | antconf.cc:586-589 | under the guard of rt_resolution's call the assertion holds if and only if this node has not called rt_add for the destination before in the run |
| `Additions.LearnAddExact` | antconf.cc:845-850 | the same under the guard of the calls in the ant handlers |
| `Additions.RtAddViaAssertFails` | antconf_rtable.cc:171-182 | the assertion at 175 fails in a run: a node that asked for another before hearing of it adds a second entry when that node's ant arrives |

## Left out

- The routing, pheromone, neighbour, request and identifier lists are sequences in fields of the classes, updated in place by position; pointers into them, and freeing their entries, are not modelled. The packet buffer is a linked list of heap objects.
- Array bounds of the headers: NodeVisited and the 100 destinations of a rectificator are sequences of any length, and the byte counters NodeVisitedCount and DestCount do not wrap; wandering ants are proved to need at most 10 cells.
- No bound is claimed on the trail of an ant that has been given a target: no ttl test applies to it.
- Roulette.Fill: makes no write beyond the 1000 cells but reports it (`overrun`, exactly when the cells do not fit); `chooseNextHop` makes it.
- Agent.Antconf.Search: says nothing of what follows an overrun, because the code's behaviour is then undefined.
- Agent.Antconf.ChooseNextHop: says nothing of what follows an overrun, for the same reason.
- Agent.Antconf.RecvAntLightGo: says nothing of what follows an overrun, for the same reason.
- Agent.Antconf.Recv: says nothing of what follows an overrun, for the same reason. The network model has no such limit.
- Network.EveryRunOk: an ant is delivered only with a hop count below 255, because a route of 255 hops is indistinguishable from none in the table (`Asserts.HopLimitExact`); the lemmas about single handlers that take an ant assume the same.
- Sequence numbers and identifiers do not wrap at 32 bits.
- Rounding of floating-point quantities and times: pheromone that should be gone may survive one purge as a residue.
- The distribution of random draws: a draw is any natural number.
- The exact periods of the timers, jitter and transmission delays: any timer may fire at any time.
- Memory management of packets: leaks and repeated frees.
- Header fields nobody reads: antL_nexthop, antL_detask of outward ants, ph_qte of outward ants, ttl of return ants, addresses and sizes of agent packets.
- `ifqueue`, tracing, logging, Tcl commands and the port demultiplexer: sends, local deliveries and drops are outputs.
- The packets a link failure or a rectificator filters out of the interface queue.
- `rt_repair`, `LocalRepairTimerAnt`, `ar_purge` and `rt_delete`: not reached in the shipped configuration.
- `cmu-trace.*`, `packet.h`, `ptypes.cc` and the Tcl files: integration into the simulator.
- Global freedom from routing loops and freshness of numbers per destination: not facts of this code, since `sendAntLightRt` stamps another node's destination with the sender's own number.
- "askRt whenever requests exist": not a fact of this code; only the forward implication is an invariant.
