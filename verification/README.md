# A Kademlia node, proved

This project models the core of a BitTorrent-style Kademlia node and proves what it promises:
the XOR metric on 160-bit identifiers, the routing table, the iterative lookup, the scheduler and
the hole-punching rendezvous of a node, the manager that hands addresses to a user, and the
bencode/KRPC codec the nodes speak. The proofs are in Dafny 4.11;
`dafny verify dfyconfig.toml` verifies the whole project.

## How it is built

| module | what it is |
|---|---|
| `Metric` | identifiers, XOR distance as a number, order, bucket distance, mid ids |
| `Peers`, `Multimap` | the peer record and its flag words; `std::multimap` as a sorted sequence in which a new entry goes after its equals |
| `Space`, `SpaceTheorems`, `TableHistory`, `NetworkSize` | the routing table (class `Space`), what it keeps over any run, what its entries record, and the size estimate in closed form |
| `Query`, `QueryTheorems`, `QueryProgress`, `QueryHistory` | the lookup (class `Query`, and the functions `Offer`, `OfferPotential`, `Ask` its methods are proved equal to), what its list is over any run, whom it asks and when it ends; and all of that told from the events of the run alone |
| `NodeOrder` | the order in which a map keyed by node ids is walked |
| `Lookups`, `Node`, `NodeTheorems`, `NodeWire` | the node (class `Node`): ticks, remote queries, the sweep, peers, lookups, rendezvous handlers; budget, fairness, answers; and what a tick puts on the wire, message by message |
| `Rendezvous` | the hole-punching protocol between all nodes over a network that loses, repeats and reorders |
| `Searches`, `Manager`, `ManagerRuns` | what becomes of searches and modes, as functions and their theorems, class `Manager`, which is proved to follow them, and what they come to over runs |
| `Bencode`, `BencodeTheorems`, `BencodeCanonical`, `BencodeGrammar` | parser (class `Cursor`) and in-place printer, their round trip, exactly when text and tree survive it, and exactly which texts are read |
| `Msgs`, `WireTexts`, `Receive` | the fourteen message builders, their texts byte for byte, the checksum trailer, and what the receiver drops and recovers |

Code that changes state is a class or a method with the source's loops; each such method is proved
equal to a function of its inputs and the old state, and the theorems are about those functions.
What the functions record and send is then stated once more in terms of what went before, without
them: a lookup's entries by the events of its run (`QueryHistory`), the table's by its reports and
sweeps (`TableHistory`), a tick's messages by the lists they come from (`NodeWire`), a match by the
broadcasts handled (`Rendezvous.Matched`), a packet by its text (`WireTexts`, `BencodeGrammar`).
The clock, the random bytes, the peers kept on disk and the network are parameters. Bytes are
integers 0..255, and 32-bit and 64-bit reductions are written out where the source's integers wrap.

The layers meet. A node's `Valid()` says that every lookup it holds is a run of the lookup machine
from a start list that fits (`Lookups.Reachable`), that its table is what a run of the table makes
of the empty one (`SpaceTheorems.Reached`; a sweep counts as single steps of it), and that every
entry of every lookup was offered to a lookup for that target. What the outside can call on a
`Node` or a `Manager` (ticks, messages that come in, searches, start and stop) requires and keeps `Valid()`; the inner steps of a tick state what they change, and the tick
derives `Valid()` from that. The record of offers is exact: every contract says what it adds. So
the theorems about lookups and tables hold of every state a node can reach (those that ask for a
clock that does not run backwards, when the node is given one), and the address a user gets is
accounted for.

## Where the code and its documentation part

- The header of bitdht/bdquery.cc (46-54) says a lookup keeps the M closest peers.
  `QueryTheorems.TargetItselfDropped` is a run in which the target itself goes although nine places
  are free. The claim holds at every moment of a run if and only if no offer of the run drops a
  silent peer (`QueryTheorems.RunNearestIff`; for one offer `QueryTheorems.OfferKeepsNearestIff`).
- The age test at bitdht/bdpeer.cc:557 subtracts the newer time from the older one. Under a clock
  that does not run backwards it never holds: a peer too old keeps its place
  (`SpaceTheorems.OldPeerStays`), and flags alone decide who enters a full bucket and who leaves it
  (`SpaceTheorems.FullTakesIff`, `SpaceTheorems.LeavesIff`).
- The loops that write the checksum trailer (bitdht/bdmsgs.cc:65-72) move position and index
  together and test their sum, so the trailer is whole, and every packet of that size accepted, if
  and only if there is room for it and three bytes more (`Msgs.SealedAcceptedIff`);
  `Msgs.TightRoomRefused` is a packet refused although its trailer would fit.
- The decoder takes more texts than the encoder writes, so what is read need not print as what it
  was read from (`BencodeCanonical.NotPrintedBack`): it does if and only if the text is canonical
  (`BencodeCanonical.PrintsBackIffCanonical`), with plain numbers, every body there and no NUL in a
  key. The other way, a 64-bit tree comes back from its print if and only if every string has a
  body and no key a NUL (`BencodeCanonical.ReadBackIffPrintable`).
- Where the token belongs the receiver reads the transaction id once more
  (bitdht/bdnode.cc:1441-1444): the token of a reply or an announcement arrives only if it was
  empty (`Receive.TokenLost`, `Receive.TokenRecoveredIff`).
- Of the two messages for a matched pair, the one that returns to the sender is addressed to the
  broadcast's peer id whichever side the sender is (bitdht/bdnode.cc:2140 and 2156), so the sender
  hears of the other side only when it named itself second (`Rendezvous.SenderNotTold`,
  `Rendezvous.SenderToldIff`).
- The classifier (bitdht/bdmsgs.cc:740-795) takes for granted that a packet has a type, that the
  type has a body, and that a query has a name; the decoder does not promise any of these. The
  packets `de`, `d1:y9e` and `d1:y1:qe` are read whole and lack them (`Receive.NoType`,
  `Receive.NoTypeBody`, `Receive.NoQueryName`).
- The period after which an idling lookup asks a peer again is kept in a signed 32-bit number
  (bitdht/bdquery.cc:146-149). Two requests to one entry are more than 300 seconds apart in every
  lookup younger than 2^32 seconds (`QueryHistory.RequestsApart`); one second later the period has
  wrapped and a peer just asked is asked again (`QueryHistory.AskedTooSoon`).
- The comments above the builders (bitdht/bdmsgs.cc:179, 223, 268 and others) show the keys of each
  message in order of name; some builders add them in another order, a find_node request for one
  with its name last (`WireTexts.MessageText`).

## Model

| member | source | states |
|---|---|---|
| Metric.Less | bitdht/bdpeer.cc:82-111 | the byte-wise order of identifiers is the order of the big-endian numbers |
| Metric.Equal | bitdht/bdpeer.cc:149-167 | two identifiers are equal iff every byte is |
| Metric.Distance | bitdht/bdstddht.cc:109-119 | the loop writes the XOR of the two identifiers in place |
| Metric.DistIdentity | bitdht/bdstddht.cc:109-119 | distance is zero iff the ids are equal, it is symmetric, and no two ids are at the same distance from a third |
| Metric.DistTriangle | bitdht/bdstddht.cc:109-119 | XOR distances obey the triangle inequality |
| Metric.DistanceBits | bitdht/bdstddht.cc:109-210 | the distance is the number whose bits say where the two ids differ, and the bucket the place of its highest bit, 0 for distance zero |
| Metric.BucketDistance | bitdht/bdstddht.cc:191-210 | the bit scan is the floor of log2 of the distance, and 0 for distance zero |
| Metric.BucketUltrametric | bitdht/bdstddht.cc:183-210 | the bucket distance of a and c is at most the larger of those of a and b, and b and c |
| Metric.BucketInRange | bitdht/bdstddht.cc:183-210 | every bucket index computed is below 160 |
| Metric.RandomMidId | bitdht/bdstddht.cc:121-143 | the array loop copies the target up to and including the first differing byte and keeps random bytes after it |
| Metric.MidIdNearer | bitdht/bdstddht.cc:121-143 | for all random bytes the mid id is strictly nearer the target than the other id and shares a longer prefix with it |
| Metric.MidChainReaches | bitdht/bdstddht.cc:121-143 | a chain of mid ids is at the target after at most twenty steps |
| Peers.FlagTests | bitdht/bdiface.h:133-152 | the flag tests look at bit 1 (nodes received, or idle), bit 9 (application) and bit 0 (disguise) |
| NodeOrder.Ordered | bitdht/bdpeer.cc:82-111 | the keys of a map in the order of the byte-wise comparison, each once |
| NodeOrder.OrderUnique | bitdht/bdpeer.cc:82-111 | there is only one such order |
| Multimap.Bounds | bitdht/bdquery.cc:297-299 | lower and upper bound split a sorted multimap at a key |
| Multimap.InsertAllKeeps | bitdht/bdpeer.cc:341-435 | inserting entries one by one yields a sorted list with exactly those entries added |
| Space.LowestPresent | bitdht/bdpeer.cc:511-602 | the score kept by the scan is the least of the newcomer's flags and those in the bucket, and is found again in the bucket when it is less than the newcomer's |
| Space.Space.constructor | bitdht/bdpeer.cc:320-327 | a new table is empty |
| Space.Space.Clear | bitdht/bdpeer.cc:329-338 | every bucket is emptied |
| Space.Space.AddPeer | bitdht/bdpeer.cc:485-610 | the table afterwards: a known peer moves to the back with flags merged, a newcomer takes a free place or that of the first peer of lowest, strictly lower flags; the answer says whether the peer is in |
| Space.Space.OutOfDatePeer | bitdht/bdpeer.cc:438-466 | the first peer, bucket by bucket, unsent-to for 600 s is returned and marked as sent to; nothing else changes |
| Space.Space.FindNearestNodes | bitdht/bdpeer.cc:341-435 | the first `number` peers by distance are added to what the caller holds |
| Space.Space.CalcSpaceSize | bitdht/bdpeer.cc:939-950 | the number of peers in the table |
| Space.Space.CalcNetworkSize | bitdht/bdpeer.cc:772-847 | the walk computes the closed form: the floor average of the scaled bucket sizes from after the last empty bucket (or 102) to the first full one from 102 on, reduced to 32 bits; 0 for an empty range |
| Space.Space.CalcNetworkSizeWithFlag | bitdht/bdpeer.cc:849-937 | the same closed form over the peers that carry a flag |
| Space.CountFlaggedExact | bitdht/bdpeer.cc:849-937 | the count of a bucket is the number of places whose peer has a flag in common with those asked for |
| NetworkSize.NoOverflow | bitdht/bdpeer.cc:772-847 | no product and no sum of the walk reaches 2^64 |
| NetworkSize.VisitTracks | bitdht/bdpeer.cc:800-838 | one step of the walk, with its two switches, keeps sum and count equal to the closed form so far |
| NetworkSize.EstimateMeans | bitdht/bdpeer.cc:772-847 | the closed form with its limits in numbers: buckets from 102, or from after the last empty one, to the first of ten |
| SpaceTheorems.RunInv | bitdht/bdpeer.cc:485-610 | every reachable table files each peer in the bucket of its own distance, at most ten to a bucket, none twice in a bucket |
| SpaceTheorems.OncePerTable | bitdht/bdpeer.cc:485-610 | no peer occurs twice in the whole table |
| SpaceTheorems.InsertedAtMeans | bitdht/bdpeer.cc:511-602 | the event that made a present entry reported the peer and found it absent |
| SpaceTheorems.HeldSince | bitdht/bdpeer.cc:485-610 | since that event the peer has been in the table without a break |
| SpaceTheorems.FlagsAccumulate | bitdht/bdpeer.cc:511-530 | an entry's flags are the OR of all flags reported since that event |
| SpaceTheorems.RunInOrder | bitdht/bdpeer.cc:485-610 | under a nondecreasing clock each bucket stays in the order in which its peers were last heard |
| SpaceTheorems.EvictionRule | bitdht/bdpeer.cc:538-602 | a peer leaves only a full bucket, only for a newcomer with strictly higher flags, and is the least recently heard of those with the lowest flags |
| SpaceTheorems.FullTakesIff | bitdht/bdpeer.cc:553-590 | under a nondecreasing clock a full bucket takes a newcomer iff some peer in it has lower flags, however old its peers |
| SpaceTheorems.OldPeerStays | bitdht/bdpeer.cc:553-590 | in a full bucket whose first peer is older than the age limit a newcomer with no better flags is turned away and nothing changes |
| SpaceTheorems.OustedIff | bitdht/bdpeer.cc:538-602 | under a nondecreasing clock a report takes a peer out of its bucket iff the bucket is full and the peer is the first of the lowest flags, which are lower than the newcomer's |
| SpaceTheorems.LeavesIff | bitdht/bdpeer.cc:329-610 | in any run a peer leaves the table at an event iff the table is cleared or a newcomer for its own bucket ousts it; no sweep and no other report takes it out |
| SpaceTheorems.OustedIsOldest | bitdht/bdpeer.cc:538-602 | whom a newcomer ousts is the least recently heard of those with the lowest flags |
| SpaceTheorems.FullStaysFull | bitdht/bdpeer.cc:538-602 | a full bucket stays full and its lowest flags never fall in one step |
| SpaceTheorems.FullForGood | bitdht/bdpeer.cc:485-610 | the same over any run that does not clear the table |
| SpaceTheorems.NearestNodesCorrect | bitdht/bdpeer.cc:341-435 | the answer is a nearest part of the table: as many as asked for or all, in order, nothing left out nearer |
| SpaceTheorems.NearestNodesKeyed | bitdht/bdpeer.cc:341-435 | each answer stands under its true distance and is in the table |
| SpaceTheorems.NearestNodesDistinct | bitdht/bdpeer.cc:341-435 | no peer is answered twice |
| SpaceTheorems.SweepTakesFirst | bitdht/bdnode.cc:385-402 | one call of the sweep takes exactly the first stale peer off the list of stale ones |
| SpaceTheorems.StaleIdsExact | bitdht/bdnode.cc:385-402 | that list holds each stale peer of the table once and no other peer |
| SpaceTheorems.SweepIsRun | bitdht/bdnode.cc:385-402 | a whole sweep is as many single calls as there are stale peers, so what holds over runs of the table holds across it |
| TableHistory.EntryRecords | bitdht/bdpeer.cc:438-602 | in any run each entry records the time of the peer's last report, and as sent to the time it came in or, later, the last sweep that returned it |
| TableHistory.SweepReturnsIs | bitdht/bdpeer.cc:438-466 | a sweep returns a peer iff its entry is the first, bucket by bucket, sent to more than 600 s before |
| Query.Query.constructor | bitdht/bdquery.cc:56-93 | the state of a new lookup: start peers under their distances, nothing asked, querying |
| Query.Query.Result | bitdht/bdquery.cc:95-107 | the peers at distance zero, and whether there are any |
| Query.Query.NextQuery | bitdht/bdquery.cc:132-282 | the selection loop and the state machine: new state and request are those of `Ask` |
| Query.Query.AddPeer | bitdht/bdquery.cc:284-416 | counting, dropping, trimming and inserting amount to `Offer`: too far is refused, a known peer is touched, else the nearer silent peers go, the tail is cut and the peer goes in |
| Query.Query.AddPotentialPeer | bitdht/bdquery.cc:424-568 | the same for the list of peers known by name, and whether the peer is worth a ping |
| Query.CountNear | bitdht/bdquery.cc:301-327 | the count of the nearer peers that are not silent, and of those that are |
| Query.DropSilent | bitdht/bdquery.cc:352-379 | erasing the first silent peer as often as silent nearer ones were counted erases exactly those |
| QueryTheorems.InitialNearest | bitdht/bdquery.cc:56-93 | from at most ten distinct peers the first list has the shape and holds them all |
| QueryTheorems.OfferStep | bitdht/bdquery.cc:284-416 | one offer keeps the list sorted, keyed by distance, free of repeats and at most ten long; a nearer peer leaves only if it is silent |
| QueryTheorems.KeptMembers | bitdht/bdquery.cc:301-379 | what is left before the newcomer goes in is the old list minus exactly the strictly nearer silent peers |
| QueryTheorems.AdmitNearest | bitdht/bdquery.cc:380-415 | cutting the tail and inserting turns the ten nearest of a set into the ten nearest of that set and the newcomer |
| QueryTheorems.NearestDistancesUnique | bitdht/bdquery.cc:46-54 | two lists that are both nearest of the same peers hold the same distances: the claim determines them |
| QueryTheorems.OfferKeepsNearestIff | bitdht/bdquery.cc:284-416 | the list stays the nearest of all offered if and only if this offer does not drop a silent peer |
| QueryTheorems.DropLosesNearest | bitdht/bdquery.cc:301-379 | every offer that drops one loses the property |
| QueryTheorems.TargetItselfDropped | bitdht/bdquery.cc:301-379 | a run of a lookup that starts from the target itself, asks it and waits 21 s: any newcomer replaces it, with nine places free, and the list is not the nearest of those offered |
| QueryTheorems.RunShape | bitdht/bdquery.cc:132-568 | over any run both lists keep their shape, and target, flags and start time never change |
| QueryTheorems.RunNearest | bitdht/bdquery.cc:46-54 | over any run without such drops, with ties, re-offers and requests in between, the list is the M nearest of all peers ever offered, the start list included |
| QueryTheorems.RunNearestIff | bitdht/bdquery.cc:284-416 | the list is that at every moment of a run iff no offer of the run drops a silent peer |
| QueryTheorems.PotentialStep | bitdht/bdquery.cc:424-568 | the second list is the ten nearest of the named peers that pass; a peer is worth a ping iff it passes and is new there |
| QueryTheorems.RunPotentialNearest | bitdht/bdquery.cc:424-568 | over any run the second list is the ten nearest of all peers that passed when they were named |
| QueryProgress.AsksNearestNeverAsked | bitdht/bdquery.cc:132-243 | a non-idle lookup asks the nearest peer never asked, marks it, and changes nothing else |
| QueryProgress.NamesNearerId | bitdht/bdquery.cc:205-225 | a disguised request names an id strictly nearer the target than the peer asked, others the target |
| QueryProgress.AskedAtMostOnce | bitdht/bdquery.cc:132-243 | over any run, for each peer, its requests are no more than its entries, one of which at most was there unasked at the start and the others were inserted since; an entry still unasked covers none |
| QueryProgress.AskedAtMostTotal | bitdht/bdquery.cc:132-243 | so there are in all no more requests than entries |
| QueryProgress.FinishesIff | bitdht/bdquery.cc:245-281 | a non-idle lookup leaves the querying state iff all were asked and either its age exceeds 1800 s or it is at least 10 s with ten peers that have all replied |
| QueryProgress.ResultsIffHead | bitdht/bdquery.cc:95-107 | there are results iff the nearest entry is the target, and every result is |
| QueryProgress.SucceedsIff | bitdht/bdquery.cc:258-281 | the verdict is success iff there are results at that moment |
| QueryProgress.VerdictTrue | bitdht/bdquery.cc:245-281 | the verdict of a lookup that dropped no silent peer is success iff a peer with the target's id was ever offered to it, the start list included |
| QueryProgress.VerdictFinal | bitdht/bdquery.cc:132-160 | no later event changes a verdict or brings another request |
| QueryHistory.EntryRecords | bitdht/bdquery.cc:284-416 | in any run each entry of the list records the time of the peer's last reply with nodes, and that of the last request sent to it, since it came in; zero if none |
| QueryHistory.EnteredMeans | bitdht/bdquery.cc:284-416 | an entry came in when the peer spoke and was not in the list, or was there at the start |
| QueryHistory.HeldSince | bitdht/bdquery.cc:284-416 | and has been there ever since |
| QueryHistory.OfferOutcome | bitdht/bdquery.cc:284-416 | in any run an offer of a peer that is held keeps all peers; one beyond ten nearer peers none of which is silent changes nothing; any other drops exactly the nearer silent ones and leaves the ten nearest of the rest and the newcomer |
| QueryHistory.SilentIff | bitdht/bdquery.cc:301-327 | under a nondecreasing clock a peer is silent iff the last request to it is more than 20 s old and no reply came at or after it |
| QueryHistory.AsksOverdue | bitdht/bdquery.cc:132-243 | a lookup that is not over, or idles, asks iff some entry was never asked, or it idles and the entry was asked longer ago than its period; then the nearest such, and marks only that |
| QueryHistory.PeriodIsLarger | bitdht/bdquery.cc:146-149 | the period is the larger of what is stored and half the age, as long as that fits |
| QueryHistory.YoungPeriod | bitdht/bdquery.cc:146-149 | and 300 s while the lookup is younger than ten minutes |
| QueryHistory.RequestsApart | bitdht/bdquery.cc:132-243 | over any run two requests to one entry are more than 300 s apart, and further than half the age of the lookup |
| QueryHistory.AskedTooSoon | bitdht/bdquery.cc:146-172 | a run past 2^32 s in which a peer is asked twice within a second |
| QueryHistory.ConcludesAs | bitdht/bdquery.cc:245-281 | a turn without a request ends the lookup iff it is older than 1800 s, or 10 s old with ten peers that all replied; the four verdicts by the heads of the two lists, and the time it took |
| QueryHistory.AskingLeaves | bitdht/bdquery.cc:132-243 | a turn with a request changes no status, and a lookup that is over and does not idle is not touched |
| QueryHistory.AskIs | bitdht/bdquery.cc:132-243 | there is a request iff someone is due one; it goes to the first such peer and names the target, or if disguised the target up to the first byte in which the peer differs and the filler after it |
| QueryHistory.NamedIsNearer | bitdht/bdquery.cc:205-225 | such an id is the target or strictly nearer to it than the peer |
| Lookups.ReachableShape | bitdht/bdnode.cc:635-653 | every lookup a node can hold has two well-formed lists |
| Lookups.ReachableStep | bitdht/bdnode.cc:550-600 | whatever the node tells a lookup is a step of the lookup machine |
| Lookups.TurnKeeps | bitdht/bdnode.cc:340-375 | a turn keeps a lookup reachable and its entries accounted for |
| Lookups.ToldKeeps | bitdht/bdnode.cc:580-593 | so does a peer told to all lookups, once recorded as offered |
| Lookups.OffersExact | bitdht/bdnode.cc:580-653 | the record of offers holds just the peer told, for the target of each lookup, and just the start list of a new one |
| Lookups.WorthyIff | bitdht/bdquery.cc:424-568 | a named peer is worth a ping iff it is in neither list and the first has room or a peer no nearer |
| Node.Node.constructor | bitdht/bdnode.cc:44-90 | a new node holds nothing |
| Node.Node.PingPotential | bitdht/bdnode.cc:296-338 | the first 45 potential peers at most are pinged in order and leave the queue |
| Node.Node.RunQueries | bitdht/bdnode.cc:340-375 | lookups have their turns in order until the tick's messages are spent; those that had one go to the back; the requests sent are theirs in order |
| Node.Node.ProcessRemoteQuery | bitdht/bdnode.cc:707-783 | the loop ends, leaving the queue after the first answerable query, and sends its answer |
| Node.Node.SweepStale | bitdht/bdnode.cc:385-402 | the loop ends, having pinged each stale peer once in table order and marked just those as sent to; no stale peer is left |
| Node.Node.Iteration | bitdht/bdnode.cc:279-418 | the whole state after a tick and all its messages, in order: pings, requests, one answer, sweep, on every tenth tick the announcements and on every second one the punching |
| Node.Node.Punching | bitdht/bdnode.cc:197-209 | each address to be punched is pinged that many times in a row, in order |
| Node.Node.AddPeer | bitdht/bdnode.cc:580-600 | every lookup and the table are told of a peer that spoke |
| Node.Node.CheckPotentialPeer | bitdht/bdnode.cc:550-574 | every lookup is told of a named peer, which is queued for a ping iff some lookup finds it worth one |
| Node.Node.AddQuery | bitdht/bdnode.cc:635-653 | a lookup starts from the ten nearest peers of the table |
| Node.Node.ClearQuery | bitdht/bdnode.cc:656-672 | exactly the lookups for the id go, the rest keep their order |
| Node.Node.ReportStatus | bitdht/bdnode.cc:674-685 | status, flags and results for each target, the last lookup for it speaking for all |
| Node.Node.QueueQuery | bitdht/bdnode.cc:2244-2253 | a remote query joins the end of the queue with its time |
| Node.Node.AddConnReq | bitdht/bdnode.cc:424-427 | the own id's wish to meet a peer replaces the one before |
| Node.Node.BroadcastPeers | bitdht/bdnode.cc:429-462 | each peer is asked for the own address and told every recorded pair, in the order of the map |
| Node.Node.MsginBroadcastConn | bitdht/bdnode.cc:2124-2159 | what the handler records and sends is `HearBroadcast` of the protocol model |
| Node.Node.MsginAskConn | bitdht/bdnode.cc:2161-2191 | what the handler records is `HearAsk` of the protocol model |
| Node.Node.Restart | bitdht/bdnode.cc:98-115 | every stored peer is queued for a ping |
| Node.Node.Shutdown | bitdht/bdnode.cc:117-140 | lookups, queues, table and outgoing messages are dropped |
| Node.RequestsWithinBudget | bitdht/bdnode.cc:340-375 | requests never exceed the budget, and a lookup is passed over only when the budget is spent exactly |
| Node.StartListFits | bitdht/bdnode.cc:635-653 | a start list has at most ten peers, none twice |
| NodeTheorems.TickBudget | bitdht/bdnode.cc:279-375 | pings and requests are at most fifty; at least five lookups, or all, have their turn; one is passed over only when all fifty are sent |
| NodeTheorems.EveryLookupServed | bitdht/bdnode.cc:266-375 | whatever is heard before each tick, the lookup at position p has its turn within p/5 + 1 ticks, in the state that all heard until then has brought it to, so n lookups are served within n/5 ticks rounded up |
| NodeTheorems.TickAdvances | bitdht/bdnode.cc:279-375 | the lookups a node holds after a tick are those of this schedule |
| NodeTheorems.NodeTells | bitdht/bdnode.cc:550-600 | what a node does to its lookups when a peer speaks or is named is what this schedule means by telling them |
| NodeTheorems.AnsweredIff | bitdht/bdnode.cc:707-783 | of the queue only the oldest query younger than 10 s and of known type is answered, iff it asks for neighbours, with the eight nearest peers or all; everything up to it leaves |
| NodeTheorems.NoneAnswered | bitdht/bdnode.cc:707-783 | with no such query the queue is dropped unanswered |
| NodeTheorems.NearestOfTable | bitdht/bdpeer.cc:341-435 | the ids answered are as many as asked for or all, from the table, in order, none left out nearer |
| NodeTheorems.StartNearest | bitdht/bdnode.cc:635-653 | the list of a new lookup is the ten nearest of the whole table |
| NodeTheorems.LookupHoldsNearest | bitdht/bdnode.cc:580-653 | a lookup that drops no silent peer holds, at every later moment, the ten nearest of the table it started from and all peers that spoke since |
| NodeTheorems.AnnouncedIff | bitdht/bdnode.cc:429-462 | a pair is announced to an address iff the pair is recorded and a known peer has that address |
| NodeWire.RequestsRight | bitdht/bdnode.cc:340-375 | the find_node messages of a tick are, in order, one for each lookup that has its turn and has someone to ask, to the address of the first peer due a request, for the target or the id in its direction |
| NodeWire.FiftyAtMost | bitdht/bdnode.cc:279-375 | pings of waiting peers and requests are at most fifty, and exactly fifty if a lookup is passed over |
| NodeWire.PassedOverAtOnce | bitdht/bdnode.cc:340-375 | the last lookup that had its turn then sent the fiftieth |
| NodeWire.TurnTaken | bitdht/bdnode.cc:340-375 | the lookups that had their turn come last, in order, each after that turn |
| NodeWire.TurnNotTaken | bitdht/bdnode.cc:340-375 | the others come first, untouched |
| NodeWire.PingsRight | bitdht/bdnode.cc:296-412 | every address is pinged as often as it is among the first 45 waiting peers and among the stale ones, and a hundred times more for each entry to be punched in every second tick |
| NodeWire.AnnouncedRight | bitdht/bdnode.cc:404-462 | a pair is announced to an address iff it is the tenth tick, the pair is recorded and a known peer has the address |
| NodeWire.AskedMyIpRight | bitdht/bdnode.cc:404-462 | and an address is asked for the own one iff it is the tenth tick and a known peer has it |
| NodeWire.RepliesRight | bitdht/bdnode.cc:377-383 | the replies a tick sends are those to the remote queries |
| Rendezvous.PunchingSafe | bitdht/bdnode.cc:2124-2191 | in every run, with loss, repetition and reordering, a node punches toward y at an address only if y broadcast from there and one of the two broadcast the pair; no peer is held twice |
| Rendezvous.Handled | bitdht/bdnode.cc:2124-2159 | whoever handles a broadcast keeps the pair it names and the address it came from |
| Rendezvous.AddrKnown | bitdht/bdnode.cc:2124-2159 | and has an address of that sender from then on, in every run |
| Rendezvous.Matched | bitdht/bdnode.cc:2124-2191 | in every run in which one node handles a broadcast of a and later one of b that names a, a message has been sent to a place a owns that tells a of b where b spoke from; whenever it arrives a punches toward b; and a second message was sent to b |
| Rendezvous.ReturnedPunches | bitdht/bdnode.cc:2132-2191 | that second message makes b punch iff b named itself second |
| Rendezvous.PunchingStays | bitdht/bdnode.cc:2161-2191 | a node goes on punching toward every peer it ever did |
| Rendezvous.BroadcastTells | bitdht/bdnode.cc:2124-2159 | once a node has a's address, every broadcast naming a that it handles makes it tell a of the sender, at a place a owns |
| Rendezvous.ToldPunches | bitdht/bdnode.cc:2161-2191 | whenever that message is delivered, however much later, a punches toward the sender |
| Rendezvous.SenderToldIff | bitdht/bdnode.cc:2132-2157 | the sender is told of a iff it named itself second |
| Rendezvous.SenderNotTold | bitdht/bdnode.cc:2132-2142 | a matched pair whose sender, named first, is sent a message it ignores |
| Manager.Manager.constructor | bitdht/bdmanager.cc:60-80 | a new manager is off, with no searches |
| Manager.Manager.AddFindNode | bitdht/bdmanager.cc:134-168 | a new search waits with address 0:0 and a wish to meet is recorded; one already there is left alone |
| Manager.Manager.StartQueries | bitdht/bdmanager.cc:171-195 | each waiting search gets one disguised lookup, in the order of the map, and is querying; the rest is unchanged |
| Manager.Manager.RemoveFindNode | bitdht/bdmanager.cc:198-218 | the search and its lookups go, if it is there |
| Manager.Manager.RemoveAllFindNode | bitdht/bdmanager.cc:220-244 | all searches go, and all their lookups except one for the own id |
| Manager.Manager.StopDht | bitdht/bdmanager.cc:82-102 | the node forgets everything, searches wait again, the mode is off |
| Manager.Manager.StartDht | bitdht/bdmanager.cc:104-115 | stored peers are queued for pings, the mode is startup |
| Manager.Manager.CheckStatus | bitdht/bdmanager.cc:416-604 | every search takes the status of the last lookup for it, and on success the address of the first entry of its list if that is the target, else 0:0; all lookups go whose target's last lookup is over and not idle, and no others |
| Manager.Manager.UpdateStatus | bitdht/bdmanager.cc:396-414 | the same, and the two network sizes are the estimates over all peers and over those with the application flag |
| Manager.Manager.AddPeer | bitdht/bdmanager.cc:786-797 | every lookup and the table are told, the peer is recorded as offered to every lookup, and the addresses handed out stay accounted for |
| Manager.Manager.CheckPotentialPeer | bitdht/bdnode.cc:550-574 | the node's work on a named peer, with the addresses handed out still accounted for |
| Manager.Manager.QueueQuery | bitdht/bdnode.cc:2244-2253 | the same of a remote query |
| Manager.Manager.MsginBroadcastConn | bitdht/bdnode.cc:2124-2159 | the same of a broadcast |
| Manager.Manager.MsginAskConn | bitdht/bdnode.cc:2161-2191 | the same of a request to punch |
| Manager.Manager.SwitchMode | bitdht/bdmanager.cc:246-381 | the whole state after the change of mode: mode and time, searches, lookups, sizes, queues, table, messages, offers |
| Manager.Manager.Iteration | bitdht/bdmanager.cc:246-393 | the whole state after a tick: that change followed by the node's tick unless the mode is off |
| Manager.Manager.GetDhtPeerAddress | bitdht/bdmanager.cc:708-738 | an address is returned iff the search has succeeded, and it is 0:0 or that of a peer whose node id is the id and that was offered to a lookup for it |
| Searches.ReportedResults | bitdht/bdmanager.cc:416-604 | every result reported for a target has the target's id and was offered to a lookup for it |
| Searches.StatusSource | bitdht/bdnode.cc:674-685 | what is reported for a target comes from the last lookup for it |
| Searches.ConcludedAddress | bitdht/bdmanager.cc:540-580 | a lookup that does not idle and has just concluded in success is headed by the target, which was offered to it, so that is the address its search learns |
| Searches.FoundAddress | bitdht/bdmanager.cc:540-580 | once the report is read, that search has succeeded with the address of a peer of the id that was offered to a lookup for it |
| Searches.UpdatedLearns | bitdht/bdmanager.cc:416-604 | what the report makes of the searches, in terms of the lookups' lists |
| Searches.RemainingStay | bitdht/bdmanager.cc:511-523 | exactly the lookups stay whose target's last lookup is not over |
| Searches.RemainingMore | bitdht/bdmanager.cc:511-523 | dropping lookups target by target leaves those whose target is not among them |
| Searches.SwitchedMode | bitdht/bdmanager.cc:246-381 | the state after the change of mode has mode and time of the mode machine |
| ManagerRuns.RunMode | bitdht/bdmanager.cc:246-393 | over any run of ticks, with messages, new searches and searches given up in between, mode and time are those of the mode machine, of which the rows of `Searches` below speak |
| ManagerRuns.TickIs | bitdht/bdmanager.cc:246-393 | a tick in the mode off changes nothing; in any other mode the node has its tick after the change of mode |
| Searches.OffStays | bitdht/bdmanager.cc:246-258 | no tick leaves the mode that is off |
| Searches.RefreshComes | bitdht/bdmanager.cc:321-360 | from the active mode a refresh comes with the first tick more than ten seconds later, whatever the table |
| Searches.FindingEnds | bitdht/bdmanager.cc:281-318 | the search for oneself ends in a refresh or a failure with the first tick more than a minute later |
| Searches.StartupEnds | bitdht/bdmanager.cc:260-378 | under a nondecreasing clock startup leads to a refresh or a failure by the time both limits have passed, and a failure to startup at once |
| Searches.WaitOutcome | bitdht/bdmanager.cc:260-332 | startup and the active mode last until the first tick more than ten seconds later, which leads to the search for oneself and to a refresh |
| Searches.FindingOutcome | bitdht/bdmanager.cc:281-318 | the search for oneself ends with the first tick that finds more than 100 peers or comes more than a minute later; it fails iff a minute has passed and at most 20 peers are known |
| Searches.BriefModes | bitdht/bdmanager.cc:333-378 | a refresh and a failure last one tick, off and quiet last |
| Searches.StartupLooks | bitdht/bdmanager.cc:260-279 | startup ends with two lookups, for the own id and one known to all, disguised and idle |
| Searches.RefreshMeans | bitdht/bdmanager.cc:333-360 | a refresh begins a disguised lookup with the search's flags for each search that waits, in the order of their ids, marks those, and then reads the report and estimates the sizes |
| Searches.SwitchedRefresh | bitdht/bdmanager.cc:333-360 | and leads to the active mode |
| Searches.FailureRestarts | bitdht/bdmanager.cc:372-378 | after a failure the node has forgotten everything, the searches wait again with their flags and addresses, and the stored peers are queued |
| Searches.SearchBegun | bitdht/bdmanager.cc:171-195 | a search that waits when a refresh comes has its lookup begun then, and is querying afterwards |
| ManagerRuns.WaitingBegun | bitdht/bdmanager.cc:171-360 | over such a run, while the manager is active, a waiting search has its lookup begun, with its flags and disguised, by the tick after the first one more than ten seconds on, unless it is given up; it is querying then and the lookup is still there after the node's tick |
| Bencode.Read | bitdht/bencode.c:133-284 | reading ends on every buffer, never passes its end, and every tree read consumed at least one byte |
| Bencode.Cursor.DecodeInt | bitdht/bencode.c:47-58 | the number at the cursor, and the count of bytes left stays true |
| Bencode.Cursor.DecodeStr | bitdht/bencode.c:68-131 | the string at the cursor, or none for a bad length or missing colon; the count of bytes left stays true |
| Bencode.Cursor.Decode | bitdht/bencode.c:133-284 | tree and position are those of `Read`, the count of bytes left equals the bytes left and is never negative, and the recursion ends |
| Bencode.DecodeN | bitdht/bencode.c:286-289 | the tree at the start of the buffer |
| Bencode.Encode | bitdht/bencode.c:421-475 | given more room than the text needs, the buffer holds exactly the text, its length is returned, and at most one byte beyond it is touched |
| Bencode.CStrWhole | bitdht/bencode.c:538-575 | a key without NUL bytes is printed whole |
| BencodeTheorems.RoundTrip | bitdht/bencode.c:133-475 | a printed tree with NUL-free keys and 64-bit integers is read back as it was, wherever it stands, consuming exactly its text |
| BencodeTheorems.PrefixFree | bitdht/bencode.c:421-475 | the text determines the tree, and no tree's text is a proper prefix of another's |
| BencodeTheorems.EncodeThenDecode | bitdht/bencode.c:286-475 | what the printer leaves in a buffer the parser turns back into the tree |
| BencodeCanonical.ReadInRange | bitdht/bencode.c:47-284 | every integer in a tree that is read fits 64 bits |
| BencodeCanonical.EncNorm | bitdht/bencode.c:421-475 | the printer cannot tell a tree from its normal form, in which missing bodies are empty and keys end at their first NUL |
| BencodeCanonical.ReadsNorm | bitdht/bencode.c:133-475 | what is read back from a printed 64-bit tree is its normal form |
| BencodeCanonical.ReadBackIffPrintable | bitdht/bencode.c:133-475 | so a 64-bit tree is read back as it was iff every string has a body and no key a NUL |
| BencodeCanonical.CanonicalPrints | bitdht/bencode.c:47-475 | canonical text is printed back as it was |
| BencodeCanonical.PrintedCanonical | bitdht/bencode.c:421-475 | what the printer writes of a printable tree is canonical |
| BencodeCanonical.PrintsBackIffCanonical | bitdht/bencode.c:47-475 | printing what was read gives back the text iff the text is canonical: no space, plus, leading zero, minus zero or number beyond 64 bits, every body there, no NUL in a key |
| BencodeCanonical.NotPrintedBack | bitdht/bencode.c:47-131 | two texts read but not printed back: a length running past the buffer, and a plus sign |
| BencodeGrammar.NumberRead | bitdht/bencode.c:47-58 | spaces, at most one sign and digits are read as their value within 64 bits, up to the first byte that is no digit |
| BencodeGrammar.NumberMissing | bitdht/bencode.c:47-58 | where there is no number, zero is read and nothing consumed |
| BencodeGrammar.ReadIff | bitdht/bencode.c:68-284 | a tree is read, up to a place, iff the grammar of numbers, counted strings, lists and dictionaries has it there |
| Msgs.CreatePingMsg | bitdht/bdmsgs.cc:103-134 | the ping as built, printed whole, with its length |
| Msgs.ResponsePingMsg | bitdht/bdmsgs.cc:141-174 | the pong with its version |
| Msgs.FindNodeMsg | bitdht/bdmsgs.cc:183-217 | the find_node request |
| Msgs.RespNodeMsg | bitdht/bdmsgs.cc:226-263 | the find_node reply with compact nodes |
| Msgs.GetPeersMsg | bitdht/bdmsgs.cc:271-305 | the get_peers request |
| Msgs.PeersReplyHashMsg | bitdht/bdmsgs.cc:313-349 | the get_peers reply with values |
| Msgs.PeersReplyClosestMsg | bitdht/bdmsgs.cc:359-395 | the get_peers reply with nodes |
| Msgs.AnnouncePeersMsg | bitdht/bdmsgs.cc:407-447 | the announce_peer request with port and token |
| Msgs.ReplyAnnounceMsg | bitdht/bdmsgs.cc:459-489 | the announce_peer reply |
| Msgs.AskMyIpMsg | bitdht/bdmsgs.cc:491-522 | the ask_myip request |
| Msgs.ReplyMyIpMsg | bitdht/bdmsgs.cc:528-565 | the ask_myip reply |
| Msgs.BroadcastConnMsg | bitdht/bdmsgs.cc:573-611 | the broadcast_conn request naming a pair |
| Msgs.AskConnMsg | bitdht/bdmsgs.cc:616-654 | the ask_conn request with a peer to punch |
| Msgs.ReplyConnMsg | bitdht/bdmsgs.cc:656-691 | the ask_conn reply |
| Msgs.MakeCompactIdList | bitdht/bdmsgs.cc:982-994 | one string with all compact nodes in order |
| Msgs.PeerAddrBytes | bitdht/bdmsgs.cc:1031-1062 | address and port lie in the six bytes as in memory, low byte first |
| Msgs.NodeIdBytes | bitdht/bdmsgs.cc:1031-1062 | the id comes before them |
| WireTexts.MessageText | bitdht/bdmsgs.cc:103-691 | each of the fourteen messages is printed as the text written out for it, key by key |
| Msgs.Ecrypt | bitdht/bdmsgs.cc:53-74 | as much of checksum and token is appended as the two loops write, the rest of the buffer untouched; all eight bytes iff there is room for eleven |
| Msgs.PutWord | bitdht/bdmsgs.cc:65-72 | each loop writes a byte as long as position and index together are below the room |
| Msgs.SealedAccepted | bitdht/bdmsgs.cc:53-101 | with that room the packet is body, checksum and token, and accepted |
| Msgs.RefusedBody | bitdht/bdmsgs.cc:53-101 | with less, for every size some body makes a packet that is refused |
| Msgs.SealedAcceptedIff | bitdht/bdmsgs.cc:53-101 | every body of a size is accepted once sealed iff there is room for eleven bytes more |
| Msgs.TightRoomRefused | bitdht/bdmsgs.cc:65-72 | one byte of body and ten of room: a packet of eight bytes, refused |
| Msgs.ChecksumIs | bitdht/bdmsgs.cc:53-101 | the checksum is the length plus the sum of the bytes as signed chars, on 32 bits, with 2^32 - 1 taken for 0 |
| Msgs.ChangeNoticed | bitdht/bdmsgs.cc:53-101 | a body changed in one byte has another checksum, unless the two sums are 0 and 2^32 - 1 |
| Msgs.Decrypt | bitdht/bdmsgs.cc:76-101 | the verdict is whether the four bytes before the token are the checksum of what precedes them |
| Receive.NodeIdInverse | bitdht/bdmsgs.cc:1031-1062 | a compact node is read back as it was |
| Receive.NodesInverse | bitdht/bdmsgs.cc:1009-1029 | a compact node list is read back as it was |
| Receive.NodesThenTail | bitdht/bdmsgs.cc:1009-1029 | bytes that do not make up a whole contact are left over |
| Receive.StringsThenOther | bitdht/bdmsgs.cc:1093-1113 | values are read up to the first item that is no string |
| Receive.TypeRecovered | bitdht/bdmsgs.cc:762-925 | every built message is classified as intended, the announce reply as a pong |
| Receive.HandedOnIff | bitdht/bdnode.cc:1252-1560 | a packet is handed on iff it is of a known kind, has a transaction id, a body with the sender's id, and the fields of its kind |
| Receive.LookupFirst | bitdht/bdmsgs.cc:700-719 | of several entries under one key the first is found |
| Receive.QueryKind | bitdht/bdmsgs.cc:762-825 | of which kind a query is, by its name, and unknown under any other |
| Receive.ReplyKind | bitdht/bdmsgs.cc:826-925 | of which kind a reply is, by what its body has |
| Receive.NoType | bitdht/bdmsgs.cc:740-743 | a packet that is read whole and has no type |
| Receive.NoTypeBody | bitdht/bdmsgs.cc:740-757 | one whose type has no body |
| Receive.NoQueryName | bitdht/bdmsgs.cc:786-790 | a query that has no name |
| Receive.HandleRecovers | bitdht/bdnode.cc:1252-1600 | the receiver's field extraction yields every field that was put in |
| Receive.MessageRecovered | bitdht/bdnode.cc:1203-1600 | a built message followed by any trailer is read, classified and recovered with the transaction id, ids, targets, port, values and node lists put in |
| Receive.TokenRecoveredIff | bitdht/bdnode.cc:1436-1444 | the token of a reply or an announcement arrives iff it was empty |
| Receive.TokenLost | bitdht/bdnode.cc:1436-1444 | a reply whose token is lost |
| Receive.NothingElseLost | bitdht/bdnode.cc:1203-1600 | from what the receiver has, the message can be rebuilt but for what it is known to forget |
| Receive.SealAndOpen | bitdht/bdmsgs.cc:53-101 | a message sealed with room for eleven bytes more is eight bytes longer, accepted, and read back as the message |

## Left out

- Node.Node.RunQueries: the node holds its lookups as values of `Query.State`, stepped by the functions the methods of class `Query` are proved equal to; the identity of lookup objects is not captured.
- Receive.MessageRecovered: the token field, which the receiver never reads; `Receive.TokenRecoveredIff` says exactly when it survives.
- Msgs.Decrypt: the token it also returns, which has no defined value because the loop at bitdht/bdmsgs.cc:84-86 indexes past its four bytes, and the used-token and blacklist handling built on it, are not part of this model; it asks for at least eight bytes, which the source takes for granted.
- Receive.HandleRecovers: stated for the trees the builders make; `MsgType` asks for what the classifier takes for granted (`Classifiable`).
- Node.Node.Iteration: the messages that have come in, which the source reads first (bitdht/bdnode.cc:266-276), are calls of the handlers before it; the static counter of ticks is a parameter, and so are the peers known from disk that announcements go to; one time stands for all readings of the clock in a tick.
- Node.Node.AddPeer: the peer store it also writes to (bitdht/bdstore.cc) is not part of this model; stored peers are a parameter where they are read.
- Node.Node.Shutdown: the peer store and the hash space, which it also clears, are not part of this model.
- Manager.Manager.AddPeer: the callback to the user is left out.
- Manager.Manager.SwitchMode: callbacks, and the peer store's write at a refresh, are left out.
- Manager.Manager.CheckStatus: callbacks, and `matchResult` behind them, which says yes whenever any named peer is known, are left out.
- Transaction ids, versions and tokens are byte strings of any length; the source's `bdToken` has room for 20 bytes (bitdht/bdobj.h:30-41), and what it does with longer ones is not part of this model.
- Messages a node sends carry no transaction ids in `Node`; the codec modules have them.
- `operator<` on address-carrying ids (bitdht/bdpeer.cc:129-146) is not a strict order and is used nowhere in the model; maps are keyed by node id.
- The peer counts, bucket counts and bit sizes, virtual functions in the source, are constants here.
- Sockets, threads, files, printing, statistics and low-pass filters; the hash space, which the running node only clears; the history, which is compiled out; the tunnel node, a reduced copy of this one.
- Memory management and memory layout of the C code.
