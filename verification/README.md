# A verified model of a Kademlia node

This project models a Rust implementation of the Kademlia distributed hash table and proves what
its routing table, its iterative lookup, its request handlers and a network of such nodes
guarantee. The protocol is the one of Maymounkov and Mazières, "Kademlia: A Peer-to-peer
Information System Based on the XOR Metric", sections 2.1 to 2.4, as far as the code implements it.

- `Ids.dfy`, `Peers.dfy`: 128-bit identifiers as bit sequences, common prefix length, XOR
  distance, big-endian bytes; lists of peers, stable sorting.
- `Tables.dfy`, `Histories.dfy`, `Nearest.dfy`: the routing table as a value. The table unfolds
  its last bucket when that is full. It is proved to refine an eager table with one bounded
  recency list for each prefix length 0..128, which gives the members after any run of updates in
  closed form. The distance bands around a target then decide what `nearest_peers` returns.
- `RoutingTable.dfy`: the classes `RoutingTable` and `Bucket`, changed in place, proved against
  those values.
- `Lookups.dfy`: the loop of `find_value` as a state machine fed with replies in any order and
  with any content.
- `Messages.dfy`, `Server.dfy`, `Client.dfy`, `Bootstrap.dfy`: messages and their checks, the
  handlers, `store`, `find_value` and `bootstrap` as methods over shared state. Results from the
  network are parameters.
- `Network.dfy`, `Guarantees.dfy`, `Uninterrupted.dfy`, `Origins.dfy`,
  `Exchanges.dfy`, `Progress.dfy`: any number of nodes, clients and requests.
  A handler is a sequence of steps, split where it awaits a lock. Requests and replies can be
  lost. A schedule is a sequence of steps, `Reach` is the state it leads to and carries the
  invariant; a lemma about `Reach(steps)` for every `steps` is a statement about every reachable
  state under every interleaving.

Findings about the code, each with a lemma:

- With `k == 0` the recursion of `unfold_buckets` never ends (`Tables.UnfoldEndsIff`).
- `nearest_peers` is not always the nearest of the whole table: `Nearest.WrongPeerIsAnswered` is a
  reachable table that answers with the farther of its two peers, `Nearest.GloballyNearestIff` the
  exact condition.
- An update, refused or accepted, can unfold the table so far that an answer which used to name a
  peer becomes empty: `Nearest.RefusedUpdateCanEmptyAnswer` and
  `Nearest.AcceptedUpdateCanEmptyAnswer` are instances, `Nearest.EmptiesIff` says exactly when it
  happens.
- `find_value` gives up as soon as candidates run out, also when an answer that is still on its way
  would have brought the value or further candidates. Before any call with alpha above 1 and a
  peer to ask this cannot be excluded, and only then (`Lookups.ConclusiveIff`).
- A reply that names a new peer twice makes the lookup query it twice
  (`Lookups.DuplicateIsQueriedTwice`); servers never send one (`Messages.ServedListsAreClean`).
- `validate_request` accepts requests on which the handler panics: sender ids of fewer than 16
  bytes in every handler, keys of fewer than 16 bytes in a find-node and in a find-value that
  misses (`Servers.CheckedRequestsCanPanic`; exactly which, `Servers.AnswersIff`). A find-value
  that hits serves keys of any length.
- With alpha 0 a lookup that has a candidate waits forever (`Lookups.LookupTerminates`).
- The sort by id before `dedup` in `bootstrap` does not remove all duplicates
  (`Bootstraps.DuplicateSurvives`); the exact condition is `Bootstraps.CandidatesNoDupIff`.
- `store` with no peer to ask returns an error that carries the code OK (`Clients.DHTClient.Store`).
- `move_to_front_if_exists` moves the peer to the end of its bucket, where the most recently seen
  peer is, not to the front.

## Model

| member | source | states |
|---|---|---|
| Ids.CplMeaning | src/keyutil.rs:9-11 | the common prefix length is c exactly when the first c bits agree and bit c, if there is one, differs |
| Ids.CplMetric | src/keyutil.rs:9-11 | it is symmetric, 128 only for equal ids, and at least the smaller of the two over a third id, equal to it when the two differ |
| Ids.DistanceBand | src/keyutil.rs:9-11 | prefix length c < 128 means 2^(127-c) <= XOR distance < 2^(128-c); 128 means distance 0 |
| Ids.LongerPrefixIsNearer | src/keyutil.rs:9-11 | the peer with the longer common prefix with the target is strictly nearer to it |
| Ids.DistanceOrder | src/keyutil.rs:9-11 | which of two ids is nearer to a third is decided at the first bit where the two differ |
| Ids.KeyRoundTrip | src/keyutil.rs:13-21 | encoding and decoding an id are inverse on 16 bytes; decoding ignores what follows them |
| Ids.BytesAreBigEndian | src/keyutil.rs:13-17 | decoding is the base-256 reading, most significant byte first |
| Ids.KeysAreBigEndian | src/keyutil.rs:13-21 | an encoded key is the base-256 digits of its number, most significant first, and decoding reads its first 16 bytes so |
| Ids.LexIsNumeric | src/keyutil.rs:13-21 | lexicographic order of equally long byte strings is numeric order |
| Tables.UnfoldInClosedForm | src/routing_table.rs:112-120 | unfolding a full last bucket L makes m-L+1 new buckets, m the least prefix length in it: L..m-1 empty, m with its own class and not empty, m+1 with the rest and room; peers, order inside every class and the invariant are kept |
| Tables.SplitLastStep | src/routing_table.rs:112-120 | one split of a full last bucket either completes the closed form or leaves a full last bucket with the same closed form; a full last bucket never has an index above 128 |
| Tables.UnfoldEndsIff | src/routing_table.rs:117-119 | the recursion ends exactly when k >= 1, whatever the table holds |
| Tables.FirstUpdateEndsIff | src/routing_table.rs:36-58 | so the first update of a new table, of any peer, ends exactly when k >= 1 |
| Tables.UpdateRefinesEager | src/routing_table.rs:36-72 | every update keeps the invariant and does to the lists of all prefix lengths, and answers, exactly what the eager table does |
| Tables.UpdateLayout | src/routing_table.rs:36-72 | when an update unfolds and into what: only for an unknown peer whose home is the last bucket and full, and then into the least class, empty buckets before it and the rest after it, in order, the peer offered to its new home; otherwise the peer is offered to its home bucket and every other bucket stays as it is |
| Tables.UpdateFailsIff | src/routing_table.rs:36-72 | an update is refused exactly when the peer is unknown and k peers of its own prefix length are there; looking in one bucket decides whether it is known |
| Tables.UpdateIdempotent | src/routing_table.rs:36-72 | repeating an update leaves every bucket and the answer as they are, also after a refusal that unfolded the table |
| Tables.BucketCount | src/routing_table.rs:112-120 | at most 130 buckets, the 130th always empty |
| Tables.MembersBound | src/routing_table.rs:36-72 | no peer occurs twice in the whole table, and there are at most 129k peers |
| Tables.OneBucketDecides | src/routing_table.rs:37-47 | a peer is in the table exactly when it is in the clamped bucket of its prefix length, and exactly when it is in its eager list |
| Histories.RunRefinesEager | src/routing_table.rs:36-72 | over any run of updates the table and the eager table have the same lists and answer the next update alike |
| Histories.LayoutNeverDecides | src/routing_table.rs:36-72 | two tables with the same lists, however far unfolded, stay alike and give the same answers forever |
| Histories.WholeRun | src/routing_table.rs:26-72 | after any updates on a new table, prefix length c holds exactly the first k distinct peers of that length ever offered, in the order of their last offering |
| Histories.SingleBucketIff | src/routing_table.rs:26-72 | a table reached from a new one is a single bucket exactly as long as at most k distinct peers were offered, and then lists them by their last offering |
| Histories.AnswerInClosedForm | src/routing_table.rs:36-72 | an offer is accepted exactly when its peer is among the first k distinct ones of its prefix length |
| Histories.NoPeerLeaves | src/routing_table.rs:36-72 | a peer in the table stays in it, whatever is offered later |
| Histories.RunAddsOnly | src/routing_table.rs:36-72 | a table holds no peer that was never offered |
| Histories.RunIsBounded | src/routing_table.rs:36-72 | no reachable table repeats a peer or has more than 129k of them |
| Nearest.BandsSeparate | src/routing_table.rs:78-101 | distances to the target are strictly separated between the home bucket, every bucket above it, and each bucket below it in descending order, clamped home included |
| Nearest.AboveSeparates | src/routing_table.rs:78-101 | the bucket above home is strictly nearer than all buckets further up if target and local id differ at the bit after the home index, strictly farther if they agree there |
| Nearest.GatheredIsWindow | src/routing_table.rs:78-101 | sorting and truncating what the code gathers is the first n of sorted home, sorted next bucket, sorted previous bucket |
| Nearest.AnswerIsWindow | src/routing_table.rs:78-101 | the answer is the first n of the sorted peers of the home bucket and the two next to it, and a set of n nearest among them |
| Nearest.FewAreAllAnswered | src/routing_table.rs:74-101 | as long as at most k distinct peers were offered, every target is answered with all of them, sorted |
| Nearest.GloballyNearestIff | src/routing_table.rs:78-101 | the answer is a set of n nearest of the whole table exactly when home has n, or nothing lies above the window and the window has n or nothing lies below it, or home and the next bucket have n and target and local id differ at the bit after the home index |
| Nearest.WrongPeerIsAnswered | src/routing_table.rs:78-101 | a table reached by three updates, and a target, for which the one peer answered is farther than the other peer in the table |
| Nearest.AnswerShape | src/routing_table.rs:74-101 | every answer is duplicate-free, has at most n peers, all from the table, nearest first |
| Nearest.ConnectionTest | src/lib.rs:207-210 | asking for n >= 1 peers near the local id finds one exactly when the table is not empty |
| Nearest.EmptiesIff | src/routing_table.rs:36-72 | an update empties an answer exactly when it unfolds the table, the target's prefix length is past the last bucket l (or l is 0) and at least 2 short of the least one in it, and the peer's is not within 1 of the target's |
| Nearest.RefusedEmptiesIff | src/routing_table.rs:56-64 | for a refused update that least prefix length is the peer's own |
| Nearest.RefusedUpdateCanEmptyAnswer | src/routing_table.rs:56-64 | an instance of it: one peer answered before, none after, the eager lists unchanged |
| Nearest.AcceptedUpdateCanEmptyAnswer | src/routing_table.rs:56-68 | an instance with an accepted update |
| RoutingTables.Bucket.MoveToFrontIfExists | src/routing_table.rs:146-159 | the first occurrence moves to the end, nothing else moves, and the result says whether there was one |
| RoutingTables.Bucket.Split | src/routing_table.rs:163-178 | peers with a longer prefix than the index go to a new bucket of the next index, the rest stay, both in order |
| RoutingTables.RoutingTable.constructor | src/routing_table.rs:26-32 | a new table is one empty bucket, for every k, and is valid exactly when k >= 1 |
| RoutingTables.RoutingTable.Update | src/routing_table.rs:36-72 | the in-place update keeps the table valid and ends in the table and answer of the value-level update, whose layout `Tables.UpdateLayout` gives bucket by bucket |
| RoutingTables.RoutingTable.UnfoldBuckets | src/routing_table.rs:112-120 | the in-place recursion terminates in the closed form |
| RoutingTables.RoutingTable.NearestPeers | src/routing_table.rs:78-101 | gathering, sorting and truncating returns the first n of the three bands in order |
| RoutingTables.RoutingTable.KNearestPeers | src/routing_table.rs:74-76 | the same with n = k |
| Lookups.FlowControl | src/client.rs:98-120 | in every run the counter is queries spawned minus replies received, at most alpha, and positive at every wait when alpha >= 1 |
| Lookups.SpawnsNearest | src/client.rs:105-115 | queries go out nearest first, and no candidate left behind is nearer than one queried |
| Lookups.WorkIsLearned | src/client.rs:101-148 | queried and candidates together are exactly the peers learned so far, whatever the replies hold |
| Lookups.NotFoundIsExhaustive | src/client.rs:101-155 | a not-found means that exactly the peers ever learned were queried |
| Lookups.ConclusiveIff | src/client.rs:102-104 | for each call, whatever replies arrive, a not-found comes after all queries were answered, exactly when alpha is at most 1 or there is nobody to ask |
| Lookups.FoundWasAnswered | src/client.rs:131-134 | a value found is the non-empty value of some reply |
| Lookups.FoundIff | src/client.rs:118-148 | a lookup has found v exactly when the last reply it handled carries v, not empty, and none before it carried a value; one that gave up handled no value |
| Lookups.QueryOnceIff | src/client.rs:138-144 | queried and candidates are disjoint and duplicate-free exactly when the initial peers are and no reply named a new peer twice |
| Lookups.QueryOnce | src/client.rs:101-148 | duplicate-free replies suffice for that |
| Lookups.DuplicateIsQueriedTwice | src/client.rs:138-144 | one reply that names a new peer twice makes the lookup query it twice |
| Lookups.ReplyLowers | src/client.rs:118-148 | every reply handled, of any content, leaves fewer peers of a finite universe unheard of, or as many and less to wait for |
| Lookups.LookupTerminates | src/client.rs:101-148 | for every endless supply of replies about finitely many peers, repetitions included, the wait ends after some of them; the lookup has then found the value or given up, unless alpha is 0 and there was a candidate |
| Lookups.MeasureDecreases | src/client.rs:101-148 | as long as replies name no new peer twice, twice the unqueried peers plus the queries in flight strictly falls with every reply and stays non-negative |
| Lookups.ReplyBound | src/client.rs:101-148 | with duplicate-free initial peers and replies a lookup handles at most as many replies as there are peers, in any order |
| Messages.PeerRoundTrip | src/messages/util.rs:9-21 | encoding a peer and decoding it gives it back, and different peers are encoded differently |
| Messages.BuildFindNodeResponse | src/messages/util.rs:104-110 | the loop yields the encoded peers in order and nothing else |
| Messages.RequestsAreValid | src/messages/util.rs:23-57 | every request has its kind, passes the server's check exactly when its sender has an address, and the server reads the sender back; all but the ping read back their key, the store its value |
| Messages.StoreResultIff | src/messages/util.rs:59-77 | a result counts as success exactly when it is a reply with code OK; otherwise its error is the code of the reply, or an internal error when there was none |
| Messages.CodeIsIgnored | src/client.rs:126-144 | a lookup reads a reply by its value and peers alone, whatever its code and key |
| Messages.ServedListsAreClean | src/messages/util.rs:104-110 | every peer list a server sends is decodable, duplicate-free, at most k long and sorted by distance to the key |
| Servers.AnswersIff | src/rpc/mod.rs:68-136 | a handler answers exactly the requests it refuses and the checked ones whose sender id has at least 16 bytes, and so has the key of a find-node, and of a find-value unless it is stored; if it panics instead, the store is as before, and so is the table if the sender id was too short |
| Servers.RefusedIff | src/messages/util.rs:116-131 | a request is refused exactly when its sender is missing, has an empty id, or an address that is empty or not text; a refusal says BAD_REQUEST, carries nothing and changes nothing; every other reply says OK |
| Servers.GreetedIsKnownIff | src/rpc/mod.rs:139-148 | after any readable request its sender is in the table exactly if it was before or fewer than k of its class were; only a store touches the store |
| Servers.StoreReply | src/rpc/mod.rs:78-79 | a readable store puts its value, and its reply has kind STORE and code OK and validates at the caller |
| Servers.PingReply | src/rpc/mod.rs:125-136 | a readable ping is answered with code OK, no value and no peers |
| Servers.HitReply | src/rpc/mod.rs:107-109 | on a hit the caller reads the stored value, and the reply names the key asked for |
| Servers.NearestReplied | src/rpc/mod.rs:87-97 | on a find-node, or a find-value that misses, the caller reads no value and exactly the k peers nearest to the key in the table just updated |
| Servers.CheckedRequestsCanPanic | src/messages/util.rs:116-131 | a checked request on which every handler panics, and one on which find-node and a missing find-value do |
| Servers.StoredIsServed | src/rpc/mod.rs:68-107 | a checked store succeeds in the eyes of its caller, and a find-value after it answers its key and value, which the lookup reads; for keys of any length |
| Servers.MissIsFindNode | src/rpc/mod.rs:99-123 | a find-value that misses offers the sender twice, and leaves the table and gives the reply, or panics, as a plain find-node |
| Servers.DHTServer.UpdateRoutingTable | src/rpc/mod.rs:139-148 | the sender is offered to the table if it can be read, a refusal is ignored |
| Servers.DHTServer.StoreAsync | src/rpc/mod.rs:68-85 | for every message: a checked request updates the table once, puts exactly its key and value and answers OK, or panics before that on a short sender id; any other changes nothing and answers BAD_REQUEST |
| Servers.DHTServer.FindNodeAsync | src/rpc/mod.rs:87-97 | for every message: table updated with the sender, then its k nearest to the key are answered, or a panic on a short key; the store is untouched |
| Servers.DHTServer.FindValueAsync | src/rpc/mod.rs:99-123 | for every message: a hit answers the stored value, a miss ends as a find-node would although it updates twice; it answers exactly the answerable requests |
| Servers.DHTServer.PingAsync | src/rpc/mod.rs:125-136 | for every message: a checked ping updates the table and nothing else |
| Clients.DHTClient.Store | src/client.rs:44-74 | one request to each of the k nearest peers; success exactly when one result validates, otherwise the last error, or code OK when there was no peer |
| Clients.DHTClient.JoinAll | src/client.rs:60-73 | counting failures yields no error exactly when some result validates, otherwise the last one's error; the network model uses the same function |
| Clients.DHTClient.FindValue | src/client.rs:89-155 | for every sequence of results: the local value if there is one, otherwise what the lookup machine yields on them in arrival order; when that is a value and when a panic, the next two rows say |
| Clients.ReturnsIff | src/client.rs:131-134 | a call returns v exactly when a result that carries v, not empty, arrives while the lookup waits |
| Clients.PanicsIff | src/client.rs:138-141 | a call panics exactly when it takes a result without value, one of whose peers cannot be decoded, while it waits |
| Clients.DHTClient.Iterate | src/client.rs:96-155 | the loop with its mutable lists and counter refines the lookup machine step by step, up to the panic |
| Clients.DHTClient.Spawn | src/client.rs:105-115 | sorting and popping from the end has the machine's effect on candidates, queried and counter |
| Clients.DHTClient.AddCandidates | src/client.rs:138-144 | exactly the decoded peers neither queried nor candidates are appended, in order; it panics exactly when one cannot be decoded |
| Bootstraps.Bootstrap | src/lib.rs:121-199 | exactly the new peers that an answered introduction names are pinged, by ascending id, no two adjacent equal; the table ends as after offering the bootstrap peers that answered and then the pinged ones that did, both in order; it panics, with the table as before, exactly when an introduction names a peer that cannot be decoded |
| Bootstraps.CandidatesAreNamed | src/lib.rs:157-165 | filtering, sorting and deduplicating leave exactly the named peers that are not bootstrap peers, by ascending id, no two adjacent equal |
| Bootstraps.AliveIff | src/lib.rs:140-188 | a peer ends up alive exactly if it is a bootstrap peer that answered, or a new one that an answered introduction names and that answered a ping |
| Bootstraps.DedupNoDupIff | src/lib.rs:165 | adjacent deduplication removes all duplicates exactly when no peer comes back after another one |
| Bootstraps.CandidatesNoDupIff | src/lib.rs:164-165 | after the sort by id duplicates survive exactly when some peer was offered again with another peer of the same id in between |
| Bootstraps.DuplicateSurvives | src/lib.rs:164-165 | for any two peers with one id and two addresses, the list p, q, p comes out unchanged |
| Network.Reach | src/rpc/mod.rs:68-136 | after any schedule the invariant of nodes, calls, clients and locks holds |
| Guarantees.StoredWasGiven | src/rpc/mod.rs:68-85 | in every reachable state every stored value was given to an earlier `store` for that key |
| Guarantees.RepliedWasGiven | src/rpc/mod.rs:99-123 | so was every non-empty value in a reply, in flight or delivered, for the key of its request |
| Guarantees.FoundWasGiven | src/client.rs:89-155 | so was every value a `find_value` returns |
| Guarantees.PutMeaning | src/rpc/mod.rs:78 | every recorded put is a step of the schedule after which that node holds that value under that key |
| Guarantees.StoreOutcomeIsExact | src/client.rs:44-74 | `store` returns when all its requests have results, succeeds exactly when one validates, and then a node it asked has executed the put of exactly that key and value; with no peer it fails |
| Exchanges.StoreSucceedsIff | src/client.rs:60-73 | a returned store succeeded exactly if a node it asked has executed the put of its key and value and the answer arrived |
| Exchanges.StoresAskNearest | src/client.rs:53-58 | every store asks exactly the k peers nearest to its key in the table of its node when it started, one request each |
| Exchanges.LocalFirst | src/client.rs:91-94 | a lookup returns what its own node stores under the key, and goes on exactly if that is nothing |
| Exchanges.LookupsStartNearest | src/client.rs:96 | the first candidates of every lookup are the k peers nearest to its key in the table of its node when it entered its loop |
| Exchanges.LookupsAreExchanges | src/client.rs:101-148 | in every reachable state a lookup has sent one request to each peer it counts as queried, in that order, and the replies it has handled are the results of its own requests, each taken once |
| Origins.StepFrom | src/rpc/mod.rs:68-136 | no step makes up a peer: tables, requests, replies and lookups keep within the peers introduced so far |
| Origins.LookupsAreClean | src/client.rs:101-148 | in every reachable state every lookup works on peers introduced by joins and bootstrap lists only, on none twice, and has handled at most as many replies as peers were introduced |
| Origins.TablesAndRepliesAreClean | src/rpc/mod.rs:87-97 | nor does any routing table or reply ever hold another peer |
| Guarantees.LookupsAreAccounted | src/client.rs:112-120 | in every reachable state a lookup counts exactly its own requests whose result it has not taken |
| Guarantees.RunningIsNeverStuck | src/client.rs:118 | with alpha >= 1 a running lookup has a request of its own whose result it can take now or that can still fail |
| Progress.CallReturns | src/client.rs:185-198 | every request can be brought to its result by the network alone: it fails if it is addressed to nobody, and is otherwise handled and answered |
| Progress.LookupAdvances | src/client.rs:118-146 | so a running lookup can always be brought nearer to its end |
| Progress.LookupsCanReturn | src/client.rs:89-155 | from every reachable state every lookup with alpha >= 1, at any stage, has a continuation after which it has returned; nothing new is asked in it and nothing is lost on the way to or from a node |
| Progress.StoresCanReturn | src/client.rs:44-74 | and so has every store |
| Guarantees.AtMostOneLock | src/rpc/mod.rs:68-136 | no handler ever holds two locks, of one node or of several |
| Guarantees.TableLockHolder | src/rpc/mod.rs:68-136 | the table lock is held by a call exactly when that call's handler is inside its critical section there |
| Guarantees.StoreLockHolder | src/rpc/mod.rs:78-107 | the same for the store lock |
| Guarantees.TableIsFold | src/rpc/mod.rs:139-148 | every node's table is always well-formed and is the fold of updates over its log |
| Guarantees.LogStep | src/rpc/mod.rs:139-148 | the log grows only at its end, by the sender or the peers that the step offers under the lock |
| Guarantees.NoDeadlock | src/rpc/mod.rs:68-136 | as long as a handler has steps left, some handler step is enabled |
| Guarantees.HandlerStepsShrink | src/rpc/mod.rs:68-136 | every handler step strictly lowers the number of steps that handlers have left |
| Guarantees.HandlersFinish | src/rpc/mod.rs:68-136 | from every reachable state all handlers can finish by their own steps, within that number |
| Uninterrupted.RunsAlone | src/rpc/mod.rs:68-136 | a handler left alone from its start reaches its reply by its own steps and leaves exactly the table, store and reply of the request in one go, touching nothing else |
| Uninterrupted.LeadsReaches | src/rpc/mod.rs:68-136 | a chain of enabled, allowed steps from a reachable state ends in the state its schedule reaches |

## Left out

- Transport, sockets, timers, logging and the generated message code: every request ends in one reply or one error, chosen by the schedule. Addresses are taken to be well-formed.
- UTF-8: a byte string is modelled as valid text or as not valid. Numeric enum codes that the program does not define are not modelled.
- Hashing and random ids (src/keyutil.rs:5-7, 23-27): ids and keys are arbitrary, and provenance is stated for hashed keys.
- RoutingTables.RoutingTable.Update: requires a valid table, hence k >= 1, because with k = 0 the first update never returns (`Tables.FirstUpdateEndsIff`).
- What a panic does beyond the handler: it sends no reply and frees the lock it holds; requests that cause one do not occur among the clients of the network model.
- The width of alpha and of the counter: both are natural numbers; the counter is proved never to exceed alpha or fall below zero, so 16 bits neither overflow nor wrap.
- Bootstraps.Bootstrap: the requests it sends are represented by their results, in request order. In the network model a node may offer itself any list of peers, which covers it.
- `wait_for_connection` (src/lib.rs:201-213): only its exit test, not its timer.
- A client's use of a lock is one step of the network model, since it awaits nothing while it holds it.
- That a value put can be found again: the code does not guarantee it, because of the three-bucket window and of the lookup's early exit.
- Deleting from the store, `republish` and `refresh`, which no code path uses or which are empty.
- Eviction and pinging of the least recently seen peer, republishing, and learning peers during a lookup: the program has none of these.
