# Overlay protocol of a peer-to-peer resource-sharing system, in Dafny

The system is made of a fixed ring of coordinator ("super") nodes at positions
0..N-1 and of peer nodes that host files. Every coordinator keeps four maps:

- a DHT from a resource name to the peer that hosts it;
- the member peers, each with the time of its last keep-alive;
- the searches it has started, keyed by a fresh id;
- the coordinators that have reported ready.

A peer registers with a coordinator drawn at random and advertises its files
by name and SHA-256 digest. A resource belongs to the coordinator whose order
equals the last 16 hex digits of the digest, modulo N. A coordinator that does
not own a resource hands it to its successor, order `(order + 1) mod N`. A
lookup goes the same way round the ring under a fresh id. The coordinator that
started it answers the requesting peer once the answer, or the search itself,
is back where it started. The peer then fetches the content from the owner
directly.

The project models the three core components:

- **Messages** (`messages.dfy`): contacts, resources, one datatype variant per
  message tag, and the datagram envelope.
- **Registry** (`registry.dfy`, `src/core/System.ts`): the list of
  coordinators as a `seq`, its queries as functions, and `System` as a class
  whose `AddSuperNode` appends.
- **Ring** (`ring.dfy`): the successor walk. k steps from p land on
  `(p + k) mod N`, N steps come back, and position q is first reached after
  `(q - p) mod N` steps.
- **Partition** (`partition.dfy`): `slice(-16)`, `parseInt(·, 16)` over the
  leading hex digits, and `% N` with the NaN cases.
- **CoordinatorSpec** (`coordinator_spec.dfy`): every coordinator handler as a
  function from the four maps and one delivery to the new maps and the
  datagrams sent. The result is a `Step(st, out, halted)`, where `halted`
  records that the handler has returned.
  - A delivery's `failing` set lists the send attempts the transport rejects.
    They are numbered from 0 within the delivery.
  - `freshIds` are the ids `randomUUID` returns, one per requested name.
- **SuperNode** (`supernode.dfy`, `src/core/SuperNode.ts`): the coordinator
  as a class.
  - Its four maps are fields that the handlers update in place.
  - Accepted datagrams are appended to `outbox`.
  - Each method, including the placement and request loops and the sweep that
    deletes while visiting, is proved to leave exactly the state and the
    datagrams of the corresponding function.
- **CoordinatorProofs** (`coordinator_proofs.dfy`): the handlers' guarantees,
  covering placement, registration, keep-alive and sweep, lookups, and the
  readiness gate.
- **RingScenarios** (`ring_scenarios.dfy`): messages crossing several
  coordinators.
  - A transfer reaches its owner after `(partition - start) mod N` hops.
  - A search nobody can answer is back at its originator after exactly N hops
    and is answered "not found" there.
  - A hit is relayed back to the originator.
- **Peer** (`peer.dfy`, `src/core/PeerNode.ts`): the peer as a class holding:
  - the association;
  - the request-file snapshot;
  - the watchdog timer;
  - counters of started listeners, keep-alive loops and pollers;
  - an outbox.

  The file system, the random draw and the transport's verdicts are inputs.

Three points of the peer's behaviour are easy to misread:

- On a registerResponse with status failure, the peer keeps `superNode` as it
  is and only runs `start` again; the association is not dropped.
- On a change of the request file, the peer asks for every name of the new
  file content, not only the names that were added.
- `start` does not set the association itself. Only a successful
  registerResponse does.

## Model

| member | source | states |
|---|---|---|
| Registry.System.constructor | src/core/System.ts:4 | the registry starts empty |
| Registry.System.AddSuperNode | src/core/System.ts:6-8 | appends at the end; the length grows by one and every earlier entry keeps its position |
| Registry.FindFirst | src/core/System.ts:11 | the index found is the first entry that matches; none means no entry matches |
| Registry.GetSuperNodeByName | src/core/System.ts:10-12 | undefined iff no coordinator has the name; otherwise the first coordinator with that name |
| Registry.GetRandomSuperNode | src/core/System.ts:13-15 | undefined iff the registry is empty; otherwise an element of the registry |
| Registry.GetAllSuperNodes | src/core/System.ts:16-25 | same length, and at every index a copy with the same name, address, port and order |
| Registry.GetNextSuperNode | src/core/System.ts:26-31 | undefined for an empty registry or when no entry has order `(order + 1) mod N`; otherwise the first registered entry with that order, as `find` returns it |
| Registry.GetPartitionsNumber | src/core/System.ts:32-34 | the number of partitions is the number of coordinators registered |
| Registry.AddKeepsNameLookup | src/core/System.ts:6-12 | registering one more coordinator does not change what an already registered name resolves to |
| Ring.WalkIsShift | src/core/System.ts:27 | for every k, k successor steps from p land on `(p + k) mod N`; within one turn that is p + k, or p + k − N after wrapping |
| Ring.FullCycle | src/core/System.ts:27 | N steps from p return to p, and no smaller positive number of steps does |
| Ring.HopsReach | src/core/System.ts:27 | position q is reached from p after `(q - p) mod N` steps, and at no earlier step |
| Ring.NextAtPosition | src/core/System.ts:26-31 | on a registry where entry i has order i, the successor of p is the entry at `(p + 1) mod N` |
| Ring.NextIsWalk | src/core/System.ts:26-31 | repeated successor lookups follow the walk |
| Partition.LastChars | src/core/SuperNode.ts:405 | `slice(-16)`: the last 16 characters, or the whole string when it is shorter |
| Partition.HexPrefixLength | src/core/SuperNode.ts:406 | the longest prefix made of hex digits |
| Partition.HexValue | src/core/SuperNode.ts:406 | the value of k hex digits is below 16^k |
| Partition.ParseHex | src/core/SuperNode.ts:406 | NaN iff the string is empty or does not start with a hex digit |
| Partition.PartitionOf | src/core/SuperNode.ts:405-408 | a partition exists iff N >= 1 and the suffix parses, and it is below N |
| Partition.DigestPartition | src/core/SuperNode.ts:405-407 | for an all-hex digest of at least 16 digits, the partition is the value of its last 16 digits mod N, a value below 2^64 |
| Partition.PartitionReadsOnlySuffix | src/core/SuperNode.ts:405 | only the last 16 characters decide the partition |
| CoordinatorSpec.Send | src/core/SuperNode.ts:101-109 | a send either fails, and the handler returns with nothing sent, or appends exactly its datagram; the maps are untouched |
| CoordinatorSpec.Place | src/core/SuperNode.ts:400-438 | placement touches only the DHT, only appends datagrams, and after a return changes nothing more |
| CoordinatorSpec.RequestEach | src/core/SuperNode.ts:153-207 | the resourceRequest loop never changes the DHT, the members or the readiness map, and only appends datagrams |
| CoordinatorSpec.Sweep | src/core/SuperNode.ts:386-398 | keeps exactly the members heard from within 10000 ms, with their data unchanged |
| CoordinatorProofs.PlaceAppend | src/core/SuperNode.ts:404-437 | placing a list in two parts equals placing it whole |
| CoordinatorProofs.PlaceStops | src/core/SuperNode.ts:425-436 | once placement has returned, later resources are never placed |
| CoordinatorProofs.PlaceHaltsAt | src/core/SuperNode.ts:425-436 | a placement that returns early stops at a resource this coordinator does not own, after placing every earlier one without stopping (the successor is missing or the transfer fails); the resources after it change nothing |
| CoordinatorProofs.PlaceWritesOnlyOwned | src/core/SuperNode.ts:408-413 | existing DHT keys stay; every written entry maps the file name of an owned resource to the peer |
| CoordinatorProofs.PlaceStoresOwned | src/core/SuperNode.ts:404-413 | a placement that runs to the end maps every owned resource's file name to the peer |
| CoordinatorProofs.PlaceForwardsForeign | src/core/SuperNode.ts:414-436 | with a successor and no failed send, placement runs to the end and sends exactly one transfer of the same resource and holder to the successor per foreign resource, in order |
| CoordinatorProofs.PlaceAllStored | src/core/SuperNode.ts:404-437 | with a successor and no failed send, every owned resource ends up stored against the peer |
| CoordinatorProofs.RegisterOutcome | src/core/SuperNode.ts:88-119 | the response goes first, to the observed address and claimed port. If it fails, nothing is recorded or placed. Otherwise placement of its resources starts from the old state with the member recorded as of now and the response as the only datagram sent |
| CoordinatorProofs.RegisterComplete | src/core/SuperNode.ts:88-119 | with a successor and no failed send, registration sends the response and then the transfers of the foreign resources. It records the member and stores every owned resource against it |
| CoordinatorProofs.KeepAliveRefreshes | src/core/SuperNode.ts:120-130 | an unknown name changes nothing; a member's timestamp becomes now and nothing else moves |
| CoordinatorProofs.KeepAliveThenSweep | src/core/SuperNode.ts:122-128 | after a keep-alive at t, the member survives every sweep up to t + 10000 and is evicted by any later sweep |
| CoordinatorProofs.SweepBoundary | src/core/SuperNode.ts:390 | silent for exactly 10000 ms stays; silent for 10001 ms goes |
| CoordinatorProofs.SweepIdempotent | src/core/SuperNode.ts:386-398 | sweeping twice at the same time removes nothing more |
| CoordinatorProofs.RequestPending | src/core/SuperNode.ts:179-188 | with fresh ids, every pending entry is kept, and only the ids of local misses are added, each mapped to the requester |
| CoordinatorProofs.RequestStoresMisses | src/core/SuperNode.ts:179-188 | with the successor present and no failed send, the fresh id of every name that missed the local DHT is pending afterwards, mapped to the requester |
| CoordinatorProofs.FailedSearchStaysPending | src/core/SuperNode.ts:187-205 | when the search send fails, the handler returns but the id stays pending |
| CoordinatorProofs.RequestAnswersAll | src/core/SuperNode.ts:153-207 | with a successor and no failed send, exactly one datagram per name, in order: the owner to the requester on a hit, a search with that name's id to the successor on a miss |
| CoordinatorProofs.ResponseOutcome | src/core/SuperNode.ts:211-283 | No id: dropped. Own id: forgotten, and an id-less answer with the same owner fields goes to the requester. Other id: relayed to the successor with its id, the state unchanged |
| CoordinatorProofs.SearchOutcome | src/core/SuperNode.ts:284-381 | Own id: forgotten, and "no owner" goes to the requester. Otherwise the state is unchanged and only the owner (on a hit) or the same search goes to the successor |
| CoordinatorProofs.ReadyAddsName | src/core/SuperNode.ts:73-77 | a readiness report adds exactly its name to the ready set |
| CoordinatorProofs.GateClosedDrops | src/core/SuperNode.ts:78-83 | until the gate opens, every other message changes nothing and sends nothing |
| CoordinatorProofs.ReadinessOnlyGrows | src/core/SuperNode.ts:73-83 | only readiness reports change the readiness map, and only by adding their name |
| CoordinatorProofs.StrayReadyNameClosesGate | src/core/SuperNode.ts:457-468 | the gate compares counts, so a report under a name not yet counted closes an open gate |
| RingScenarios.OwnsAtPosition | src/core/SuperNode.ts:405-408 | on a positional registry, the coordinator at q owns a resource iff its partition is q |
| RingScenarios.SingleTransfer | src/core/SuperNode.ts:131-141 | a resourceTransfer is one placement step for its resource and holder |
| RingScenarios.PlacementHop | src/core/SuperNode.ts:404-437 | hop k < `(t - p) mod N` forwards the same resource and holder to position p + k + 1 with no state change; at that hop count the transfer is at t, which stores it and sends nothing |
| RingScenarios.UnparsableHashCirculates | src/core/SuperNode.ts:404-437 | a resource whose digest does not parse is owned by nobody, so every coordinator forwards it |
| RingScenarios.SearchMissHop | src/core/SuperNode.ts:284-381 | for a name nobody else stores, hops 1..N-1 pass the same search on unchanged; hop N is the originator, which forgets the id and answers "no owner" |
| RingScenarios.AnswerRelayHop | src/core/SuperNode.ts:211-283 | an answer carrying a search id is relayed unchanged until it is back at the originator, N hops after the search left; the originator forgets the id and gives the owner to the requester |
| RingScenarios.SearchHit | src/core/SuperNode.ts:321-353 | a non-originator that stores the name sends its owner, with the search id, to the successor and changes nothing |
| SuperNode.SuperNode.constructor | src/core/SuperNode.ts:46-53 | a coordinator starts with four empty maps |
| SuperNode.SuperNode.SendMessageToNode | src/core/SuperNode.ts:101-109 | the attempt is rejected iff its number is in the failing set; an accepted datagram is appended |
| SuperNode.SuperNode.HandleResource | src/core/SuperNode.ts:404-437 | one loop iteration leaves exactly the state and datagrams of one placement step |
| SuperNode.SuperNode.HandleResources | src/core/SuperNode.ts:400-438 | the in-place loop leaves the maps and the outbox exactly as `Place` prescribes |
| SuperNode.SuperNode.OnRegister | src/core/SuperNode.ts:88-119 | in place, exactly the state and datagrams of `OnRegister` |
| SuperNode.SuperNode.OnKeepAlive | src/core/SuperNode.ts:120-130 | in place, exactly `OnKeepAlive`; nothing sent |
| SuperNode.SuperNode.OnResourceTransfer | src/core/SuperNode.ts:131-142 | in place, exactly `OnResourceTransfer` |
| SuperNode.SuperNode.RequestResource | src/core/SuperNode.ts:154-206 | one iteration of the request loop, exactly one `RequestOne` step |
| SuperNode.SuperNode.OnResourceRequest | src/core/SuperNode.ts:143-210 | the in-place loop, exactly `OnResourceRequest` |
| SuperNode.SuperNode.OnResourceResponse | src/core/SuperNode.ts:211-283 | in place, exactly `OnResourceResponse` |
| SuperNode.SuperNode.OnResourceSearch | src/core/SuperNode.ts:284-381 | in place, exactly `OnResourceSearch` |
| SuperNode.SuperNode.AreAllSuperNodesReady | src/core/SuperNode.ts:457-468 | the counting loop answers whether the number of names reported ready equals the number of partitions |
| SuperNode.SuperNode.Receive | src/core/SuperNode.ts:71-87 | one delivery, gate included, leaves exactly the state and datagrams of `Receive` |
| SuperNode.SuperNode.CheckDeadPeerNodes | src/core/SuperNode.ts:386-398 | deleting while visiting leaves exactly `Sweep` of the members |
| Peer.Advertised | src/core/PeerNode.ts:293-303 | one resource per directory entry, in listing order, with the entry's name and content digest |
| Peer.Registration | src/core/PeerNode.ts:68-88 | a register datagram exists iff the registry is non-empty and the directory exists; it goes to a registered coordinator and carries the peer's name, port and advertised resources |
| Peer.FirstSuccess | src/core/PeerNode.ts:50-60 | the retry loop stops at the first attempt that succeeds, and every earlier attempt failed |
| Peer.EmptyRegistryNeverConnects | src/core/PeerNode.ts:70-74 | with an empty registry no attempt succeeds |
| Peer.ServedName | src/core/PeerNode.ts:137-141 | only the first requested name is served; nothing when the list or that name is empty |
| Peer.OwnerOf | src/core/PeerNode.ts:177-194 | a holder exists iff its name, address and port are all present and non-empty/non-zero, and it carries those three values |
| Peer.PollRequests | src/core/PeerNode.ts:248-278 | A missing file changes nothing. Otherwise the snapshot becomes the file content, even when disconnected. A lookup is issued iff an earlier snapshot differs and the peer is associated, and it carries the new content |
| Peer.PollAsksOnce | src/core/PeerNode.ts:258-263 | polling the same content again never asks a second time |
| Peer.ChangeWhileDisconnectedIsLost | src/core/PeerNode.ts:267-276 | a change seen while disconnected is never asked for later |
| Peer.AssociationSurvivesRegistration | src/core/PeerNode.ts:119-122 | the coordinator a name resolved to is still the answer after any further registrations |
| Peer.PeerNode.constructor | src/core/PeerNode.ts:30-39 | a peer starts unassociated, with no snapshot, no timers and an empty outbox |
| Peer.PeerNode.ReadResourcesDirectory | src/core/PeerNode.ts:282-305 | an error iff the directory is missing; otherwise the loop yields exactly the advertised resources |
| Peer.PeerNode.SendMessageToNode | src/core/PeerNode.ts:82 | an accepted datagram is appended, and a rejected one is not |
| Peer.PeerNode.SendRegistrationToSuperNode | src/core/PeerNode.ts:68-88 | resolves iff the attempt succeeds, with the drawn coordinator and the register datagram sent; otherwise nothing is sent |
| Peer.PeerNode.CheckNoSuperNodeRoutine | src/core/PeerNode.ts:90-102 | the earlier watchdog is cleared before a fresh one is scheduled, so exactly one is alive |
| Peer.PeerNode.Start | src/core/PeerNode.ts:50-66 | Connects iff some attempt succeeds, using the first. It sends exactly that attempt's register datagram and adds a listener and a watchdog that was not alive before, which becomes the only one. Otherwise nothing changes. It leaves the association unchanged |
| Peer.PeerNode.WatchdogTick | src/core/PeerNode.ts:95-101 | restarts iff not associated, and then the outcome is that of `start` (`StartRan`); otherwise nothing changes |
| Peer.PeerNode.OnRegisterResponse | src/core/PeerNode.ts:111-132 | Success: the association becomes the registry lookup of the name, and one keep-alive loop and one poller are started. Nothing is sent and no timer is touched. Failure: the outcome is that of `start` run again (`StartRan`) |
| Peer.PeerNode.OnResourceRequest | src/core/PeerNode.ts:133-173 | Sends the content of the first requested file, if held, to the observed address and claimed port. Sends nothing otherwise |
| Peer.PeerNode.OnResourceResponse | src/core/PeerNode.ts:174-209 | with a holder, exactly one resourceRequest for that one name, as this peer, to the holder; nothing otherwise |
| Peer.PeerNode.KeepAliveTick | src/core/PeerNode.ts:222-239 | nothing while unassociated; otherwise one keep-alive to the associated coordinator |
| Peer.PeerNode.RequestsPollTick | src/core/PeerNode.ts:241-280 | the snapshot and the request sent are exactly those of `PollRequests` |
| Peer.PeerNode.Receive | src/core/PeerNode.ts:104-220 | registerResponse has the outcome of OnRegisterResponse; resourceRequest sends the first requested file, if held, to the observed address and claimed port; resourceResponse asks the named holder for the one resource; only registerResponse changes the association, snapshot, listeners, watchdogs, the watchdog interval, keep-alive loops or pollers; tags the peer has no case for send nothing |

## Left out

- The transport (`sendMessageToNode` and the UDP socket) is not part of this model. A send is an append to `outbox`, and its failure is an input (the `failing` set, `sendOk`).
- Timers (`setInterval`, `wait`) and `Date.now`: each periodic task is one tick method, and the clock is a parameter.
- The 5000 ms back-off between registration attempts is not modelled.
- Asynchronous interleaving is not modelled. `handleResources` is not awaited by its callers, and a handler can be suspended at each `await`. The model runs one delivery to completion before the next.
- `crypto.randomUUID` is an input. The ids it returns are parameters, and `CoordinatorProofs.RequestPending` and `CoordinatorProofs.RequestStoresMisses` assume they are fresh.
- SHA-256 is a parameter (`digest`). Directory listings, file contents and the request file are inputs.
- JSON encoding and decoding are not modelled. Messages are a datatype, and snapshots are compared as lists of names rather than as `JSON.stringify` strings.
- Partition.PartitionOf: computes exactly on naturals. The source parses 16 hex digits into a double, which rounds values above 2^53 before `% N`, so its partition can differ for such digests.
- Partition.ParseHex: does not model `parseInt`'s leading whitespace, sign or `0x` prefix.
- Broadcasting readiness (`sendReadyMessagesRoutine`) is left out, being a network broadcast on a timer. Only the readiness map and the gate are modelled.
- Logging, colours and `toString` are left out.
- The peer's `resource` message, which is only logged, is modelled as having no effect.
- Pending searches never expire, and a lost search leaves its entry forever. The model keeps this behaviour and proves no bound on it.
- Peer.PeerNode.Start: the source's `while (true)` retries forever. The model runs over the finite list of attempts the environment offers and stops unconnected when they run out.
- Peer.PeerNode.OnResourceRequest: the file path is built with `path.join` from the requested name. Path normalisation is not modelled; the files are a map from name to content.
- Stacked listeners and timers are counted (`listeners`, `keepAliveLoops`, `requestPollers`), not run. Each `start` adds a listener, and each successful registerResponse adds a keep-alive loop and a poller. The duplicated handling they cause is not modelled.
- RingScenarios: the multi-hop lemmas assume a registry whose entry i has order i, and a successful send at every hop.
- Ring.NextAtPosition: stated only for a registry whose entry i has order i; the successor lookup by order works for any registry whose orders are a permutation of 0..N-1, which the model does not state.
- Ring.NextIsWalk: same positional-registry assumption as Ring.NextAtPosition.
