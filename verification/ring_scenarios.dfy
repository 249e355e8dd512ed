/** Messages travelling round the ring. On a registry whose entry i has order
    i, every coordinator passes what it does not handle to the entry at the
    next position, so a transfer reaches the owner of its partition after
    (partition - start) mod N hops, and a search that no coordinator can answer
    is back at the coordinator that started it after exactly N hops, where the
    cycle check answers the requester. */
module RingScenarios {
  import opened Messages
  import opened Registry
  import opened Partition
  import opened CoordinatorSpec
  import opened Ring

  /** The coordinator at position q owns a resource iff q is its partition. */
  lemma OwnsAtPosition(ring: seq<SuperNodeInfo>, q: nat, res: Resource)
    requires RingPositions(ring) && q < |ring|
    ensures Owns(ring[q], |ring|, res) <==> PartitionOf(res.contentHash, |ring|) == Some(q)
  {
    assert ring[q].order == q;
  }

  /** The holder a resourceTransfer names. */
  function Holder(msg: Message): Contact
    requires msg.ResourceTransfer?
  {
    Contact(msg.peerNodeName, msg.peerNodeAddress, msg.peerNodePort)
  }

  /** A transfer carries one resource: the handler is one placement step. */
  lemma SingleTransfer(me: SuperNodeInfo, ring: seq<SuperNodeInfo>, st: CoordState, msg: Message)
    requires msg.ResourceTransfer?
    ensures OnResourceTransfer(me, ring, st, msg, {}) == PlaceOne(me, ring, Begin(st), msg.resource, Holder(msg), {})
  {
    assert [msg.resource][1..] == [];
    var s1 := PlaceOne(me, ring, Begin(st), msg.resource, Holder(msg), {});
    assert Place(me, ring, s1, [], Holder(msg), {}) == s1;
  }

  /** A transfer that entered the ring at position p, seen k hops later: before
      it reaches its partition t each coordinator leaves its own state alone
      and hands the same resource and holder to the next position; at hop
      Hops(N, p, t) it is at t, which stores it and sends nothing. */
  lemma PlacementHop(ring: seq<SuperNodeInfo>, p: nat, k: nat, st: CoordState, msg: Message)
    requires RingPositions(ring) && p < |ring| && msg.ResourceTransfer?
    requires PartitionOf(msg.resource.contentHash, |ring|).Some?
    requires k <= Hops(|ring|, p, PartitionOf(msg.resource.contentHash, |ring|).value)
    ensures Walk(|ring|, p, k) < |ring| && Walk(|ring|, p, k + 1) < |ring|
    ensures var n := |ring|;
            var t := PartitionOf(msg.resource.contentHash, n).value;
            var q := Walk(n, p, k);
            var r := OnResourceTransfer(ring[q], ring, st, msg, {});
            (k < Hops(n, p, t) ==>
              r == Step(st, [Envelope(ring[Walk(n, p, k + 1)].AsContact(), TransferOf(ring[q], Holder(msg), msg.resource))], false)) &&
            (k == Hops(n, p, t) ==>
              q == t && r == Step(st.(dht := st.dht[msg.resource.fileName := Holder(msg)]), [], false))
  {
    var n := |ring|;
    var t := PartitionOf(msg.resource.contentHash, n).value;
    HopsReach(n, p, t);
    WalkIsShift(n, p, k);
    NextIsWalk(ring, p, k);
    var q := Walk(n, p, k);
    OwnsAtPosition(ring, q, msg.resource);
    SingleTransfer(ring[q], ring, st, msg);
  }

  /** A resource whose hash does not parse has no owner: every coordinator
      passes it on to the next position, so its transfer never stops
      circulating. */
  lemma UnparsableHashCirculates(ring: seq<SuperNodeInfo>, q: nat, st: CoordState, msg: Message)
    requires RingPositions(ring) && q < |ring| && msg.ResourceTransfer?
    requires PartitionOf(msg.resource.contentHash, |ring|).None?
    ensures OnResourceTransfer(ring[q], ring, st, msg, {}) ==
            Step(st, [Envelope(ring[(q + 1) % |ring|].AsContact(), TransferOf(ring[q], Holder(msg), msg.resource))], false)
  {
    NextAtPosition(ring, q);
    assert ring[q].order == q;
    SingleTransfer(ring[q], ring, st, msg);
  }

  /** A search id that only the originator o remembers, for a name no other
      coordinator stores. */
  ghost predicate OnlyOriginatorKnows(ring: seq<SuperNodeInfo>, states: seq<CoordState>, o: nat,
                                      id: string, name: string)
  {
    |states| == |ring| && o < |ring| &&
    id in states[o].pendingResourceRequestsData &&
    forall q :: 0 <= q < |ring| && q != o ==>
      id !in states[q].pendingResourceRequestsData && name !in states[q].dht
  }

  /** The miss case of lookup, k hops after the originator o sent its search:
      for 0 < k < N the coordinator there changes nothing and hands the same
      search to the next position; at k = N the search is back at o, which
      forgets the id and tells the requester that nobody owns the name. */
  lemma SearchMissHop(ring: seq<SuperNodeInfo>, states: seq<CoordState>, o: nat, id: string, name: string,
                      k: nat, sender: string)
    requires RingPositions(ring) && OnlyOriginatorKnows(ring, states, o, id, name)
    requires 1 <= k <= |ring|
    ensures Walk(|ring|, o, k) < |ring| && Walk(|ring|, o, k + 1) < |ring|
    ensures var n := |ring|;
            var q := Walk(n, o, k);
            var r := OnResourceSearch(ring[q], ring, states[q], ResourceSearch(id, sender, name), {});
            (k < n ==>
              r == Step(states[q], [Envelope(ring[Walk(n, o, k + 1)].AsContact(), ResourceSearch(id, ring[q].name, name))], false)) &&
            (k == n ==>
              q == o &&
              r == Step(states[o].(pendingResourceRequestsData := states[o].pendingResourceRequestsData - {id}),
                        [Envelope(states[o].pendingResourceRequestsData[id], NotFound(ring[o], name))], false))
  {
    var n := |ring|;
    FullCycle(n, o);
    WalkIsShift(n, o, k);
    NextIsWalk(ring, o, k);
  }

  /** The hit case of lookup: the first coordinator after o that stores the
      name, h hops away, sends the owner (with the id) to the next position;
      every coordinator after it relays that answer unchanged, and when it is
      back at o, N hops after the search left, o forgets the id and gives the
      owner to the requester without the id. */
  lemma AnswerRelayHop(ring: seq<SuperNodeInfo>, states: seq<CoordState>, o: nat, id: string,
                       k: nat, msg: Message)
    requires RingPositions(ring) && |states| == |ring| && o < |ring|
    requires id != "" && id in states[o].pendingResourceRequestsData
    requires forall q :: 0 <= q < |ring| && q != o ==> id !in states[q].pendingResourceRequestsData
    requires 1 <= k <= |ring|
    requires msg.ResourceResponse? && msg.responseId == Some(id)
    ensures Walk(|ring|, o, k) < |ring| && Walk(|ring|, o, k + 1) < |ring|
    ensures var n := |ring|;
            var q := Walk(n, o, k);
            var r := OnResourceResponse(ring[q], ring, states[q], msg, {});
            (k < n ==>
              r == Step(states[q], [Envelope(ring[Walk(n, o, k + 1)].AsContact(),
                         ResourceResponse(Some(id), ring[q].name, msg.ownerName, msg.ownerAddress, msg.ownerPort, msg.resourceName))], false)) &&
            (k == n ==>
              q == o &&
              r == Step(states[o].(pendingResourceRequestsData := states[o].pendingResourceRequestsData - {id}),
                        [Envelope(states[o].pendingResourceRequestsData[id],
                          ResourceResponse(None, ring[o].name, msg.ownerName, msg.ownerAddress, msg.ownerPort, msg.resourceName))], false))
  {
    var n := |ring|;
    FullCycle(n, o);
    WalkIsShift(n, o, k);
    NextIsWalk(ring, o, k);
  }

  /** Where the answer of the hit case starts: a coordinator other than the
      originator that stores the name sends its owner, tagged with the search
      id, to the next position and changes nothing. */
  lemma SearchHit(ring: seq<SuperNodeInfo>, q: nat, st: CoordState, id: string, name: string, sender: string)
    requires RingPositions(ring) && q < |ring|
    requires id !in st.pendingResourceRequestsData && name in st.dht
    ensures OnResourceSearch(ring[q], ring, st, ResourceSearch(id, sender, name), {}) ==
            Step(st, [Envelope(ring[(q + 1) % |ring|].AsContact(), LocalAnswer(ring[q], st.dht[name], name, Some(id)))], false)
  {
    NextAtPosition(ring, q);
    assert ring[q].order == q;
  }
}
