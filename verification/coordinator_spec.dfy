/** The coordinator ("super node") as a state machine on values: each handler
    takes the coordinator's maps and one inbound message and yields the new maps
    and the datagrams it sends. The class in module SuperNode runs the same
    handlers in place and is proved to agree with these functions. */
module CoordinatorSpec {
  import opened Messages
  import opened Registry
  import opened Partition

  /** A peer silent for longer than this many milliseconds is evicted. */
  const KeepAliveTimeoutMs: int := 10000

  datatype PeerNodeKeepAliveData = PeerNodeKeepAliveData(peerNode: Contact, lastKeepAliveTime: int)

  /** The four maps a coordinator owns. */
  datatype CoordState = CoordState(
    readySuperNodes: map<string, bool>,
    peerNodesData: map<string, PeerNodeKeepAliveData>,
    dht: map<string, Contact>,
    pendingResourceRequestsData: map<string, Contact>)

  /** Progress of one handler: the state so far, the datagrams sent so far while
      handling this message, and whether the handler has already returned. */
  datatype Step = Step(st: CoordState, out: seq<Envelope>, halted: bool)

  /** Everything one delivery brings besides the coordinator's own state: the
      message, the sender's observed address, the clock, the ids that
      `randomUUID` hands out (one per requested name, used on a local miss) and
      the numbers of the send attempts of this delivery that the transport
      rejects (numbered from 0). */
  datatype Event = Event(msg: Message, remoteAddress: string, now: int,
                         freshIds: seq<string>, failing: set<nat>)

  function Begin(st: CoordState): Step {
    Step(st, [], false)
  }

  /** One send attempt. Every handler returns as soon as a send fails, so the
      attempts before this one all succeeded and its number is |s.out|. */
  function Send(s: Step, e: Envelope, failing: set<nat>): (r: Step)
    ensures r.st == s.st
    ensures r.halted <==> s.halted || |s.out| in failing
    ensures r.out == if |s.out| in failing then s.out else s.out + [e]
  {
    if |s.out| in failing then s.(halted := true) else s.(out := s.out + [e])
  }

  /** Does this coordinator own the resource's partition? */
  predicate Owns(me: SuperNodeInfo, n: nat, res: Resource) {
    PartitionOf(res.contentHash, n) == Some(me.order)
  }

  function TransferOf(me: SuperNodeInfo, peer: Contact, res: Resource): Message {
    ResourceTransfer(me.name, peer.name, peer.address, peer.port, res)
  }

  /** One iteration of `handleResources`: store an owned resource against
      `peer`, otherwise hand it to the successor; stop when there is none. */
  function PlaceOne(me: SuperNodeInfo, ring: seq<SuperNodeInfo>, s: Step, res: Resource,
                    peer: Contact, failing: set<nat>): Step
  {
    if Owns(me, |ring|, res) then s.(st := s.st.(dht := s.st.dht[res.fileName := peer]))
    else match GetNextSuperNode(ring, me.order)
      case None => s.(halted := true)
      case Some(next) => Send(s, Envelope(next.AsContact(), TransferOf(me, peer, res)), failing)
  }

  /** `handleResources`: store each owned resource against `peer`, hand every
      other one to the successor; return at the first resource that has no
      successor to go to or whose transfer cannot be sent. */
  function Place(me: SuperNodeInfo, ring: seq<SuperNodeInfo>, s: Step, resources: seq<Resource>,
                 peer: Contact, failing: set<nat>): (r: Step)
    decreases |resources|
    ensures r.st.readySuperNodes == s.st.readySuperNodes
    ensures r.st.peerNodesData == s.st.peerNodesData
    ensures r.st.pendingResourceRequestsData == s.st.pendingResourceRequestsData
    ensures |s.out| <= |r.out| && r.out[..|s.out|] == s.out
    ensures s.halted ==> r == s
  {
    if s.halted || resources == [] then s
    else Place(me, ring, PlaceOne(me, ring, s, resources[0], peer, failing), resources[1..], peer, failing)
  }

  /** register: answer the peer at its observed address and claimed port; only
      once that answer is sent, record the peer as alive now and place its
      resources. */
  function OnRegister(me: SuperNodeInfo, ring: seq<SuperNodeInfo>, st: CoordState, msg: Message,
                      remoteAddress: string, now: int, failing: set<nat>): Step
    requires msg.Register?
  {
    var peer := Contact(msg.peerNodeName, remoteAddress, msg.peerNodePort);
    var s := Send(Begin(st), Envelope(peer, RegisterResponse(me.name, Success)), failing);
    if s.halted then s
    else
      var alive := PeerNodeKeepAliveData(peer, now);
      Place(me, ring, s.(st := st.(peerNodesData := st.peerNodesData[msg.peerNodeName := alive])),
            msg.resources, peer, failing)
  }

  /** keepAlive: refresh the timestamp of a peer that is already a member. */
  function OnKeepAlive(st: CoordState, peerNodeName: string, now: int): CoordState {
    if peerNodeName in st.peerNodesData then
      var data := st.peerNodesData[peerNodeName];
      st.(peerNodesData := st.peerNodesData[peerNodeName := data.(lastKeepAliveTime := now)])
    else st
  }

  /** resourceTransfer: place the one resource on behalf of the peer named in it. */
  function OnResourceTransfer(me: SuperNodeInfo, ring: seq<SuperNodeInfo>, st: CoordState, msg: Message,
                              failing: set<nat>): Step
    requires msg.ResourceTransfer?
  {
    var peer := Contact(msg.peerNodeName, msg.peerNodeAddress, msg.peerNodePort);
    Place(me, ring, Begin(st), [msg.resource], peer, failing)
  }

  function LocalAnswer(me: SuperNodeInfo, owner: Contact, resourceName: string, id: Option<string>): Message {
    ResourceResponse(id, me.name, Some(owner.name), Some(owner.address), Some(owner.port), resourceName)
  }

  /** One iteration of resourceRequest's loop: answer a name found in the local
      DHT directly; for any other name remember `id` against the requester and
      start a search at the successor, or stop when there is none. */
  function RequestOne(me: SuperNodeInfo, ring: seq<SuperNodeInfo>, s: Step, requester: Contact,
                      name: string, id: string, failing: set<nat>): Step
  {
    if name in s.st.dht then
      Send(s, Envelope(requester, LocalAnswer(me, s.st.dht[name], name, None)), failing)
    else match GetNextSuperNode(ring, me.order)
      case None => s.(halted := true)
      case Some(next) =>
        var remembered := s.st.(pendingResourceRequestsData := s.st.pendingResourceRequestsData[id := requester]);
        Send(s.(st := remembered), Envelope(next.AsContact(), ResourceSearch(id, me.name, name)), failing)
  }

  /** The loop of resourceRequest over the requested names, with one fresh id
      per name. Returns at the first failed send or missing successor. */
  function RequestEach(me: SuperNodeInfo, ring: seq<SuperNodeInfo>, s: Step, requester: Contact,
                       names: seq<string>, freshIds: seq<string>, failing: set<nat>): (r: Step)
    requires |freshIds| == |names|
    decreases |names|
    ensures r.st.readySuperNodes == s.st.readySuperNodes
    ensures r.st.peerNodesData == s.st.peerNodesData
    ensures r.st.dht == s.st.dht
    ensures |s.out| <= |r.out| && r.out[..|s.out|] == s.out
    ensures s.halted ==> r == s
  {
    if s.halted || names == [] then s
    else RequestEach(me, ring, RequestOne(me, ring, s, requester, names[0], freshIds[0], failing),
                     requester, names[1..], freshIds[1..], failing)
  }

  /** resourceRequest: the requester is the sender's observed address with the
      port it claims. */
  function OnResourceRequest(me: SuperNodeInfo, ring: seq<SuperNodeInfo>, st: CoordState, msg: Message,
                             remoteAddress: string, freshIds: seq<string>, failing: set<nat>): Step
    requires msg.ResourceRequest? && |freshIds| == |msg.resourceNames|
  {
    var requester := Contact(msg.peerNodeName, remoteAddress, msg.peerNodePort);
    RequestEach(me, ring, Begin(st), requester, msg.resourceNames, freshIds, failing)
  }

  /** An id that is missing or empty counts as absent. */
  predicate HasId(id: Option<string>) {
    id.Some? && id.value != ""
  }

  /** resourceResponse: an answer for a search this coordinator started goes to
      the requester without its id; any other answer moves on to the successor. */
  function OnResourceResponse(me: SuperNodeInfo, ring: seq<SuperNodeInfo>, st: CoordState, msg: Message,
                              failing: set<nat>): Step
    requires msg.ResourceResponse?
  {
    if !HasId(msg.responseId) then Begin(st)
    else
      var id := msg.responseId.value;
      if id in st.pendingResourceRequestsData then
        var requester := st.pendingResourceRequestsData[id];
        var forgotten := st.(pendingResourceRequestsData := st.pendingResourceRequestsData - {id});
        var answer := ResourceResponse(None, me.name, msg.ownerName, msg.ownerAddress, msg.ownerPort, msg.resourceName);
        Send(Begin(forgotten), Envelope(requester, answer), failing)
      else match GetNextSuperNode(ring, me.order)
        case None => Begin(st).(halted := true)
        case Some(next) =>
          var relayed := ResourceResponse(Some(id), me.name, msg.ownerName, msg.ownerAddress, msg.ownerPort, msg.resourceName);
          Send(Begin(st), Envelope(next.AsContact(), relayed), failing)
  }

  /** The answer that ends a search which went all the way round: no owner. */
  function NotFound(me: SuperNodeInfo, resourceName: string): Message {
    ResourceResponse(None, me.name, None, None, None, resourceName)
  }

  /** resourceSearch: a search this coordinator started has come full circle;
      otherwise answer it from the local DHT or pass it on, in both cases to the
      successor. */
  function OnResourceSearch(me: SuperNodeInfo, ring: seq<SuperNodeInfo>, st: CoordState, msg: Message,
                            failing: set<nat>): Step
    requires msg.ResourceSearch?
  {
    if msg.id in st.pendingResourceRequestsData then
      var requester := st.pendingResourceRequestsData[msg.id];
      var forgotten := st.(pendingResourceRequestsData := st.pendingResourceRequestsData - {msg.id});
      Send(Begin(forgotten), Envelope(requester, NotFound(me, msg.resourceName)), failing)
    else match GetNextSuperNode(ring, me.order)
      case None => Begin(st).(halted := true)
      case Some(next) =>
        if msg.resourceName in st.dht then
          var answer := LocalAnswer(me, st.dht[msg.resourceName], msg.resourceName, Some(msg.id));
          Send(Begin(st), Envelope(next.AsContact(), answer), failing)
        else
          Send(Begin(st), Envelope(next.AsContact(), ResourceSearch(msg.id, me.name, msg.resourceName)), failing)
  }

  /** The liveness sweep: keep exactly the peers heard from within the timeout. */
  function Sweep(peers: map<string, PeerNodeKeepAliveData>, now: int): (r: map<string, PeerNodeKeepAliveData>)
    ensures forall k :: k in r <==> k in peers && now - peers[k].lastKeepAliveTime <= KeepAliveTimeoutMs
    ensures forall k :: k in r ==> r[k] == peers[k]
  {
    map k | k in peers && !(now - peers[k].lastKeepAliveTime > KeepAliveTimeoutMs) :: peers[k]
  }

  /** The names reported ready (every value stored is true). */
  function ReadyNames(ready: map<string, bool>): set<string> {
    set k | k in ready && ready[k]
  }

  /** The gate: as many names reported ready as there are partitions. */
  predicate AllSuperNodesReady(ready: map<string, bool>, ring: seq<SuperNodeInfo>) {
    |ReadyNames(ready)| == GetPartitionsNumber(ring)
  }

  predicate WellFormedEvent(ev: Event) {
    ev.msg.ResourceRequest? ==> |ev.freshIds| == |ev.msg.resourceNames|
  }

  /** The message listener: readiness reports are always recorded; anything
      else is dropped until every coordinator is ready, then dispatched on its
      tag. Tags a coordinator has no case for are ignored. */
  function Receive(me: SuperNodeInfo, ring: seq<SuperNodeInfo>, st: CoordState, ev: Event): Step
    requires WellFormedEvent(ev)
  {
    var msg := ev.msg;
    if msg.SuperNodeReady? then
      Begin(st.(readySuperNodes := st.readySuperNodes[msg.superNodeName := true]))
    else if !AllSuperNodesReady(st.readySuperNodes, ring) then Begin(st)
    else match msg
      case Register(_, _, _) => OnRegister(me, ring, st, msg, ev.remoteAddress, ev.now, ev.failing)
      case KeepAlive(name) => Begin(OnKeepAlive(st, name, ev.now))
      case ResourceTransfer(_, _, _, _, _) => OnResourceTransfer(me, ring, st, msg, ev.failing)
      case ResourceRequest(_, _, _) => OnResourceRequest(me, ring, st, msg, ev.remoteAddress, ev.freshIds, ev.failing)
      case ResourceResponse(_, _, _, _, _, _) => OnResourceResponse(me, ring, st, msg, ev.failing)
      case ResourceSearch(_, _, _) => OnResourceSearch(me, ring, st, msg, ev.failing)
      case RegisterResponse(_, _) => Begin(st)
      case ResourceContent(_, _) => Begin(st)
  }
}
