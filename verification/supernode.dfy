/** The coordinator process: its four maps live in fields that the message
    handlers and the liveness sweep update in place. Each method is proved to
    leave the maps, and the datagrams it adds to `outbox`, exactly as the
    corresponding function of CoordinatorSpec prescribes. */
module SuperNode {
  import opened Messages
  import opened Registry
  import opened Partition
  import opened CoordinatorSpec

  /** The names among `counted` whose readiness flag is set. */
  ghost function ReadyAmong(ready: map<string, bool>, counted: set<string>): set<string> {
    set k | k in counted && k in ready && ready[k]
  }

  /** Counting one more name adds it to the ready ones iff its flag is set. */
  lemma ReadyAmongAdd(ready: map<string, bool>, counted: set<string>, name: string)
    requires name in ready && name !in counted
    ensures |ReadyAmong(ready, counted + {name})| ==
            |ReadyAmong(ready, counted)| + (if ready[name] then 1 else 0)
  {
    if ready[name] {
      assert ReadyAmong(ready, counted + {name}) == ReadyAmong(ready, counted) + {name};
    } else {
      assert ReadyAmong(ready, counted + {name}) == ReadyAmong(ready, counted);
    }
  }

  class SuperNode {
    const me: SuperNodeInfo
    const system: System
    var readySuperNodes: map<string, bool>
    var peerNodesData: map<string, PeerNodeKeepAliveData>
    var dht: map<string, Contact>
    var pendingResourceRequestsData: map<string, Contact>
    /** Every datagram handed to the transport and accepted by it, oldest first. */
    var outbox: seq<Envelope>

    function State(): CoordState
      reads this
    {
      CoordState(readySuperNodes, peerNodesData, dht, pendingResourceRequestsData)
    }

    constructor (name: string, address: string, port: nat, order: nat, system: System)
      ensures me == SuperNodeInfo(name, address, port, order) && this.system == system
      ensures State() == CoordState(map[], map[], map[], map[]) && outbox == []
    {
      me := SuperNodeInfo(name, address, port, order);
      this.system := system;
      readySuperNodes := map[];
      peerNodesData := map[];
      dht := map[];
      pendingResourceRequestsData := map[];
      outbox := [];
    }

    /** Hands `e` to the transport as send attempt number |outbox| - eventStart
        of the current delivery; `failing` lists the attempts it rejects. */
    method SendMessageToNode(e: Envelope, failing: set<nat>, eventStart: nat) returns (ok: bool)
      requires eventStart <= |outbox|
      modifies this`outbox
      ensures ok <==> |old(outbox)| - eventStart !in failing
      ensures outbox == if ok then old(outbox) + [e] else old(outbox)
    {
      ok := |outbox| - eventStart !in failing;
      if ok {
        outbox := outbox + [e];
      }
    }

    /** One iteration of `handleResources`; `halted` reports that the loop
        returns here. */
    method HandleResource(resource: Resource, peerNode: Contact, failing: set<nat>, eventStart: nat)
      returns (halted: bool)
      requires eventStart <= |outbox|
      modifies this
      ensures eventStart <= |outbox| && outbox[..eventStart] == old(outbox)[..eventStart]
      ensures Step(State(), outbox[eventStart..], halted) ==
              PlaceOne(me, system.superNodes, Step(old(State()), old(outbox)[eventStart..], false), resource, peerNode, failing)
    {
      halted := false;
      var partition := PartitionOf(resource.contentHash, GetPartitionsNumber(system.superNodes));
      if partition == Some(me.order) {
        dht := dht[resource.fileName := peerNode];
      } else {
        var nextSuperNode := GetNextSuperNode(system.superNodes, me.order);
        if nextSuperNode.None? {
          halted := true;
        } else {
          var e := Envelope(nextSuperNode.value.AsContact(), TransferOf(me, peerNode, resource));
          var ok := SendMessageToNode(e, failing, eventStart);
          halted := !ok;
        }
      }
    }

    /** `handleResources`, sending as part of the delivery whose datagrams
        start at outbox[eventStart]. */
    method HandleResources(resources: seq<Resource>, peerNode: Contact, failing: set<nat>, eventStart: nat)
      requires eventStart <= |outbox|
      modifies this
      ensures var r := Place(me, system.superNodes, Step(old(State()), old(outbox)[eventStart..], false),
                             resources, peerNode, failing);
              State() == r.st && outbox == old(outbox)[..eventStart] + r.out
    {
      ghost var ring := system.superNodes;
      ghost var goal := Place(me, ring, Step(State(), outbox[eventStart..], false), resources, peerNode, failing);
      var i := 0;
      var halted := false;
      while i < |resources| && !halted
        invariant 0 <= i <= |resources|
        invariant ring == system.superNodes
        invariant eventStart <= |outbox| && outbox[..eventStart] == old(outbox)[..eventStart]
        invariant goal == Place(me, ring, Step(State(), outbox[eventStart..], halted), resources[i..], peerNode, failing)
      {
        assert resources[i..][1..] == resources[i + 1..];
        halted := HandleResource(resources[i], peerNode, failing, eventStart);
        i := i + 1;
      }
      assert outbox == outbox[..eventStart] + outbox[eventStart..];
    }

    method OnRegister(msg: Message, remoteAddress: string, now: int, failing: set<nat>)
      requires msg.Register?
      modifies this
      ensures var r := CoordinatorSpec.OnRegister(me, system.superNodes, old(State()), msg, remoteAddress, now, failing);
              State() == r.st && outbox == old(outbox) + r.out
    {
      var eventStart := |outbox|;
      var peerNode := Contact(msg.peerNodeName, remoteAddress, msg.peerNodePort);
      var response := Envelope(peerNode, RegisterResponse(me.name, Success));
      ghost var sent := Send(Begin(State()), response, failing);
      var ok := SendMessageToNode(response, failing, eventStart);
      if !ok {
        assert outbox == old(outbox) + sent.out;
        return;
      }
      assert outbox[eventStart..] == sent.out && outbox[..eventStart] == old(outbox);
      peerNodesData := peerNodesData[msg.peerNodeName := PeerNodeKeepAliveData(peerNode, now)];
      assert State() == sent.st.(peerNodesData := sent.st.peerNodesData[msg.peerNodeName := PeerNodeKeepAliveData(peerNode, now)]);
      HandleResources(msg.resources, peerNode, failing, eventStart);
    }

    method OnKeepAlive(peerNodeName: string, now: int)
      modifies this
      ensures State() == CoordinatorSpec.OnKeepAlive(old(State()), peerNodeName, now)
      ensures outbox == old(outbox)
    {
      if peerNodeName in peerNodesData {
        var peerNodeData := peerNodesData[peerNodeName];
        peerNodesData := peerNodesData[peerNodeName := peerNodeData.(lastKeepAliveTime := now)];
      }
    }

    method OnResourceTransfer(msg: Message, failing: set<nat>)
      requires msg.ResourceTransfer?
      modifies this
      ensures var r := CoordinatorSpec.OnResourceTransfer(me, system.superNodes, old(State()), msg, failing);
              State() == r.st && outbox == old(outbox) + r.out
    {
      var peerNode := Contact(msg.peerNodeName, msg.peerNodeAddress, msg.peerNodePort);
      HandleResources([msg.resource], peerNode, failing, |outbox|);
    }

    /** One iteration of resourceRequest's loop, with `uniqueId` as the id
        `randomUUID` would return on a miss. */
    method RequestResource(resourceName: string, uniqueId: string, peerNodeToSend: Contact,
                           failing: set<nat>, eventStart: nat)
      returns (halted: bool)
      requires eventStart <= |outbox|
      modifies this
      ensures eventStart <= |outbox| && outbox[..eventStart] == old(outbox)[..eventStart]
      ensures Step(State(), outbox[eventStart..], halted) ==
              RequestOne(me, system.superNodes, Step(old(State()), old(outbox)[eventStart..], false),
                         peerNodeToSend, resourceName, uniqueId, failing)
    {
      halted := false;
      if resourceName in dht {
        var e := Envelope(peerNodeToSend, LocalAnswer(me, dht[resourceName], resourceName, None));
        var ok := SendMessageToNode(e, failing, eventStart);
        halted := !ok;
      } else {
        var nextSuperNode := GetNextSuperNode(system.superNodes, me.order);
        if nextSuperNode.None? {
          halted := true;
        } else {
          pendingResourceRequestsData := pendingResourceRequestsData[uniqueId := peerNodeToSend];
          var e := Envelope(nextSuperNode.value.AsContact(), ResourceSearch(uniqueId, me.name, resourceName));
          var ok := SendMessageToNode(e, failing, eventStart);
          halted := !ok;
        }
      }
    }

    /** resourceRequest; `freshIds[i]` is the id drawn for the i-th name. */
    method OnResourceRequest(msg: Message, remoteAddress: string, freshIds: seq<string>, failing: set<nat>)
      requires msg.ResourceRequest? && |freshIds| == |msg.resourceNames|
      modifies this
      ensures var r := CoordinatorSpec.OnResourceRequest(me, system.superNodes, old(State()), msg,
                                                         remoteAddress, freshIds, failing);
              State() == r.st && outbox == old(outbox) + r.out
    {
      var eventStart := |outbox|;
      var names := msg.resourceNames;
      var peerNodeToSend := Contact(msg.peerNodeName, remoteAddress, msg.peerNodePort);
      ghost var ring := system.superNodes;
      ghost var goal := RequestEach(me, ring, Begin(State()), peerNodeToSend, names, freshIds, failing);
      assert outbox[eventStart..] == [];
      var i := 0;
      var halted := false;
      while i < |names| && !halted
        invariant 0 <= i <= |names|
        invariant ring == system.superNodes
        invariant eventStart <= |outbox| && outbox[..eventStart] == old(outbox)
        invariant goal == RequestEach(me, ring, Step(State(), outbox[eventStart..], halted), peerNodeToSend,
                                      names[i..], freshIds[i..], failing)
      {
        assert names[i..][1..] == names[i + 1..] && freshIds[i..][1..] == freshIds[i + 1..];
        halted := RequestResource(names[i], freshIds[i], peerNodeToSend, failing, eventStart);
        i := i + 1;
      }
      assert outbox == outbox[..eventStart] + outbox[eventStart..];
    }

    method OnResourceResponse(msg: Message, failing: set<nat>)
      requires msg.ResourceResponse?
      modifies this
      ensures var r := CoordinatorSpec.OnResourceResponse(me, system.superNodes, old(State()), msg, failing);
              State() == r.st && outbox == old(outbox) + r.out
    {
      if !HasId(msg.responseId) {
        return;
      }
      var id := msg.responseId.value;
      var eventStart := |outbox|;
      if id in pendingResourceRequestsData {
        var peerNode := pendingResourceRequestsData[id];
        pendingResourceRequestsData := pendingResourceRequestsData - {id};
        var answer := ResourceResponse(None, me.name, msg.ownerName, msg.ownerAddress, msg.ownerPort, msg.resourceName);
        var _ := SendMessageToNode(Envelope(peerNode, answer), failing, eventStart);
      } else {
        var nextSuperNode := GetNextSuperNode(system.superNodes, me.order);
        if nextSuperNode.None? {
          return;
        }
        var relayed := ResourceResponse(Some(id), me.name, msg.ownerName, msg.ownerAddress, msg.ownerPort, msg.resourceName);
        var _ := SendMessageToNode(Envelope(nextSuperNode.value.AsContact(), relayed), failing, eventStart);
      }
    }

    method OnResourceSearch(msg: Message, failing: set<nat>)
      requires msg.ResourceSearch?
      modifies this
      ensures var r := CoordinatorSpec.OnResourceSearch(me, system.superNodes, old(State()), msg, failing);
              State() == r.st && outbox == old(outbox) + r.out
    {
      var eventStart := |outbox|;
      if msg.id in pendingResourceRequestsData {
        var peerNodeToSend := pendingResourceRequestsData[msg.id];
        pendingResourceRequestsData := pendingResourceRequestsData - {msg.id};
        var _ := SendMessageToNode(Envelope(peerNodeToSend, NotFound(me, msg.resourceName)), failing, eventStart);
      } else {
        var nextSuperNode := GetNextSuperNode(system.superNodes, me.order);
        if nextSuperNode.None? {
          return;
        }
        var next := nextSuperNode.value.AsContact();
        if msg.resourceName in dht {
          var answer := LocalAnswer(me, dht[msg.resourceName], msg.resourceName, Some(msg.id));
          var _ := SendMessageToNode(Envelope(next, answer), failing, eventStart);
        } else {
          var search := ResourceSearch(msg.id, me.name, msg.resourceName);
          var _ := SendMessageToNode(Envelope(next, search), failing, eventStart);
        }
      }
    }

    /** The readiness gate, counting the names whose flag is set. */
    method AreAllSuperNodesReady() returns (ready: bool)
      ensures ready == AllSuperNodesReady(readySuperNodes, system.superNodes)
    {
      var superNodesAmount := GetPartitionsNumber(system.superNodes);
      var readySuperNodesCount := 0;
      var unvisited := readySuperNodes.Keys;
      ghost var counted: set<string> := {};
      while unvisited != {}
        invariant unvisited !! counted && unvisited + counted == readySuperNodes.Keys
        invariant readySuperNodesCount == |ReadyAmong(readySuperNodes, counted)|
        decreases unvisited
      {
        var name :| name in unvisited;
        ReadyAmongAdd(readySuperNodes, counted, name);
        if readySuperNodes[name] {
          readySuperNodesCount := readySuperNodesCount + 1;
        }
        unvisited := unvisited - {name};
        counted := counted + {name};
      }
      assert ReadyAmong(readySuperNodes, counted) == ReadyNames(readySuperNodes);
      ready := readySuperNodesCount == superNodesAmount;
    }

    /** The listener: dispatch one delivery, behind the readiness gate. */
    method Receive(ev: Event)
      requires WellFormedEvent(ev)
      modifies this
      ensures var r := CoordinatorSpec.Receive(me, system.superNodes, old(State()), ev);
              State() == r.st && outbox == old(outbox) + r.out
    {
      var msg := ev.msg;
      if msg.SuperNodeReady? {
        readySuperNodes := readySuperNodes[msg.superNodeName := true];
        return;
      }
      var ready := AreAllSuperNodesReady();
      if !ready {
        return;
      }
      match msg {
        case Register(_, _, _) =>
          OnRegister(msg, ev.remoteAddress, ev.now, ev.failing);
        case KeepAlive(name) =>
          OnKeepAlive(name, ev.now);
        case ResourceTransfer(_, _, _, _, _) =>
          OnResourceTransfer(msg, ev.failing);
        case ResourceRequest(_, _, _) =>
          OnResourceRequest(msg, ev.remoteAddress, ev.freshIds, ev.failing);
        case ResourceResponse(_, _, _, _, _, _) =>
          OnResourceResponse(msg, ev.failing);
        case ResourceSearch(_, _, _) =>
          OnResourceSearch(msg, ev.failing);
        case RegisterResponse(_, _) =>
        case ResourceContent(_, _) =>
      }
    }

    /** The body of the periodic liveness sweep: delete, while visiting every
        member, each one silent for more than the timeout. */
    method CheckDeadPeerNodes(now: int)
      modifies this`peerNodesData
      ensures peerNodesData == Sweep(old(peerNodesData), now)
    {
      ghost var peers := peerNodesData;
      var unvisited := peerNodesData.Keys;
      while unvisited != {}
        invariant unvisited <= peers.Keys
        invariant forall k :: k in peerNodesData <==>
          k in peers && (k in unvisited || now - peers[k].lastKeepAliveTime <= KeepAliveTimeoutMs)
        invariant forall k :: k in peerNodesData ==> peerNodesData[k] == peers[k]
        decreases unvisited
      {
        var nodeName :| nodeName in unvisited;
        if now - peerNodesData[nodeName].lastKeepAliveTime > KeepAliveTimeoutMs {
          peerNodesData := peerNodesData - {nodeName};
        }
        unvisited := unvisited - {nodeName};
      }
      assert peerNodesData.Keys == Sweep(peers, now).Keys;
    }
  }
}
