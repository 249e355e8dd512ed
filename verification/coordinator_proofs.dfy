/** What the coordinator's handlers guarantee, proved on the step functions of
    CoordinatorSpec: placement writes exactly the owned resources and forwards
    the rest in order, registration answers before it records, lookups never
    touch the DHT and remember one fresh id per local miss, and nothing but a
    readiness report gets past a closed gate. */
module CoordinatorProofs {
  import opened Messages
  import opened Registry
  import opened Partition
  import opened CoordinatorSpec

  /** No send attempt numbered `from` or later is rejected. */
  predicate NoFailureFrom(failing: set<nat>, from: nat) {
    forall k :: k in failing ==> k < from
  }

  // ---------------------------------------------------------------- placement

  /** Placing a list in two parts is placing it whole. */
  lemma {:induction false} PlaceAppend(me: SuperNodeInfo, ring: seq<SuperNodeInfo>, s: Step,
                                       a: seq<Resource>, b: seq<Resource>, peer: Contact, failing: set<nat>)
    ensures Place(me, ring, s, a + b, peer, failing) ==
            Place(me, ring, Place(me, ring, s, a, peer, failing), b, peer, failing)
    decreases |a|
  {
    if s.halted || a == [] {
      assert a + b == b || s.halted;
    } else {
      assert (a + b)[0] == a[0] && (a + b)[1..] == a[1..] + b;
      PlaceAppend(me, ring, PlaceOne(me, ring, s, a[0], peer, failing), a[1..], b, peer, failing);
    }
  }

  /** Once placement has stopped, the resources after the stopping point are
      never placed: appending more changes nothing. */
  lemma PlaceStops(me: SuperNodeInfo, ring: seq<SuperNodeInfo>, s: Step,
                   a: seq<Resource>, b: seq<Resource>, peer: Contact, failing: set<nat>)
    requires Place(me, ring, s, a, peer, failing).halted
    ensures Place(me, ring, s, a + b, peer, failing) == Place(me, ring, s, a, peer, failing)
  {
    PlaceAppend(me, ring, s, a, b, peer, failing);
  }

  /** The number of resources placement gets through before it returns;
      |resources| when it runs to the end. */
  function StopIndex(me: SuperNodeInfo, ring: seq<SuperNodeInfo>, s: Step, resources: seq<Resource>,
                     peer: Contact, failing: set<nat>): (i: nat)
    ensures i <= |resources|
    decreases |resources|
  {
    if s.halted || resources == [] then 0
    else if PlaceOne(me, ring, s, resources[0], peer, failing).halted then 0
    else 1 + StopIndex(me, ring, PlaceOne(me, ring, s, resources[0], peer, failing), resources[1..], peer, failing)
  }

  /** A placement that returns early does so at a resource i that this
      coordinator does not own: everything before i was placed without
      returning, and the final state is the one reached at i, whatever
      follows. */
  lemma PlaceHaltsAt(me: SuperNodeInfo, ring: seq<SuperNodeInfo>, s: Step,
                     resources: seq<Resource>, peer: Contact, failing: set<nat>)
    requires !s.halted && Place(me, ring, s, resources, peer, failing).halted
    ensures var i := StopIndex(me, ring, s, resources, peer, failing);
            i < |resources| && !Owns(me, |ring|, resources[i]) &&
            !Place(me, ring, s, resources[..i], peer, failing).halted &&
            (GetNextSuperNode(ring, me.order).None? || |Place(me, ring, s, resources[..i], peer, failing).out| in failing) &&
            Place(me, ring, s, resources[..i + 1], peer, failing) == Place(me, ring, s, resources, peer, failing)
  {
    StopIndexHalts(me, ring, s, resources, peer, failing);
    var i := StopIndex(me, ring, s, resources, peer, failing);
    var p := Place(me, ring, s, resources[..i], peer, failing);
    TakeSnoc(resources, i);
    PlaceAppend(me, ring, s, resources[..i], [resources[i]], peer, failing);
    PlaceCons(me, ring, p, [resources[i]], peer, failing);
    Singleton(resources[i]);
    assert PlaceOne(me, ring, p, resources[i], peer, failing).halted;
    TakeDrop(resources, i + 1);
    PlaceStops(me, ring, s, resources[..i + 1], resources[i + 1..], peer, failing);
  }

  /** Placement has not returned after the first StopIndex resources and has
      returned one resource later. */
  lemma {:induction false} StopIndexHalts(me: SuperNodeInfo, ring: seq<SuperNodeInfo>, s: Step,
                                          resources: seq<Resource>, peer: Contact, failing: set<nat>)
    requires !s.halted && Place(me, ring, s, resources, peer, failing).halted
    ensures StopIndex(me, ring, s, resources, peer, failing) < |resources|
    ensures !Place(me, ring, s, resources[..StopIndex(me, ring, s, resources, peer, failing)], peer, failing).halted
    ensures Place(me, ring, s, resources[..StopIndex(me, ring, s, resources, peer, failing) + 1], peer, failing).halted
    decreases |resources|, 1
  {
    PlaceHaltedCons(me, ring, s, resources, peer, failing);
    if PlaceOne(me, ring, s, resources[0], peer, failing).halted {
      StopIndexBase(me, ring, s, resources, peer, failing);
    } else {
      StopIndexStep(me, ring, s, resources, peer, failing);
    }
  }

  /** A placement that returns had a first resource, and returns from the
      state after it. */
  lemma PlaceHaltedCons(me: SuperNodeInfo, ring: seq<SuperNodeInfo>, s: Step,
                        resources: seq<Resource>, peer: Contact, failing: set<nat>)
    requires !s.halted && Place(me, ring, s, resources, peer, failing).halted
    ensures resources != []
    ensures Place(me, ring, PlaceOne(me, ring, s, resources[0], peer, failing), resources[1..], peer, failing).halted
  {
    PlaceCons(me, ring, s, resources, peer, failing);
  }

  /** The base case of StopIndexHalts: placement returns at the first resource. */
  lemma StopIndexBase(me: SuperNodeInfo, ring: seq<SuperNodeInfo>, s: Step,
                      resources: seq<Resource>, peer: Contact, failing: set<nat>)
    requires !s.halted && resources != [] && PlaceOne(me, ring, s, resources[0], peer, failing).halted
    ensures StopIndex(me, ring, s, resources, peer, failing) == 0
    ensures !Place(me, ring, s, resources[..0], peer, failing).halted
    ensures Place(me, ring, s, resources[..1], peer, failing).halted
  {
    assert resources[..0] == [];
    PlacePrefixCons(me, ring, s, resources, peer, failing, 1);
  }

  /** The inductive step of StopIndexHalts: a first resource placed without
      returning moves the stopping point one further. */
  lemma {:induction false} StopIndexStep(me: SuperNodeInfo, ring: seq<SuperNodeInfo>, s: Step,
                                         resources: seq<Resource>, peer: Contact, failing: set<nat>)
    requires !s.halted && resources != []
    requires !PlaceOne(me, ring, s, resources[0], peer, failing).halted
    requires Place(me, ring, PlaceOne(me, ring, s, resources[0], peer, failing), resources[1..], peer, failing).halted
    ensures StopIndex(me, ring, s, resources, peer, failing) < |resources|
    ensures !Place(me, ring, s, resources[..StopIndex(me, ring, s, resources, peer, failing)], peer, failing).halted
    ensures Place(me, ring, s, resources[..StopIndex(me, ring, s, resources, peer, failing) + 1], peer, failing).halted
    decreases |resources|, 0
  {
    var s1 := PlaceOne(me, ring, s, resources[0], peer, failing);
    StopIndexHalts(me, ring, s1, resources[1..], peer, failing);
    var j := StopIndex(me, ring, s1, resources[1..], peer, failing);
    assert StopIndex(me, ring, s, resources, peer, failing) == j + 1;
    PlacePrefixCons(me, ring, s, resources, peer, failing, j + 1);
    PlacePrefixCons(me, ring, s, resources, peer, failing, j + 2);
  }

  /** Placement of a non-empty prefix is one step followed by the rest of it. */
  lemma PlacePrefixCons(me: SuperNodeInfo, ring: seq<SuperNodeInfo>, s: Step, resources: seq<Resource>,
                        peer: Contact, failing: set<nat>, k: nat)
    requires !s.halted && 0 < k <= |resources|
    ensures Place(me, ring, s, resources[..k], peer, failing) ==
            Place(me, ring, PlaceOne(me, ring, s, resources[0], peer, failing), resources[1..][..k - 1], peer, failing)
  {
    TakeTail(resources, k);
    PlaceCons(me, ring, s, resources[..k], peer, failing);
  }

  /** One step of placement, for a list that is not empty. */
  lemma PlaceCons(me: SuperNodeInfo, ring: seq<SuperNodeInfo>, s: Step, resources: seq<Resource>,
                  peer: Contact, failing: set<nat>)
    requires !s.halted && resources != []
    ensures Place(me, ring, s, resources, peer, failing) ==
            Place(me, ring, PlaceOne(me, ring, s, resources[0], peer, failing), resources[1..], peer, failing)
  {
  }

  /** `k` is the file name of some resource in the list that this coordinator owns. */
  ghost predicate OwnedName(me: SuperNodeInfo, n: nat, resources: seq<Resource>, k: string) {
    exists i :: 0 <= i < |resources| && resources[i].fileName == k && Owns(me, n, resources[i])
  }

  /** Placement only ever adds or overwrites DHT entries, and every entry it
      writes maps the file name of an owned resource to the registering peer. */
  lemma {:induction false} PlaceWritesOnlyOwned(me: SuperNodeInfo, ring: seq<SuperNodeInfo>, s: Step,
                                                resources: seq<Resource>, peer: Contact, failing: set<nat>)
    ensures var r := Place(me, ring, s, resources, peer, failing);
            s.st.dht.Keys <= r.st.dht.Keys &&
            forall k :: k in r.st.dht ==>
              (k in s.st.dht && r.st.dht[k] == s.st.dht[k]) ||
              (OwnedName(me, |ring|, resources, k) && r.st.dht[k] == peer)
    decreases |resources|
  {
    if !(s.halted || resources == []) {
      var s1 := PlaceOne(me, ring, s, resources[0], peer, failing);
      PlaceWritesOnlyOwned(me, ring, s1, resources[1..], peer, failing);
      var r := Place(me, ring, s, resources, peer, failing);
      forall k | k in r.st.dht
        ensures (k in s.st.dht && r.st.dht[k] == s.st.dht[k]) ||
                (OwnedName(me, |ring|, resources, k) && r.st.dht[k] == peer)
      {
        if OwnedName(me, |ring|, resources[1..], k) && r.st.dht[k] == peer {
          var i :| 0 <= i < |resources[1..]| && resources[1..][i].fileName == k && Owns(me, |ring|, resources[1..][i]);
          assert resources[i + 1] == resources[1..][i];
        } else if k == resources[0].fileName && Owns(me, |ring|, resources[0]) {
          assert k in s1.st.dht && s1.st.dht[k] == peer;
        }
      }
    }
  }

  /** A placement that runs to the end leaves every owned resource mapped to
      the registering peer. */
  lemma {:induction false} PlaceStoresOwned(me: SuperNodeInfo, ring: seq<SuperNodeInfo>, s: Step,
                                            resources: seq<Resource>, peer: Contact, failing: set<nat>)
    requires !Place(me, ring, s, resources, peer, failing).halted
    ensures var r := Place(me, ring, s, resources, peer, failing);
            forall i :: 0 <= i < |resources| && Owns(me, |ring|, resources[i]) ==>
              resources[i].fileName in r.st.dht && r.st.dht[resources[i].fileName] == peer
    decreases |resources|
  {
    if resources != [] {
      var s1 := PlaceOne(me, ring, s, resources[0], peer, failing);
      var r := Place(me, ring, s, resources, peer, failing);
      PlaceStoresOwned(me, ring, s1, resources[1..], peer, failing);
      PlaceWritesOnlyOwned(me, ring, s1, resources[1..], peer, failing);
      forall i | 0 <= i < |resources| && Owns(me, |ring|, resources[i])
        ensures resources[i].fileName in r.st.dht && r.st.dht[resources[i].fileName] == peer
      {
        if i > 0 {
          assert resources[i] == resources[1..][i - 1];
        } else {
          var k := resources[0].fileName;
          assert k in s1.st.dht && s1.st.dht[k] == peer;
        }
      }
    }
  }

  /** The resources this coordinator does not own, in list order. */
  function Foreign(me: SuperNodeInfo, n: nat, resources: seq<Resource>): (f: seq<Resource>)
    ensures |f| <= |resources|
    ensures forall j :: 0 <= j < |f| ==> f[j] in resources && !Owns(me, n, f[j])
  {
    if resources == [] then []
    else if Owns(me, n, resources[0]) then Foreign(me, n, resources[1..])
    else [resources[0]] + Foreign(me, n, resources[1..])
  }

  /** One resourceTransfer per resource, all to `to`, each naming `peer` as holder. */
  function Transfers(me: SuperNodeInfo, to: Contact, peer: Contact, resources: seq<Resource>): (t: seq<Envelope>)
    ensures |t| == |resources|
    ensures forall j :: 0 <= j < |t| ==> t[j] == Envelope(to, ResourceTransfer(me.name, peer.name, peer.address, peer.port, resources[j]))
  {
    seq(|resources|, j requires 0 <= j < |resources| => Envelope(to, TransferOf(me, peer, resources[j])))
  }

  /** When the successor exists and no send fails, placement runs to the end
      and sends exactly one transfer to the successor per foreign resource, in
      list order and nothing else. */
  lemma {:induction false} PlaceForwardsForeign(me: SuperNodeInfo, ring: seq<SuperNodeInfo>, s: Step,
                                                resources: seq<Resource>, peer: Contact, failing: set<nat>)
    requires !s.halted && NoFailureFrom(failing, |s.out|)
    requires GetNextSuperNode(ring, me.order).Some?
    ensures var r := Place(me, ring, s, resources, peer, failing);
            !r.halted &&
            r.out == s.out + Transfers(me, GetNextSuperNode(ring, me.order).value.AsContact(), peer,
                                       Foreign(me, |ring|, resources))
    decreases |resources|
  {
    var next := GetNextSuperNode(ring, me.order).value.AsContact();
    if resources == [] {
      assert s.out + Transfers(me, next, peer, []) == s.out;
    } else {
      var res := resources[0];
      var s1 := PlaceOne(me, ring, s, res, peer, failing);
      var rest := Foreign(me, |ring|, resources[1..]);
      var r := Place(me, ring, s, resources, peer, failing);
      assert r == Place(me, ring, s1, resources[1..], peer, failing);
      PlaceForwardsForeign(me, ring, s1, resources[1..], peer, failing);
      var tail := Transfers(me, next, peer, rest);
      assert r.out == s1.out + tail;
      if Owns(me, |ring|, res) {
        assert s1.out == s.out;
        assert Foreign(me, |ring|, resources) == rest;
      } else {
        var e := Envelope(next, TransferOf(me, peer, res));
        assert s1 == Send(s, e, failing);
        assert s1.out == s.out + [e];
        assert Foreign(me, |ring|, resources) == [res] + rest;
        TransfersCons(me, next, peer, res, rest);
        ConcatAssoc(s.out, [e], tail);
      }
    }
  }

  lemma TakeSnoc<T>(xs: seq<T>, i: nat)
    requires i < |xs|
    ensures xs[..i] + [xs[i]] == xs[..i + 1]
  {
  }

  lemma TakeDrop<T>(xs: seq<T>, i: nat)
    requires i <= |xs|
    ensures xs[..i] + xs[i..] == xs
  {
  }

  lemma TakeTail<T>(xs: seq<T>, k: nat)
    requires 0 < k <= |xs|
    ensures xs[..k][0] == xs[0] && xs[..k][1..] == xs[1..][..k - 1]
  {
  }

  lemma Singleton<T>(x: T)
    ensures [x][0] == x && [x][1..] == []
  {
  }

  lemma ConcatAssoc<T>(a: seq<T>, b: seq<T>, c: seq<T>)
    ensures (a + b) + c == a + (b + c)
  {
  }

  lemma TransfersCons(me: SuperNodeInfo, to: Contact, peer: Contact, res: Resource, rest: seq<Resource>)
    ensures Transfers(me, to, peer, [res] + rest) == [Envelope(to, TransferOf(me, peer, res))] + Transfers(me, to, peer, rest)
  {
    assert Transfers(me, to, peer, [res] + rest)[1..] == Transfers(me, to, peer, rest);
  }

  /** On a ring where the successor exists and no send fails, a register or a
      transfer leaves every owned resource stored against the peer. */
  lemma PlaceAllStored(me: SuperNodeInfo, ring: seq<SuperNodeInfo>, s: Step,
                       resources: seq<Resource>, peer: Contact, failing: set<nat>)
    requires !s.halted && NoFailureFrom(failing, |s.out|)
    requires GetNextSuperNode(ring, me.order).Some?
    ensures var r := Place(me, ring, s, resources, peer, failing);
            forall i :: 0 <= i < |resources| && Owns(me, |ring|, resources[i]) ==>
              resources[i].fileName in r.st.dht && r.st.dht[resources[i].fileName] == peer
  {
    PlaceForwardsForeign(me, ring, s, resources, peer, failing);
    PlaceStoresOwned(me, ring, s, resources, peer, failing);
  }

  // ---------------------------------------------------------------- register

  /** register answers first. If that answer cannot be sent nothing is recorded
      and nothing is placed; otherwise the peer, reachable at the observed
      address and the port it claims, becomes a member as of now and then its
      resources are placed. */
  lemma RegisterOutcome(me: SuperNodeInfo, ring: seq<SuperNodeInfo>, st: CoordState, msg: Message,
                        remoteAddress: string, now: int, failing: set<nat>)
    requires msg.Register?
    ensures var r := OnRegister(me, ring, st, msg, remoteAddress, now, failing);
            var peer := Contact(msg.peerNodeName, remoteAddress, msg.peerNodePort);
            (0 in failing ==> r == Step(st, [], true)) &&
            (0 !in failing ==>
              |r.out| >= 1 && r.out[0] == Envelope(peer, RegisterResponse(me.name, Success)) &&
              r.st.peerNodesData == st.peerNodesData[msg.peerNodeName := PeerNodeKeepAliveData(peer, now)] &&
              r.st.readySuperNodes == st.readySuperNodes &&
              r.st.pendingResourceRequestsData == st.pendingResourceRequestsData &&
              r == Place(me, ring,
                         Step(st.(peerNodesData := st.peerNodesData[msg.peerNodeName := PeerNodeKeepAliveData(peer, now)]),
                              [Envelope(peer, RegisterResponse(me.name, Success))], false),
                         msg.resources, peer, failing))
  {
    var peer := Contact(msg.peerNodeName, remoteAddress, msg.peerNodePort);
    var e := Envelope(peer, RegisterResponse(me.name, Success));
    assert [] + [e] == [e];
  }

  /** With the successor present and no failed send, a registration answers,
      records the member, stores every owned resource against it and forwards
      each foreign one to the successor, in order. */
  lemma RegisterComplete(me: SuperNodeInfo, ring: seq<SuperNodeInfo>, st: CoordState, msg: Message,
                         remoteAddress: string, now: int)
    requires msg.Register? && GetNextSuperNode(ring, me.order).Some?
    ensures var r := OnRegister(me, ring, st, msg, remoteAddress, now, {});
            var peer := Contact(msg.peerNodeName, remoteAddress, msg.peerNodePort);
            var next := GetNextSuperNode(ring, me.order).value.AsContact();
            !r.halted &&
            r.out == [Envelope(peer, RegisterResponse(me.name, Success))] +
                     Transfers(me, next, peer, Foreign(me, |ring|, msg.resources)) &&
            msg.peerNodeName in r.st.peerNodesData &&
            r.st.peerNodesData[msg.peerNodeName] == PeerNodeKeepAliveData(peer, now) &&
            forall i :: 0 <= i < |msg.resources| && Owns(me, |ring|, msg.resources[i]) ==>
              msg.resources[i].fileName in r.st.dht && r.st.dht[msg.resources[i].fileName] == peer
  {
    var peer := Contact(msg.peerNodeName, remoteAddress, msg.peerNodePort);
    var s := Send(Begin(st), Envelope(peer, RegisterResponse(me.name, Success)), {});
    var s1 := s.(st := st.(peerNodesData := st.peerNodesData[msg.peerNodeName := PeerNodeKeepAliveData(peer, now)]));
    assert s1.out == [Envelope(peer, RegisterResponse(me.name, Success))] && !s1.halted;
    var r := OnRegister(me, ring, st, msg, remoteAddress, now, {});
    assert r == Place(me, ring, s1, msg.resources, peer, {});
    PlaceForwardsForeign(me, ring, s1, msg.resources, peer, {});
    PlaceAllStored(me, ring, s1, msg.resources, peer, {});
    assert r.st.peerNodesData == s1.st.peerNodesData;
  }

  // ---------------------------------------------------------------- keepAlive

  /** keepAlive from a non-member changes nothing; from a member it moves only
      that member's timestamp to now. */
  lemma KeepAliveRefreshes(st: CoordState, name: string, now: int)
    ensures var r := OnKeepAlive(st, name, now);
            (name !in st.peerNodesData ==> r == st) &&
            (name in st.peerNodesData ==>
              r.peerNodesData.Keys == st.peerNodesData.Keys &&
              r.peerNodesData[name] == PeerNodeKeepAliveData(st.peerNodesData[name].peerNode, now) &&
              (forall k :: k in st.peerNodesData && k != name ==> r.peerNodesData[k] == st.peerNodesData[k]) &&
              r.dht == st.dht && r.readySuperNodes == st.readySuperNodes &&
              r.pendingResourceRequestsData == st.pendingResourceRequestsData)
  {
  }

  /** A member that has just sent keepAlive survives every sweep within the
      next 10000 milliseconds, and the first one after that evicts it unless
      it is heard from again. */
  lemma KeepAliveThenSweep(st: CoordState, name: string, now: int, later: int)
    requires name in st.peerNodesData
    ensures var peers := OnKeepAlive(st, name, now).peerNodesData;
            (later <= now + KeepAliveTimeoutMs ==> name in Sweep(peers, later)) &&
            (later > now + KeepAliveTimeoutMs ==> name !in Sweep(peers, later))
  {
    var peers := OnKeepAlive(st, name, now).peerNodesData;
    assert peers[name].lastKeepAliveTime == now;
  }

  // ---------------------------------------------------------------- sweep

  /** The sweep boundary: silent for exactly 10000 ms stays, 10001 ms goes. */
  lemma SweepBoundary(peers: map<string, PeerNodeKeepAliveData>, name: string, now: int)
    requires name in peers
    ensures now - peers[name].lastKeepAliveTime == 10000 ==> name in Sweep(peers, now)
    ensures now - peers[name].lastKeepAliveTime == 10001 ==> name !in Sweep(peers, now)
  {
  }

  /** Sweeping twice at the same time removes nothing more. */
  lemma SweepIdempotent(peers: map<string, PeerNodeKeepAliveData>, now: int)
    ensures Sweep(Sweep(peers, now), now) == Sweep(peers, now)
  {
    assert Sweep(Sweep(peers, now), now).Keys == Sweep(peers, now).Keys;
  }

  // ---------------------------------------------------------------- resourceRequest

  /** Ids handed out by `randomUUID`: distinct from each other and from every
      pending id. */
  predicate FreshIds(ids: seq<string>, pending: map<string, Contact>) {
    (forall i :: 0 <= i < |ids| ==> ids[i] !in pending) &&
    (forall i, j :: 0 <= i < j < |ids| ==> ids[i] != ids[j])
  }

  /** `k` is the id drawn for some requested name that missed the local DHT. */
  ghost predicate MissId(dht: map<string, Contact>, names: seq<string>, freshIds: seq<string>, k: string)
    requires |freshIds| == |names|
  {
    exists i :: 0 <= i < |names| && freshIds[i] == k && names[i] !in dht
  }

  /** With fresh ids, resourceRequest keeps every pending entry and adds only
      ids of local misses, each mapped to the requester. */
  lemma {:induction false} RequestPending(me: SuperNodeInfo, ring: seq<SuperNodeInfo>, s: Step, requester: Contact,
                                          names: seq<string>, freshIds: seq<string>, failing: set<nat>)
    requires |freshIds| == |names| && FreshIds(freshIds, s.st.pendingResourceRequestsData)
    ensures var r := RequestEach(me, ring, s, requester, names, freshIds, failing);
            var old_ := s.st.pendingResourceRequestsData;
            var new_ := r.st.pendingResourceRequestsData;
            (forall k :: k in old_ ==> k in new_ && new_[k] == old_[k]) &&
            (forall k :: k in new_ && k !in old_ ==>
              new_[k] == requester && MissId(s.st.dht, names, freshIds, k))
    decreases |names|
  {
    if !(s.halted || names == []) {
      var s1 := RequestOne(me, ring, s, requester, names[0], freshIds[0], failing);
      RequestOnePending(me, ring, s, requester, names[0], freshIds[0], failing);
      FreshIdsTail(me, ring, s, requester, names, freshIds, failing);
      RequestPending(me, ring, s1, requester, names[1..], freshIds[1..], failing);
      var r := RequestEach(me, ring, s, requester, names, freshIds, failing);
      forall k | k in r.st.pendingResourceRequestsData && k !in s.st.pendingResourceRequestsData
        ensures r.st.pendingResourceRequestsData[k] == requester && MissId(s.st.dht, names, freshIds, k)
      {
        if k in s1.st.pendingResourceRequestsData {
          assert k == freshIds[0] && names[0] !in s.st.dht;
        } else {
          var i :| 0 <= i < |names[1..]| && freshIds[1..][i] == k && names[1..][i] !in s1.st.dht;
          assert freshIds[i + 1] == k && names[i + 1] !in s.st.dht;
        }
      }
    }
  }

  /** One name of a request adds at most its own id, for a miss, mapped to
      the requester, and leaves the DHT and every other entry alone. */
  lemma RequestOnePending(me: SuperNodeInfo, ring: seq<SuperNodeInfo>, s: Step, requester: Contact,
                          name: string, id: string, failing: set<nat>)
    requires id !in s.st.pendingResourceRequestsData
    ensures var s1 := RequestOne(me, ring, s, requester, name, id, failing);
            var old_ := s.st.pendingResourceRequestsData;
            var new_ := s1.st.pendingResourceRequestsData;
            s1.st.dht == s.st.dht &&
            (forall k :: k in old_ ==> k in new_ && new_[k] == old_[k]) &&
            (forall k :: k in new_ && k !in old_ ==> k == id && name !in s.st.dht && new_[k] == requester)
  {
  }

  /** The ids after the first stay fresh once the first name is handled. */
  lemma FreshIdsTail(me: SuperNodeInfo, ring: seq<SuperNodeInfo>, s: Step, requester: Contact,
                     names: seq<string>, freshIds: seq<string>, failing: set<nat>)
    requires |freshIds| == |names| && names != [] && FreshIds(freshIds, s.st.pendingResourceRequestsData)
    ensures FreshIds(freshIds[1..],
                     RequestOne(me, ring, s, requester, names[0], freshIds[0], failing).st.pendingResourceRequestsData)
  {
    var s1 := RequestOne(me, ring, s, requester, names[0], freshIds[0], failing);
    forall i | 0 <= i < |freshIds[1..]|
      ensures freshIds[1..][i] !in s1.st.pendingResourceRequestsData
    {
      assert freshIds[1..][i] == freshIds[i + 1] != freshIds[0];
    }
  }

  /** The converse of RequestPending: with the successor present and no
      failed send, the fresh id of every name that missed the local DHT is
      pending afterwards, mapped to the requester. */
  lemma {:induction false} RequestStoresMisses(me: SuperNodeInfo, ring: seq<SuperNodeInfo>, s: Step, requester: Contact,
                                               names: seq<string>, freshIds: seq<string>, failing: set<nat>)
    requires |freshIds| == |names| && FreshIds(freshIds, s.st.pendingResourceRequestsData)
    requires !s.halted && NoFailureFrom(failing, |s.out|) && GetNextSuperNode(ring, me.order).Some?
    ensures var r := RequestEach(me, ring, s, requester, names, freshIds, failing);
            forall i :: 0 <= i < |names| && names[i] !in s.st.dht ==>
              freshIds[i] in r.st.pendingResourceRequestsData &&
              r.st.pendingResourceRequestsData[freshIds[i]] == requester
    decreases |names|
  {
    if names != [] {
      var s1 := RequestOne(me, ring, s, requester, names[0], freshIds[0], failing);
      RequestOneAnswers(me, ring, s, requester, names, freshIds, failing);
      FreshIdsTail(me, ring, s, requester, names, freshIds, failing);
      RequestStoresMisses(me, ring, s1, requester, names[1..], freshIds[1..], failing);
      RequestPending(me, ring, s1, requester, names[1..], freshIds[1..], failing);
      var r := RequestEach(me, ring, s, requester, names, freshIds, failing);
      assert r == RequestEach(me, ring, s1, requester, names[1..], freshIds[1..], failing);
      forall i | 0 <= i < |names| && names[i] !in s.st.dht
        ensures freshIds[i] in r.st.pendingResourceRequestsData &&
                r.st.pendingResourceRequestsData[freshIds[i]] == requester
      {
        if i == 0 {
          assert s1.st.pendingResourceRequestsData[freshIds[0]] == requester;
        } else {
          assert names[1..][i - 1] == names[i] && freshIds[1..][i - 1] == freshIds[i];
        }
      }
    }
  }

  /** A search whose send fails still leaves its id pending: only the
      remaining names are abandoned. */
  lemma FailedSearchStaysPending(me: SuperNodeInfo, ring: seq<SuperNodeInfo>, s: Step, requester: Contact,
                                 name: string, id: string, failing: set<nat>)
    requires name !in s.st.dht && GetNextSuperNode(ring, me.order).Some? && |s.out| in failing
    ensures var r := RequestOne(me, ring, s, requester, name, id, failing);
            r.halted && r.out == s.out &&
            id in r.st.pendingResourceRequestsData && r.st.pendingResourceRequestsData[id] == requester
  {
  }

  /** What resourceRequest sends for each name when nothing fails: the owner
      straight to the requester on a local hit, a search with the name's own
      fresh id to the successor on a miss. */
  function Answers(me: SuperNodeInfo, next: Contact, requester: Contact, dht: map<string, Contact>,
                   names: seq<string>, freshIds: seq<string>): (a: seq<Envelope>)
    requires |freshIds| == |names|
    ensures |a| == |names|
  {
    seq(|names|, i requires 0 <= i < |names| =>
      if names[i] in dht then Envelope(requester, LocalAnswer(me, dht[names[i]], names[i], None))
      else Envelope(next, ResourceSearch(freshIds[i], me.name, names[i])))
  }

  /** With the successor present and no failed send, resourceRequest handles
      every name, in order, sending exactly one datagram per name. */
  lemma {:induction false} RequestAnswersAll(me: SuperNodeInfo, ring: seq<SuperNodeInfo>, s: Step, requester: Contact,
                                             names: seq<string>, freshIds: seq<string>, failing: set<nat>)
    requires |freshIds| == |names| && !s.halted && NoFailureFrom(failing, |s.out|)
    requires GetNextSuperNode(ring, me.order).Some?
    ensures var r := RequestEach(me, ring, s, requester, names, freshIds, failing);
            !r.halted &&
            r.out == s.out + Answers(me, GetNextSuperNode(ring, me.order).value.AsContact(), requester,
                                     s.st.dht, names, freshIds)
    decreases |names|
  {
    var next := GetNextSuperNode(ring, me.order).value.AsContact();
    if names == [] {
      assert s.out + Answers(me, next, requester, s.st.dht, names, freshIds) == s.out;
    } else {
      var s1 := RequestOne(me, ring, s, requester, names[0], freshIds[0], failing);
      var all := Answers(me, next, requester, s.st.dht, names, freshIds);
      RequestOneAnswers(me, ring, s, requester, names, freshIds, failing);
      RequestAnswersAll(me, ring, s1, requester, names[1..], freshIds[1..], failing);
      AnswersCons(me, next, requester, s.st.dht, names, freshIds);
      ConcatAssoc(s.out, [all[0]], Answers(me, next, requester, s.st.dht, names[1..], freshIds[1..]));
    }
  }

  /** The first name of a request, handled when nothing fails, sends the first
      of its answers and leaves the DHT as it was. */
  lemma RequestOneAnswers(me: SuperNodeInfo, ring: seq<SuperNodeInfo>, s: Step, requester: Contact,
                          names: seq<string>, freshIds: seq<string>, failing: set<nat>)
    requires |freshIds| == |names| && names != [] && !s.halted && NoFailureFrom(failing, |s.out|)
    requires GetNextSuperNode(ring, me.order).Some?
    ensures var s1 := RequestOne(me, ring, s, requester, names[0], freshIds[0], failing);
            var next := GetNextSuperNode(ring, me.order).value.AsContact();
            !s1.halted && s1.st.dht == s.st.dht && NoFailureFrom(failing, |s1.out|) &&
            s1.out == s.out + [Answers(me, next, requester, s.st.dht, names, freshIds)[0]]
  {
  }

  lemma AnswersCons(me: SuperNodeInfo, next: Contact, requester: Contact, dht: map<string, Contact>,
                    names: seq<string>, freshIds: seq<string>)
    requires |freshIds| == |names| && names != []
    ensures var all := Answers(me, next, requester, dht, names, freshIds);
            all == [all[0]] + Answers(me, next, requester, dht, names[1..], freshIds[1..])
  {
  }

  // ---------------------------------------------------------------- resourceResponse

  /** resourceResponse. Without an id it is dropped. An answer to a search
      this coordinator started forgets the id and goes, without id, to the
      requester; any other is passed to the successor with its id; in both
      cases the owner fields and the name travel unchanged and nothing else
      in the state moves. */
  lemma ResponseOutcome(me: SuperNodeInfo, ring: seq<SuperNodeInfo>, st: CoordState, msg: Message,
                        failing: set<nat>)
    requires msg.ResourceResponse?
    ensures var r := OnResourceResponse(me, ring, st, msg, failing);
            var pending := st.pendingResourceRequestsData;
            var sent := 0 !in failing;
            (!HasId(msg.responseId) ==> r == Begin(st)) &&
            (HasId(msg.responseId) && msg.responseId.value in pending ==>
              r.st == st.(pendingResourceRequestsData := pending - {msg.responseId.value}) &&
              r.out == if sent then [Envelope(pending[msg.responseId.value],
                         ResourceResponse(None, me.name, msg.ownerName, msg.ownerAddress, msg.ownerPort, msg.resourceName))]
                       else []) &&
            (HasId(msg.responseId) && msg.responseId.value !in pending ==>
              r.st == st &&
              match GetNextSuperNode(ring, me.order)
              case None => r.out == []
              case Some(next) =>
                r.out == if sent then [Envelope(next.AsContact(),
                           ResourceResponse(msg.responseId, me.name, msg.ownerName, msg.ownerAddress, msg.ownerPort, msg.resourceName))]
                         else [])
  {
  }

  // ---------------------------------------------------------------- resourceSearch

  /** resourceSearch. A search back at the coordinator that started it has
      been round the whole ring: the id is forgotten and the requester told
      there is no owner. Anywhere else the state is left exactly as it was and
      the only datagram goes to the successor: the owner if the name is stored
      here, or the same search otherwise. */
  lemma SearchOutcome(me: SuperNodeInfo, ring: seq<SuperNodeInfo>, st: CoordState, msg: Message,
                      failing: set<nat>)
    requires msg.ResourceSearch?
    ensures var r := OnResourceSearch(me, ring, st, msg, failing);
            var pending := st.pendingResourceRequestsData;
            var sent := 0 !in failing;
            (msg.id in pending ==>
              r.st == st.(pendingResourceRequestsData := pending - {msg.id}) &&
              r.out == if sent then [Envelope(pending[msg.id], ResourceResponse(None, me.name, None, None, None, msg.resourceName))]
                       else []) &&
            (msg.id !in pending ==>
              r.st == st &&
              match GetNextSuperNode(ring, me.order)
              case None => r.out == []
              case Some(next) =>
                r.out == if !sent then []
                         else if msg.resourceName in st.dht then
                           [Envelope(next.AsContact(), ResourceResponse(Some(msg.id), me.name,
                              Some(st.dht[msg.resourceName].name), Some(st.dht[msg.resourceName].address),
                              Some(st.dht[msg.resourceName].port), msg.resourceName))]
                         else [Envelope(next.AsContact(), ResourceSearch(msg.id, me.name, msg.resourceName))])
  {
  }

  // ---------------------------------------------------------------- readiness gate

  /** Reporting a name ready adds exactly that name to the ready set. */
  lemma ReadyAddsName(ready: map<string, bool>, name: string)
    ensures ReadyNames(ready[name := true]) == ReadyNames(ready) + {name}
  {
  }

  /** Until the gate opens, every message but a readiness report is dropped:
      no state change and nothing sent. */
  lemma GateClosedDrops(me: SuperNodeInfo, ring: seq<SuperNodeInfo>, st: CoordState, ev: Event)
    requires WellFormedEvent(ev) && !ev.msg.SuperNodeReady?
    requires !AllSuperNodesReady(st.readySuperNodes, ring)
    ensures Receive(me, ring, st, ev) == Step(st, [], false)
  {
  }

  /** Readiness only grows: a readiness report adds its name, every other
      message leaves the readiness map alone. */
  lemma ReadinessOnlyGrows(me: SuperNodeInfo, ring: seq<SuperNodeInfo>, st: CoordState, ev: Event)
    requires WellFormedEvent(ev)
    ensures var r := Receive(me, ring, st, ev);
            (ev.msg.SuperNodeReady? ==> ReadyNames(r.st.readySuperNodes) == ReadyNames(st.readySuperNodes) + {ev.msg.superNodeName}) &&
            (!ev.msg.SuperNodeReady? ==> r.st.readySuperNodes == st.readySuperNodes)
  {
    if ev.msg.SuperNodeReady? {
      ReadyAddsName(st.readySuperNodes, ev.msg.superNodeName);
    }
  }

  /** The gate compares counts, not names: once it is open, a readiness report
      under a name not yet counted closes it again. */
  lemma StrayReadyNameClosesGate(me: SuperNodeInfo, ring: seq<SuperNodeInfo>, st: CoordState, ev: Event)
    requires ev.msg.SuperNodeReady? && AllSuperNodesReady(st.readySuperNodes, ring)
    requires ev.msg.superNodeName !in ReadyNames(st.readySuperNodes)
    ensures !AllSuperNodesReady(Receive(me, ring, st, ev).st.readySuperNodes, ring)
  {
    ReadyAddsName(st.readySuperNodes, ev.msg.superNodeName);
  }
}
