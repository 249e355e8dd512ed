/** The peer process: it registers with a coordinator drawn at random, keeps
    its association alive, serves the files it holds and turns changes of its
    request file into lookups. The file system, the clock, the random draw and
    the transport are inputs; every datagram the transport accepts is appended
    to `outbox`. */
module Peer {
  import opened Messages
  import opened Registry

  /** One entry of the resources directory. */
  datatype FileEntry = FileEntry(fileName: string, content: string)

  /** What the environment decides for one registration attempt: the random
      draw in [0, 1), the directory listing (nothing when the directory is
      missing) and whether the transport accepts the register message. */
  datatype Attempt = Attempt(draw: real, listing: Option<seq<FileEntry>>, sendOk: bool)

  predicate ValidDraws(attempts: seq<Attempt>) {
    forall i :: 0 <= i < |attempts| ==> 0.0 <= attempts[i].draw < 1.0
  }

  const MissingDirectory: string := "Resources directory does not exist."
  const NoSuperNodes: string := "No super nodes available. Unnable to connect."
  const SendFailed: string := "Send failed."

  /** The resources a listing advertises: one per entry, in listing order,
      named as the file and identified by the digest of its content. */
  function Advertised(digest: string -> string, listing: seq<FileEntry>): (rs: seq<Resource>)
    ensures |rs| == |listing|
    ensures forall i :: 0 <= i < |rs| ==>
      rs[i].fileName == listing[i].fileName && rs[i].contentHash == digest(listing[i].content)
  {
    seq(|listing|, i requires 0 <= i < |listing| => Resource(listing[i].fileName, digest(listing[i].content)))
  }

  /** The register datagram an attempt would send: none when the registry is
      empty or the directory is missing, otherwise one to the drawn
      coordinator carrying this peer's name, port and advertised resources. */
  function Registration(nodes: seq<SuperNodeInfo>, name: string, port: nat, digest: string -> string,
                        a: Attempt): (e: Option<Envelope>)
    requires 0.0 <= a.draw < 1.0
    ensures e.Some? <==> |nodes| > 0 && a.listing.Some?
    ensures e.Some? ==> e.value.to in Contacts(nodes) &&
                        e.value.msg == Register(name, port, Advertised(digest, a.listing.value))
  {
    match GetRandomSuperNode(nodes, a.draw)
    case None => None
    case Some(node) =>
      if a.listing.None? then None
      else
        assert node.AsContact() in Contacts(nodes) by {
          var i :| 0 <= i < |nodes| && nodes[i] == node;
        }
        Some(Envelope(node.AsContact(), Register(name, port, Advertised(digest, a.listing.value))))
  }

  function Contacts(nodes: seq<SuperNodeInfo>): set<Contact> {
    set i | 0 <= i < |nodes| :: nodes[i].AsContact()
  }

  /** An attempt succeeds when its register datagram exists and is accepted. */
  predicate Succeeds(nodes: seq<SuperNodeInfo>, name: string, port: nat, digest: string -> string, a: Attempt)
    requires 0.0 <= a.draw < 1.0
  {
    Registration(nodes, name, port, digest, a).Some? && a.sendOk
  }

  /** Index of the first attempt that succeeds. */
  function FirstSuccess(nodes: seq<SuperNodeInfo>, name: string, port: nat, digest: string -> string,
                        attempts: seq<Attempt>): (r: Option<nat>)
    requires ValidDraws(attempts)
    ensures r.Some? ==> r.value < |attempts| && Succeeds(nodes, name, port, digest, attempts[r.value])
    ensures r.Some? ==> forall j :: 0 <= j < r.value ==> !Succeeds(nodes, name, port, digest, attempts[j])
    ensures r.None? ==> forall j :: 0 <= j < |attempts| ==> !Succeeds(nodes, name, port, digest, attempts[j])
  {
    if |attempts| == 0 then None
    else if Succeeds(nodes, name, port, digest, attempts[0]) then Some(0)
    else match FirstSuccess(nodes, name, port, digest, attempts[1..])
      case None => None
      case Some(i) => Some(i + 1)
  }

  /** An empty registry makes every attempt fail, so the start loop never
      leaves its retry loop. */
  lemma EmptyRegistryNeverConnects(name: string, port: nat, digest: string -> string, attempts: seq<Attempt>)
    requires ValidDraws(attempts)
    ensures FirstSuccess([], name, port, digest, attempts).None?
  {
    forall j | 0 <= j < |attempts|
      ensures !Succeeds([], name, port, digest, attempts[j])
    {
    }
  }

  /** The name an inbound resourceRequest asks for: only the first one, and
      none when the list is empty or that name is empty. */
  function ServedName(names: seq<string>): (r: Option<string>)
    ensures r.Some? <==> |names| > 0 && names[0] != ""
    ensures r.Some? ==> r.value == names[0]
  {
    if |names| == 0 || names[0] == "" then None else Some(names[0])
  }

  /** The holder a resourceResponse points to; none when its name, address
      or port is missing, empty or zero. */
  function OwnerOf(msg: Message): (c: Option<Contact>)
    requires msg.ResourceResponse?
    ensures c.Some? <==>
      msg.ownerName.Some? && msg.ownerName.value != "" &&
      msg.ownerAddress.Some? && msg.ownerAddress.value != "" &&
      msg.ownerPort.Some? && msg.ownerPort.value != 0
    ensures c.Some? ==> c.value.name == msg.ownerName.value && c.value.address == msg.ownerAddress.value &&
                        c.value.port == msg.ownerPort.value
  {
    match (msg.ownerName, msg.ownerAddress, msg.ownerPort)
    case (Some(n), Some(a), Some(p)) => if n == "" || a == "" || p == 0 then None else Some(Contact(n, a, p))
    case _ => None
  }

  /** What one poll of the request file does: the snapshot it leaves and the
      names it asks for, if any. */
  datatype Poll = Poll(snapshot: Option<seq<string>>, ask: Option<seq<string>>)

  /** A missing file changes nothing; otherwise the snapshot becomes the file's
      content, and a lookup is issued only when an earlier snapshot existed,
      differs from it, and the peer is associated with a coordinator. */
  function PollRequests(snapshot: Option<seq<string>>, file: Option<seq<string>>, connected: bool): (p: Poll)
    ensures file.None? ==> p == Poll(snapshot, None)
    ensures file.Some? ==> p.snapshot == file
    ensures p.ask.Some? <==> file.Some? && snapshot.Some? && snapshot != file && connected
    ensures p.ask.Some? ==> p.ask == file
  {
    if file.None? then Poll(snapshot, None)
    else if snapshot.None? then Poll(file, None)
    else if snapshot == file then Poll(snapshot, None)
    else Poll(file, if connected then file else None)
  }

  /** A change of the request file is acted on at most once: polling the same
      content again asks for nothing, whether or not the peer is connected. */
  lemma PollAsksOnce(snapshot: Option<seq<string>>, file: Option<seq<string>>, c1: bool, c2: bool)
    ensures PollRequests(PollRequests(snapshot, file, c1).snapshot, file, c2).ask.None?
  {
  }

  /** A change seen while not connected is lost: the next poll of the same
      content asks for nothing even once the peer is connected. */
  lemma ChangeWhileDisconnectedIsLost(snapshot: seq<string>, file: seq<string>)
    requires snapshot != file
    ensures PollRequests(Some(snapshot), Some(file), false).ask.None?
    ensures PollRequests(PollRequests(Some(snapshot), Some(file), false).snapshot, Some(file), true).ask.None?
  {
  }

  class PeerNode {
    const name: string
    const address: string
    const port: nat
    const system: System
    /** SHA-256 of a file's content, as lowercase hex. */
    const digest: string -> string
    /** The coordinator this peer is associated with. */
    var superNode: Option<SuperNodeInfo>
    /** The last content read from the request file. */
    var resourceRequest: Option<seq<string>>
    /** The watchdog interval last scheduled, and all watchdog intervals alive. */
    var tryAgainInterval: Option<nat>
    var watchdogs: set<nat>
    var nextTimerId: nat
    /** Message listeners, keep-alive loops and request-file pollers started. */
    var listeners: nat
    var keepAliveLoops: nat
    var requestPollers: nat
    /** Every datagram handed to the transport and accepted by it, oldest first. */
    var outbox: seq<Envelope>

    /** At most one watchdog is alive, and it is the one last scheduled. */
    predicate OneWatchdog()
      reads this
    {
      watchdogs <= (if tryAgainInterval.Some? then {tryAgainInterval.value} else {}) &&
      forall t :: t in watchdogs ==> t < nextTimerId
    }

    /** What one run of `start` did: the association, the request snapshot,
        the keep-alive loops and the pollers are untouched. When no attempt
        succeeds nothing else changes either; otherwise the first successful
        attempt's register datagram is the only one sent, one listener is
        added, and a watchdog that was not alive before replaces the old one. */
    twostate predicate StartRan(attempts: seq<Attempt>)
      requires ValidDraws(attempts)
      reads this, system
    {
      superNode == old(superNode) && resourceRequest == old(resourceRequest) &&
      keepAliveLoops == old(keepAliveLoops) && requestPollers == old(requestPollers) &&
      var first := FirstSuccess(system.superNodes, name, port, digest, attempts);
      (first.None? ==>
        outbox == old(outbox) && listeners == old(listeners) &&
        watchdogs == old(watchdogs) && tryAgainInterval == old(tryAgainInterval)) &&
      (first.Some? ==>
        outbox == old(outbox) + [Registration(system.superNodes, name, port, digest, attempts[first.value]).value] &&
        listeners == old(listeners) + 1 &&
        tryAgainInterval.Some? && tryAgainInterval.value !in old(watchdogs) &&
        watchdogs == {tryAgainInterval.value})
    }

    /** What a registerResponse did: on success the peer is associated with
        the coordinator registered under that name (none if there is none)
        and one keep-alive loop and one poller are started, with nothing sent
        and no timer touched; on failure `start` ran again. */
    twostate predicate RegisterResponseHandled(superNodeName: string, status: Status, attempts: seq<Attempt>)
      requires ValidDraws(attempts)
      reads this, system
    {
      (status == Success ==>
        superNode == GetSuperNodeByName(system.superNodes, superNodeName) &&
        keepAliveLoops == old(keepAliveLoops) + 1 && requestPollers == old(requestPollers) + 1 &&
        outbox == old(outbox) && listeners == old(listeners) && resourceRequest == old(resourceRequest) &&
        watchdogs == old(watchdogs) && tryAgainInterval == old(tryAgainInterval)) &&
      (status == Failure ==> StartRan(attempts))
    }

    constructor (name: string, address: string, port: nat, system: System, digest: string -> string)
      ensures this.name == name && this.address == address && this.port == port
      ensures this.system == system && this.digest == digest
      ensures superNode.None? && resourceRequest.None? && tryAgainInterval.None? && watchdogs == {}
      ensures listeners == 0 && keepAliveLoops == 0 && requestPollers == 0 && outbox == []
      ensures OneWatchdog()
    {
      this.name := name;
      this.address := address;
      this.port := port;
      this.system := system;
      this.digest := digest;
      superNode := None;
      resourceRequest := None;
      tryAgainInterval := None;
      watchdogs := {};
      nextTimerId := 0;
      listeners := 0;
      keepAliveLoops := 0;
      requestPollers := 0;
      outbox := [];
    }

    /** Builds the resource list entry by entry; a missing directory is an error. */
    method ReadResourcesDirectory(listing: Option<seq<FileEntry>>) returns (r: Result<seq<Resource>, string>)
      ensures listing.None? ==> r == Err(MissingDirectory)
      ensures listing.Some? ==> r.Ok? && r.value == Advertised(digest, listing.value)
    {
      if listing.None? {
        return Err(MissingDirectory);
      }
      var files := listing.value;
      var resources: seq<Resource> := [];
      var i := 0;
      while i < |files|
        invariant 0 <= i <= |files|
        invariant |resources| == i
        invariant forall j :: 0 <= j < i ==> resources[j] == Resource(files[j].fileName, digest(files[j].content))
      {
        resources := resources + [Resource(files[i].fileName, digest(files[i].content))];
        i := i + 1;
      }
      return Ok(resources);
    }

    method SendMessageToNode(e: Envelope, sendOk: bool)
      modifies this`outbox
      ensures outbox == if sendOk then old(outbox) + [e] else old(outbox)
    {
      if sendOk {
        outbox := outbox + [e];
      }
    }

    /** Draw a coordinator, read the directory and send it the register
        message; any of the three can fail. */
    method SendRegistrationToSuperNode(a: Attempt) returns (r: Result<SuperNodeInfo, string>)
      requires 0.0 <= a.draw < 1.0
      modifies this`outbox
      ensures r.Ok? <==> Succeeds(system.superNodes, name, port, digest, a)
      ensures r.Ok? ==> Some(r.value) == GetRandomSuperNode(system.superNodes, a.draw) &&
                        outbox == old(outbox) + [Registration(system.superNodes, name, port, digest, a).value]
      ensures r.Err? ==> outbox == old(outbox)
    {
      var superNode := GetRandomSuperNode(system.superNodes, a.draw);
      if superNode.None? {
        return Err(NoSuperNodes);
      }
      var resources := ReadResourcesDirectory(a.listing);
      if resources.Err? {
        return Err(resources.error);
      }
      var message := Register(name, port, resources.value);
      SendMessageToNode(Envelope(superNode.value.AsContact(), message), a.sendOk);
      if !a.sendOk {
        return Err(SendFailed);
      }
      return Ok(superNode.value);
    }

    /** Replace the watchdog: clear the one scheduled before, if any, then
        schedule a fresh one. */
    method CheckNoSuperNodeRoutine()
      requires OneWatchdog()
      modifies this`tryAgainInterval, this`watchdogs, this`nextTimerId
      ensures OneWatchdog()
      ensures tryAgainInterval.Some? && watchdogs == {tryAgainInterval.value}
      ensures tryAgainInterval.value !in old(watchdogs)
    {
      if tryAgainInterval.Some? {
        watchdogs := watchdogs - {tryAgainInterval.value};
      }
      var timer := nextTimerId;
      nextTimerId := nextTimerId + 1;
      tryAgainInterval := Some(timer);
      watchdogs := watchdogs + {timer};
    }

    /** The retry loop of `start`, run over the attempts the environment
        offers, then the listener and the watchdog. The coordinator it
        registered with is only returned: the association is set when the
        registerResponse arrives. */
    method Start(attempts: seq<Attempt>) returns (connected: Option<SuperNodeInfo>)
      requires ValidDraws(attempts) && OneWatchdog()
      modifies this
      ensures OneWatchdog() && StartRan(attempts)
      ensures var first := FirstSuccess(system.superNodes, name, port, digest, attempts);
              (connected.Some? <==> first.Some?) &&
              (first.Some? ==>
                Some(connected.value) == GetRandomSuperNode(system.superNodes, attempts[first.value].draw))
    {
      connected := None;
      var i := 0;
      while i < |attempts|
        invariant 0 <= i <= |attempts|
        invariant forall j :: 0 <= j < i ==> !Succeeds(system.superNodes, name, port, digest, attempts[j])
        invariant outbox == old(outbox) && connected.None?
        invariant superNode == old(superNode) && resourceRequest == old(resourceRequest)
        invariant listeners == old(listeners) && watchdogs == old(watchdogs) && tryAgainInterval == old(tryAgainInterval)
        invariant nextTimerId == old(nextTimerId)
        invariant keepAliveLoops == old(keepAliveLoops) && requestPollers == old(requestPollers)
      {
        var r := SendRegistrationToSuperNode(attempts[i]);
        if r.Ok? {
          connected := Some(r.value);
          break;
        }
        i := i + 1;
      }
      if connected.None? {
        return;
      }
      listeners := listeners + 1;
      CheckNoSuperNodeRoutine();
    }

    /** One watchdog tick: restart only while not associated. */
    method WatchdogTick(attempts: seq<Attempt>) returns (restarted: bool)
      requires ValidDraws(attempts) && OneWatchdog()
      modifies this
      ensures OneWatchdog()
      ensures restarted <==> old(superNode).None?
      ensures restarted ==> StartRan(attempts)
      ensures !restarted ==>
        outbox == old(outbox) && listeners == old(listeners) && watchdogs == old(watchdogs) &&
        tryAgainInterval == old(tryAgainInterval) && resourceRequest == old(resourceRequest) &&
        keepAliveLoops == old(keepAliveLoops) && requestPollers == old(requestPollers)
      ensures superNode == old(superNode)
    {
      if superNode.Some? {
        return false;
      }
      var _ := Start(attempts);
      return true;
    }

    /** registerResponse: on success associate with the coordinator of that
        name (none if it is not registered) and start the keep-alive loop and
        the request-file poller; on failure keep the association as it is and
        run `start` again. */
    method OnRegisterResponse(superNodeName: string, status: Status, attempts: seq<Attempt>)
      requires ValidDraws(attempts) && OneWatchdog()
      modifies this
      ensures OneWatchdog()
      ensures RegisterResponseHandled(superNodeName, status, attempts)
    {
      if status == Success {
        superNode := GetSuperNodeByName(system.superNodes, superNodeName);
        keepAliveLoops := keepAliveLoops + 1;
        requestPollers := requestPollers + 1;
      } else {
        var _ := Start(attempts);
      }
    }

    /** An inbound resourceRequest: serve the first requested name, if this
        peer holds a file of that name, to the requester's observed address
        and claimed port. `files` maps the file names of the resources
        directory to their contents. */
    method OnResourceRequest(msg: Message, remoteAddress: string, files: map<string, string>, sendOk: bool)
      requires msg.ResourceRequest?
      modifies this`outbox
      ensures var served := ServedName(msg.resourceNames);
              if served.Some? && served.value in files then
                outbox == old(outbox) + (if sendOk then [Envelope(Contact(msg.peerNodeName, remoteAddress, msg.peerNodePort),
                                                                  ResourceContent(name, files[served.value]))] else [])
              else outbox == old(outbox)
    {
      var resourceName := ServedName(msg.resourceNames);
      if resourceName.None? {
        return;
      }
      if resourceName.value !in files {
        return;
      }
      var content := files[resourceName.value];
      var peerNodeToSend := Contact(msg.peerNodeName, remoteAddress, msg.peerNodePort);
      SendMessageToNode(Envelope(peerNodeToSend, ResourceContent(name, content)), sendOk);
    }

    /** resourceResponse: when it names a holder, ask that holder directly
        for the one resource, as this peer's name and port. */
    method OnResourceResponse(msg: Message, sendOk: bool)
      requires msg.ResourceResponse?
      modifies this`outbox
      ensures var owner := OwnerOf(msg);
              if owner.Some? && sendOk then
                outbox == old(outbox) + [Envelope(owner.value, ResourceRequest(name, port, [msg.resourceName]))]
              else outbox == old(outbox)
    {
      var owner := OwnerOf(msg);
      if owner.None? {
        return;
      }
      SendMessageToNode(Envelope(owner.value, ResourceRequest(name, port, [msg.resourceName])), sendOk);
    }

    /** One keep-alive tick: nothing while not associated. */
    method KeepAliveTick(sendOk: bool)
      modifies this`outbox
      ensures superNode.None? ==> outbox == old(outbox)
      ensures superNode.Some? ==>
        outbox == old(outbox) + (if sendOk then [Envelope(superNode.value.AsContact(), KeepAlive(name))] else [])
    {
      if superNode.None? {
        return;
      }
      SendMessageToNode(Envelope(superNode.value.AsContact(), KeepAlive(name)), sendOk);
    }

    /** One poll of the request file (`file` is its list of names, nothing
        when the file is missing). */
    method RequestsPollTick(file: Option<seq<string>>, sendOk: bool)
      modifies this`resourceRequest, this`outbox
      ensures var p := PollRequests(old(resourceRequest), file, superNode.Some?);
              resourceRequest == p.snapshot &&
              outbox == old(outbox) + (if p.ask.Some? && sendOk
                                       then [Envelope(superNode.value.AsContact(), ResourceRequest(name, port, p.ask.value))]
                                       else [])
    {
      if file.None? {
        return;
      }
      if resourceRequest.None? {
        resourceRequest := file;
        return;
      }
      if resourceRequest == file {
        return;
      }
      resourceRequest := file;
      if superNode.None? {
        return;
      }
      SendMessageToNode(Envelope(superNode.value.AsContact(), ResourceRequest(name, port, file.value)), sendOk);
    }

    /** The listener: dispatch one inbound message on its tag; the content of
        a resource is only logged, and other tags are ignored. */
    method Receive(msg: Message, remoteAddress: string, files: map<string, string>, sendOk: bool,
                   attempts: seq<Attempt>)
      requires ValidDraws(attempts) && OneWatchdog()
      modifies this
      ensures OneWatchdog()
      ensures !msg.RegisterResponse? ==>
        superNode == old(superNode) && resourceRequest == old(resourceRequest) &&
        listeners == old(listeners) && watchdogs == old(watchdogs) && tryAgainInterval == old(tryAgainInterval) &&
        keepAliveLoops == old(keepAliveLoops) && requestPollers == old(requestPollers)
      ensures (msg.ResourceContent? || msg.Register? || msg.KeepAlive? || msg.SuperNodeReady? ||
               msg.ResourceTransfer? || msg.ResourceSearch?) ==> outbox == old(outbox)
      ensures msg.RegisterResponse? ==> RegisterResponseHandled(msg.superNodeName, msg.status, attempts)
      ensures msg.ResourceRequest? ==>
        var served := ServedName(msg.resourceNames);
        if served.Some? && served.value in files then
          outbox == old(outbox) + (if sendOk then [Envelope(Contact(msg.peerNodeName, remoteAddress, msg.peerNodePort),
                                                            ResourceContent(name, files[served.value]))] else [])
        else outbox == old(outbox)
      ensures msg.ResourceResponse? ==>
        var owner := OwnerOf(msg);
        if owner.Some? && sendOk then
          outbox == old(outbox) + [Envelope(owner.value, ResourceRequest(name, port, [msg.resourceName]))]
        else outbox == old(outbox)
    {
      match msg {
        case RegisterResponse(superNodeName, status) =>
          OnRegisterResponse(superNodeName, status, attempts);
        case ResourceRequest(_, _, _) =>
          OnResourceRequest(msg, remoteAddress, files, sendOk);
        case ResourceResponse(_, _, _, _, _, _) =>
          OnResourceResponse(msg, sendOk);
        case _ =>
      }
    }
  }

  /** The coordinator a name resolved to when the peer associated is still
      what it resolves to after any further coordinators are registered. */
  lemma {:induction false} AssociationSurvivesRegistration(nodes: seq<SuperNodeInfo>, added: seq<SuperNodeInfo>,
                                                           superNodeName: string)
    requires GetSuperNodeByName(nodes, superNodeName).Some?
    ensures GetSuperNodeByName(nodes + added, superNodeName) == GetSuperNodeByName(nodes, superNodeName)
    decreases |added|
  {
    if added != [] {
      var init := added[..|added| - 1];
      AssociationSurvivesRegistration(nodes, init, superNodeName);
      AddKeepsNameLookup(nodes + init, added[|added| - 1], superNodeName);
      assert nodes + added == (nodes + init) + [added[|added| - 1]];
    } else {
      assert nodes + added == nodes;
    }
  }
}
