/** The membership registry: the ordered list of coordinators every node is
    given at start-up, and the queries the protocol runs against it. */
module Registry {
  import opened Messages

  /** What the registry records of one coordinator: its contact and its ring
      position ("order"). */
  datatype SuperNodeInfo = SuperNodeInfo(name: string, address: string, port: nat, order: nat) {
    function AsContact(): Contact {
      Contact(name, address, port)
    }
  }

  /** Index of the first entry that satisfies `matches`, as the list's `find` scans. */
  function FindFirst(nodes: seq<SuperNodeInfo>, matches: SuperNodeInfo -> bool): (r: Option<nat>)
    ensures r.Some? ==> r.value < |nodes| && matches(nodes[r.value])
    ensures r.Some? ==> forall j :: 0 <= j < r.value ==> !matches(nodes[j])
    ensures r.None? ==> forall j :: 0 <= j < |nodes| ==> !matches(nodes[j])
  {
    if |nodes| == 0 then None
    else if matches(nodes[0]) then Some(0)
    else match FindFirst(nodes[1..], matches)
      case None => None
      case Some(i) => Some(i + 1)
  }

  /** The first coordinator registered under `name`, if any. */
  function GetSuperNodeByName(nodes: seq<SuperNodeInfo>, name: string): (r: Option<SuperNodeInfo>)
    ensures r.None? <==> forall j :: 0 <= j < |nodes| ==> nodes[j].name != name
    ensures r.Some? ==> r.value.name == name
    ensures r.Some? ==> exists i :: 0 <= i < |nodes| && nodes[i] == r.value &&
                                    forall j :: 0 <= j < i ==> nodes[j].name != name
  {
    match FindFirst(nodes, (s: SuperNodeInfo) => s.name == name)
    case None => None
    case Some(i) => Some(nodes[i])
  }

  /** The entry at index floor(draw * N) for a draw in [0, 1); indexing the empty
      list yields nothing. */
  function GetRandomSuperNode(nodes: seq<SuperNodeInfo>, draw: real): (r: Option<SuperNodeInfo>)
    requires 0.0 <= draw < 1.0
    ensures r.None? <==> |nodes| == 0
    ensures r.Some? ==> r.value in nodes
  {
    var x := draw * (|nodes| as real);
    assert x < |nodes| as real || |nodes| == 0 by {
      if |nodes| > 0 {
        assert (|nodes| as real) - x == (1.0 - draw) * (|nodes| as real);
      }
    }
    var i := x.Floor;
    if 0 <= i < |nodes| then Some(nodes[i]) else None
  }

  /** Copies of every registered coordinator, in registration order. */
  function GetAllSuperNodes(nodes: seq<SuperNodeInfo>): (r: seq<SuperNodeInfo>)
    ensures |r| == |nodes|
    ensures forall i :: 0 <= i < |r| ==>
      r[i].name == nodes[i].name && r[i].address == nodes[i].address &&
      r[i].port == nodes[i].port && r[i].order == nodes[i].order
  {
    seq(|nodes|, i requires 0 <= i < |nodes| =>
      SuperNodeInfo(nodes[i].name, nodes[i].address, nodes[i].port, nodes[i].order))
  }

  /** The coordinator whose order is `(order + 1) mod N`; none when no entry has
      that order, and none for an empty registry (the modulus is then NaN). */
  function GetNextSuperNode(nodes: seq<SuperNodeInfo>, order: nat): (r: Option<SuperNodeInfo>)
    ensures |nodes| == 0 ==> r.None?
    ensures |nodes| > 0 ==>
      (r.None? <==> forall j :: 0 <= j < |nodes| ==> nodes[j].order != (order + 1) % |nodes|)
    ensures r.Some? ==> r.value in nodes && r.value.order == (order + 1) % |nodes|
    ensures r.Some? ==> exists i :: 0 <= i < |nodes| && nodes[i] == r.value &&
                                    forall j :: 0 <= j < i ==> nodes[j].order != (order + 1) % |nodes|
  {
    if |nodes| == 0 then None
    else
      var nextOrder := (order + 1) % |nodes|;
      match FindFirst(nodes, (s: SuperNodeInfo) => s.order == nextOrder)
      case None => None
      case Some(i) => Some(nodes[i])
  }

  /** The number of partitions, one per registered coordinator. */
  function GetPartitionsNumber(nodes: seq<SuperNodeInfo>): (n: nat)
    ensures n == |nodes|
  {
    |nodes|
  }

  /** Registering a further coordinator never changes which entry a name that
      was already present resolves to. */
  lemma {:induction false} AddKeepsNameLookup(nodes: seq<SuperNodeInfo>, added: SuperNodeInfo, name: string)
    requires GetSuperNodeByName(nodes, name).Some?
    ensures GetSuperNodeByName(nodes + [added], name) == GetSuperNodeByName(nodes, name)
  {
    var r := GetSuperNodeByName(nodes, name);
    var i :| 0 <= i < |nodes| && nodes[i] == r.value && forall j :: 0 <= j < i ==> nodes[j].name != name;
    var r' := GetSuperNodeByName(nodes + [added], name);
    assert (nodes + [added])[i].name == name;
    var i' :| 0 <= i' < |nodes + [added]| && (nodes + [added])[i'] == r'.value &&
              forall j :: 0 <= j < i' ==> (nodes + [added])[j].name != name;
    assert (nodes + [added])[i] == nodes[i];
  }

  /** The process-wide registry: the list of coordinators, appended to while the
      configuration is loaded and only read afterwards. */
  class System {
    var superNodes: seq<SuperNodeInfo>

    constructor ()
      ensures superNodes == []
    {
      superNodes := [];
    }

    /** Appends at the end; entries already present keep their positions. */
    method AddSuperNode(superNode: SuperNodeInfo)
      modifies this
      ensures superNodes == old(superNodes) + [superNode]
      ensures |superNodes| == |old(superNodes)| + 1
      ensures forall i :: 0 <= i < |old(superNodes)| ==> superNodes[i] == old(superNodes)[i]
    {
      superNodes := superNodes + [superNode];
    }
  }
}
