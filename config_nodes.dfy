/** Graph-node settings: each node's position and flags, and the list of
    nodes kept together with an id-to-node dictionary for quick lookup. The
    dictionary holds the same node objects as the list, so a node changed
    through one is changed as seen through the other. */
module NodeConfigs {
  import opened Wrappers

  /** One graph node; id 0 is the project node. */
  class NodeConfig {
    const id: int
    var x: Option<int>
    var y: Option<int>
    var selected: bool
    var expanded: bool

    constructor (nodeId: int, x: Option<int>, y: Option<int>, selected: bool, expanded: bool)
      ensures id == nodeId && this.x == x && this.y == y
      ensures this.selected == selected && this.expanded == expanded
    {
      id := nodeId;
      this.x := x;
      this.y := y;
      this.selected := selected;
      this.expanded := expanded;
    }

    function GetPosition(): (Option<int>, Option<int>)
      reads this
    {
      (x, y)
    }

    method SetPosition(newX: int, newY: int)
      modifies this
      ensures GetPosition() == (Some(newX), Some(newY))
      ensures selected == old(selected) && expanded == old(expanded)
    {
      x := Some(newX);
      y := Some(newY);
    }

    method SetSelected(value: bool)
      modifies this`selected
      ensures selected == value
    {
      selected := value;
    }

    method SetExpanded(value: bool)
      modifies this`expanded
      ensures expanded == value
    {
      expanded := value;
    }
  }

  /** The dictionary a list of nodes gives, entered in list order: for a
      repeated id the later node wins. */
  function DictOf(nodes: seq<NodeConfig>): map<int, NodeConfig>
  {
    if nodes == [] then map[]
    else DictOf(nodes[..|nodes| - 1])[nodes[|nodes| - 1].id := nodes[|nodes| - 1]]
  }

  /** Node `k` is the last one in the list with its id. */
  predicate LastWithId(nodes: seq<NodeConfig>, k: int)
    requires 0 <= k < |nodes|
  {
    forall j :: k < j < |nodes| ==> nodes[j].id != nodes[k].id
  }

  /** The dictionary holds exactly the ids of the list. */
  lemma {:induction false} DictOfKeys(nodes: seq<NodeConfig>)
    ensures forall id :: id in DictOf(nodes) <==> exists k :: 0 <= k < |nodes| && nodes[k].id == id
  {
    if nodes != [] {
      var init := nodes[..|nodes| - 1];
      var last := nodes[|nodes| - 1];
      DictOfKeys(init);
      assert DictOf(nodes) == DictOf(init)[last.id := last];
      forall id | id in DictOf(nodes) ensures exists k :: 0 <= k < |nodes| && nodes[k].id == id {
        if id != last.id {
          assert id in DictOf(init);
          var k :| 0 <= k < |init| && init[k].id == id;
          assert nodes[k].id == id;
        } else {
          assert nodes[|nodes| - 1].id == id;
        }
      }
      forall id | exists k :: 0 <= k < |nodes| && nodes[k].id == id ensures id in DictOf(nodes) {
        var k :| 0 <= k < |nodes| && nodes[k].id == id;
        if k < |init| {
          assert init[k].id == id;
        }
      }
    }
  }

  /** Each id maps to the last node in the list with that id. */
  lemma {:induction false} DictOfLast(nodes: seq<NodeConfig>)
    ensures forall k :: 0 <= k < |nodes| && LastWithId(nodes, k) ==>
              nodes[k].id in DictOf(nodes) && DictOf(nodes)[nodes[k].id] == nodes[k]
  {
    if nodes != [] {
      var init := nodes[..|nodes| - 1];
      var last := nodes[|nodes| - 1];
      DictOfLast(init);
      assert DictOf(nodes) == DictOf(init)[last.id := last];
      forall k | 0 <= k < |nodes| && LastWithId(nodes, k)
        ensures nodes[k].id in DictOf(nodes) && DictOf(nodes)[nodes[k].id] == nodes[k]
      {
        if k < |init| {
          assert nodes[|nodes| - 1].id != nodes[k].id;
          assert LastWithId(init, k);
        }
      }
    }
  }

  /** The dictionary holds exactly the ids of the list, and each id maps to
      the last node in the list with that id. */
  lemma DictOfLastWins(nodes: seq<NodeConfig>)
    ensures forall id :: id in DictOf(nodes) <==> exists k :: 0 <= k < |nodes| && nodes[k].id == id
    ensures forall k :: 0 <= k < |nodes| && LastWithId(nodes, k) ==> DictOf(nodes)[nodes[k].id] == nodes[k]
  {
    DictOfKeys(nodes);
    DictOfLast(nodes);
  }

  /** `NodeConfigList`: the nodes in order, and `_nodesDict`. */
  class NodeConfigList {
    var nodes: seq<NodeConfig>
    var nodesDict: map<int, NodeConfig>

    /** The dictionary is the one the list gives. */
    predicate Synced()
      reads this
    {
      nodesDict == DictOf(nodes)
    }

    constructor ()
      ensures nodes == [] && nodesDict == map[]
      ensures Synced()
    {
      nodes := [];
      nodesDict := map[];
    }

    /** `getNode`: the node with that id, or `None`. */
    function GetNode(nodeId: int): (r: Option<NodeConfig>)
      reads this
      ensures r.Some? <==> nodeId in nodesDict
      ensures r.Some? ==> r.value == nodesDict[nodeId]
    {
      if nodeId in nodesDict then Some(nodesDict[nodeId]) else None
    }

    /** `addNode`: a new node at the end of the list, entered in the
        dictionary under its id. */
    method AddNode(nodeId: int, x: Option<int>, y: Option<int>, selected: bool, expanded: bool)
      returns (node: NodeConfig)
      modifies this
      ensures fresh(node)
      ensures node.id == nodeId && node.GetPosition() == (x, y)
      ensures node.selected == selected && node.expanded == expanded
      ensures nodes == old(nodes) + [node]
      ensures nodesDict == old(nodesDict)[nodeId := node]
      ensures GetNode(nodeId) == Some(node)
      ensures old(Synced()) ==> Synced()
    {
      node := new NodeConfig(nodeId, x, y, selected, expanded);
      nodesDict := nodesDict[node.id := node];
      nodes := nodes + [node];
      assert nodes[..|nodes| - 1] == old(nodes);
    }

    /** `updateDict`: rebuild the dictionary from the list. */
    method UpdateDict()
      modifies this`nodesDict
      ensures nodesDict == DictOf(nodes)
      ensures Synced()
    {
      nodesDict := map[];
      var k := 0;
      while k < |nodes|
        invariant 0 <= k <= |nodes|
        invariant nodesDict == DictOf(nodes[..k])
      {
        assert nodes[..k + 1][..k] == nodes[..k];
        nodesDict := nodesDict[nodes[k].id := nodes[k]];
        k := k + 1;
      }
      assert nodes[..k] == nodes;
    }

    /** `clear`: empty both the list and the dictionary. */
    method Clear()
      modifies this
      ensures nodes == [] && nodesDict == map[]
      ensures Synced()
    {
      nodes := [];
      nodesDict := map[];
    }
  }

  /** In a synced list, `getNode` finds every id of the list, and finds the
      last node carrying it. */
  lemma GetNodeOfSynced(list: NodeConfigList, k: int)
    requires list.Synced()
    requires 0 <= k < |list.nodes| && LastWithId(list.nodes, k)
    ensures list.GetNode(list.nodes[k].id) == Some(list.nodes[k])
  {
    DictOfLastWins(list.nodes);
  }
}
