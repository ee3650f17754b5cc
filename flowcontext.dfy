/** The React context provider that offers the same node and edge actions
    as the zustand store. Its state lives in separate `useState` cells; the
    list actions hand an updater to `setNodes` or `setEdges`, which applies
    it to the previous list. */
module FlowContext {
  import opened Wrappers
  import opened Json
  import opened Graph

  class Context {
    var nodes: seq<Node>
    var edges: seq<Edge>
    var selectedNode: Option<string>
    var selectedEdge: Option<string>
    var contextMenu: ContextMenu

    /** The flow held by the provider is well formed. */
    ghost predicate Valid()
      reads this
    {
      WellFormed(nodes, edges)
    }

    /** The provider's first render with nothing persisted. */
    constructor ()
      ensures nodes == InitialNodes() && edges == []
      ensures selectedNode == None && selectedEdge == None && contextMenu == HiddenMenu()
      ensures Valid()
    {
      nodes := InitialNodes();
      edges := [];
      selectedNode := None;
      selectedEdge := None;
      contextMenu := HiddenMenu();
    }

    /** `setNodes(prev => update(prev))`: only the node cell changes. */
    method SetNodes(update: seq<Node> -> seq<Node>)
      modifies this
      ensures nodes == update(old(nodes))
      ensures edges == old(edges) && selectedNode == old(selectedNode)
      ensures selectedEdge == old(selectedEdge) && contextMenu == old(contextMenu)
    {
      nodes := update(nodes);
    }

    /** `setEdges(prev => update(prev))`: only the edge cell changes. */
    method SetEdges(update: seq<Edge> -> seq<Edge>)
      modifies this
      ensures edges == update(old(edges))
      ensures nodes == old(nodes) && selectedNode == old(selectedNode)
      ensures selectedEdge == old(selectedEdge) && contextMenu == old(contextMenu)
    {
      edges := update(edges);
    }

    /** Appends a node of a known palette kind and returns its id; an
        unknown kind changes nothing and returns no id. */
    method AddNode(kind: string, position: Position, suffix: string) returns (id: Option<string>)
      modifies this
      ensures NewNode(kind, position, suffix).None? ==> id == None && nodes == old(nodes)
      ensures NewNode(kind, position, suffix).Some? ==>
        && id == Some(kind + "-" + suffix)
        && nodes == old(nodes) + [NewNode(kind, position, suffix).value]
      ensures edges == old(edges) && selectedNode == old(selectedNode)
      ensures selectedEdge == old(selectedEdge) && contextMenu == old(contextMenu)
      ensures old(Valid()) && (id.Some? ==> id.value !in old(NodeIds(nodes))) ==> Valid()
    {
      var node := NewNode(kind, position, suffix);
      if node.None? {
        return None;
      }
      var n := node.value;
      KeepsValidAppending(n);
      SetNodes(prev => prev + [n]);
      id := Some(n.id);
    }

    /** The well-formedness fact behind appending `n` to the current nodes. */
    lemma KeepsValidAppending(n: Node)
      ensures Valid() && n.id !in NodeIds(nodes) ==> WellFormed(nodes + [n], edges)
    {
      if Valid() && n.id !in NodeIds(nodes) {
        AppendKeepsWellFormed(nodes, edges, n);
      }
    }

    /** Shallow-merges `patch` into the data of the nodes carrying `nodeId`. */
    method UpdateNodeData(nodeId: string, patch: seq<Field>)
      modifies this
      ensures nodes == Graph.UpdateNodeData(old(nodes), nodeId, patch)
      ensures edges == old(edges) && selectedNode == old(selectedNode)
      ensures selectedEdge == old(selectedEdge) && contextMenu == old(contextMenu)
      ensures NodeIds(nodes) == NodeIds(old(nodes))
      ensures old(Valid()) ==> Valid()
    {
      UpdateKeepsIds(nodes, nodeId, patch);
      SetNodes(prev => Graph.UpdateNodeData(prev, nodeId, patch));
    }

    /** Removes the node, then every edge that starts or ends at it. */
    method DeleteNode(nodeId: string)
      modifies this
      ensures nodes == RemoveNode(old(nodes), nodeId)
      ensures edges == RemoveIncidentEdges(old(edges), nodeId)
      ensures selectedNode == old(selectedNode) && selectedEdge == old(selectedEdge)
      ensures contextMenu == old(contextMenu)
      ensures old(Valid()) ==> Valid()
    {
      if Valid() {
        DeleteKeepsWellFormed(nodes, edges, nodeId);
      }
      SetNodes(prev => RemoveNode(prev, nodeId));
      SetEdges(prev => RemoveIncidentEdges(prev, nodeId));
    }

    /** Appends a moved, deselected copy of the first node carrying
        `nodeId` and returns the copy's id; a missing id changes nothing. */
    method DuplicateNode(nodeId: string, suffix: string) returns (newId: Option<string>)
      modifies this
      ensures FindNode(old(nodes), nodeId).None? ==> newId == None && nodes == old(nodes)
      ensures FindNode(old(nodes), nodeId).Some? ==>
        var copy := Duplicate(FindNode(old(nodes), nodeId).value, suffix);
        newId == Some(copy.id) && nodes == old(nodes) + [copy]
      ensures edges == old(edges) && selectedNode == old(selectedNode)
      ensures selectedEdge == old(selectedEdge) && contextMenu == old(contextMenu)
      ensures old(Valid()) && (newId.Some? ==> newId.value !in old(NodeIds(nodes))) ==> Valid()
    {
      var node := FindNode(nodes, nodeId);
      if node.None? {
        return None;
      }
      var copy := Duplicate(node.value, suffix);
      KeepsValidAppending(copy);
      SetNodes(prev => prev + [copy]);
      newId := Some(copy.id);
    }

    /** Removes every edge carrying `edgeId`. */
    method DeleteEdge(edgeId: string)
      modifies this
      ensures edges == RemoveEdge(old(edges), edgeId)
      ensures nodes == old(nodes) && selectedNode == old(selectedNode)
      ensures selectedEdge == old(selectedEdge) && contextMenu == old(contextMenu)
      ensures old(Valid()) ==> Valid()
    {
      SetEdges(prev => RemoveEdge(prev, edgeId));
    }

    /** The `setSelectedNode` state setter. */
    method SetSelectedNode(nodeId: Option<string>)
      modifies this
      ensures selectedNode == nodeId
      ensures nodes == old(nodes) && edges == old(edges)
      ensures selectedEdge == old(selectedEdge) && contextMenu == old(contextMenu)
    {
      selectedNode := nodeId;
    }

    /** The `setSelectedEdge` state setter. */
    method SetSelectedEdge(edgeId: Option<string>)
      modifies this
      ensures selectedEdge == edgeId
      ensures nodes == old(nodes) && edges == old(edges)
      ensures selectedNode == old(selectedNode) && contextMenu == old(contextMenu)
    {
      selectedEdge := edgeId;
    }

    /** Opens the context menu at `position` for a node, an edge or the pane. */
    method ShowContextMenu(position: Position, nodeId: Option<string>, edgeId: Option<string>)
      modifies this
      ensures contextMenu == ContextMenu(true, position, nodeId, edgeId)
      ensures nodes == old(nodes) && edges == old(edges)
      ensures selectedNode == old(selectedNode) && selectedEdge == old(selectedEdge)
    {
      contextMenu := ContextMenu(true, position, nodeId, edgeId);
    }

    /** Closes the context menu and clears where it was and what it was for. */
    method HideContextMenu()
      modifies this
      ensures !contextMenu.visible && contextMenu.position == Position(0, 0)
      ensures contextMenu.nodeId == None && contextMenu.edgeId == None
      ensures nodes == old(nodes) && edges == old(edges)
      ensures selectedNode == old(selectedNode) && selectedEdge == old(selectedEdge)
    {
      contextMenu := HiddenMenu();
    }

    /** The node and edge lists of the current render. */
    method ExportFlow() returns (flowNodes: seq<Node>, flowEdges: seq<Edge>)
      ensures flowNodes == nodes && flowEdges == edges
    {
      flowNodes, flowEdges := nodes, edges;
    }

    /** Replaces both lists when the flow carries both, and reports whether
        it did; otherwise nothing changes. */
    method ImportFlow(flow: Option<FlowInput>) returns (ok: bool)
      modifies this
      ensures ok <==> flow.Some? && flow.value.nodes.Some? && flow.value.edges.Some?
      ensures ok ==> nodes == flow.value.nodes.value && edges == flow.value.edges.value
      ensures !ok ==> nodes == old(nodes) && edges == old(edges)
      ensures selectedNode == old(selectedNode) && selectedEdge == old(selectedEdge)
      ensures contextMenu == old(contextMenu)
    {
      if !ValidImport(flow) {
        return false;
      }
      var imported := flow.value;
      SetNodes(_ => imported.nodes.value);
      SetEdges(_ => imported.edges.value);
      ok := true;
    }

    /** Back to the single start node and no edges; selection and menu are
        kept. */
    method ResetFlow()
      modifies this
      ensures |nodes| == 1 && nodes[0].id == "start-node" && nodes[0].nodeType == "startNode"
      ensures nodes == InitialNodes() && edges == []
      ensures selectedNode == old(selectedNode) && selectedEdge == old(selectedEdge)
      ensures contextMenu == old(contextMenu)
      ensures Valid()
    {
      SetNodes(_ => InitialNodes());
      SetEdges(_ => []);
    }
  }
}
