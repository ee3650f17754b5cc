/** The zustand store that holds the flow being edited: the node and edge
    lists, the selection and the context menu. Each action replaces some of
    these fields through `set`; the new lists come from the list operations
    of the Graph module. */
module FlowStore {
  import opened Wrappers
  import opened Json
  import opened Graph

  class Store {
    var nodes: seq<Node>
    var edges: seq<Edge>
    var selectedNode: Option<string>
    var selectedEdge: Option<string>
    var contextMenu: ContextMenu

    /** The flow held by the store is well formed. */
    ghost predicate Valid()
      reads this
    {
      WellFormed(nodes, edges)
    }

    /** A store with nothing persisted: the start node, no edges, nothing
        selected and the menu hidden. */
    constructor ()
      ensures nodes == InitialNodes() && edges == []
      ensures selectedNode == None && selectedEdge == None && contextMenu == HiddenMenu()
      ensures Valid()
    {
      nodes := InitialNodes();
      edges := [];
      selectedNode := None;
      selectedEdge := None;
      contextMenu := HiddenMenu();
    }

    /** Appends a node of a known palette kind and returns its id; an
        unknown kind changes nothing and returns no id. */
    method AddNode(kind: string, position: Position, suffix: string) returns (id: Option<string>)
      modifies this
      ensures NewNode(kind, position, suffix).None? ==> id == None && nodes == old(nodes)
      ensures NewNode(kind, position, suffix).Some? ==>
        && id == Some(kind + "-" + suffix)
        && nodes == old(nodes) + [NewNode(kind, position, suffix).value]
      ensures edges == old(edges) && selectedNode == old(selectedNode)
      ensures selectedEdge == old(selectedEdge) && contextMenu == old(contextMenu)
      ensures old(Valid()) && (id.Some? ==> id.value !in old(NodeIds(nodes))) ==> Valid()
    {
      var node := NewNode(kind, position, suffix);
      if node.None? {
        return None;
      }
      Append(node.value);
      id := Some(node.value.id);
    }

    /** `set(state => ({...state, nodes: [...state.nodes, node]}))`. */
    method Append(node: Node)
      modifies this
      ensures nodes == old(nodes) + [node]
      ensures edges == old(edges) && selectedNode == old(selectedNode)
      ensures selectedEdge == old(selectedEdge) && contextMenu == old(contextMenu)
      ensures old(Valid()) && node.id !in old(NodeIds(nodes)) ==> Valid()
    {
      if Valid() && node.id !in NodeIds(nodes) {
        AppendKeepsWellFormed(nodes, edges, node);
      }
      nodes := nodes + [node];
    }

    /** Shallow-merges `patch` into the data of the nodes carrying `nodeId`. */
    method UpdateNodeData(nodeId: string, patch: seq<Field>)
      modifies this
      ensures nodes == Graph.UpdateNodeData(old(nodes), nodeId, patch)
      ensures edges == old(edges) && selectedNode == old(selectedNode)
      ensures selectedEdge == old(selectedEdge) && contextMenu == old(contextMenu)
      ensures NodeIds(nodes) == NodeIds(old(nodes))
      ensures old(Valid()) ==> Valid()
    {
      UpdateKeepsIds(nodes, nodeId, patch);
      nodes := Graph.UpdateNodeData(nodes, nodeId, patch);
    }

    /** Removes the node and every edge that starts or ends at it. */
    method DeleteNode(nodeId: string)
      modifies this
      ensures nodes == RemoveNode(old(nodes), nodeId)
      ensures edges == RemoveIncidentEdges(old(edges), nodeId)
      ensures selectedNode == old(selectedNode) && selectedEdge == old(selectedEdge)
      ensures contextMenu == old(contextMenu)
      ensures old(Valid()) ==> Valid()
    {
      if Valid() {
        DeleteKeepsWellFormed(nodes, edges, nodeId);
      }
      nodes := RemoveNode(nodes, nodeId);
      edges := RemoveIncidentEdges(edges, nodeId);
    }

    /** Appends a moved, deselected copy of the first node carrying
        `nodeId` and returns the copy's id; a missing id changes nothing. */
    method DuplicateNode(nodeId: string, suffix: string) returns (newId: Option<string>)
      modifies this
      ensures FindNode(old(nodes), nodeId).None? ==> newId == None && nodes == old(nodes)
      ensures FindNode(old(nodes), nodeId).Some? ==>
        var copy := Duplicate(FindNode(old(nodes), nodeId).value, suffix);
        newId == Some(copy.id) && nodes == old(nodes) + [copy]
      ensures edges == old(edges) && selectedNode == old(selectedNode)
      ensures selectedEdge == old(selectedEdge) && contextMenu == old(contextMenu)
      ensures old(Valid()) && (newId.Some? ==> newId.value !in old(NodeIds(nodes))) ==> Valid()
    {
      var node := FindNode(nodes, nodeId);
      if node.None? {
        return None;
      }
      var copy := Duplicate(node.value, suffix);
      Append(copy);
      newId := Some(copy.id);
    }

    /** Removes every edge carrying `edgeId`. */
    method DeleteEdge(edgeId: string)
      modifies this
      ensures edges == RemoveEdge(old(edges), edgeId)
      ensures nodes == old(nodes) && selectedNode == old(selectedNode)
      ensures selectedEdge == old(selectedEdge) && contextMenu == old(contextMenu)
      ensures old(Valid()) ==> Valid()
    {
      edges := RemoveEdge(edges, edgeId);
    }

    method SetSelectedNode(nodeId: Option<string>)
      modifies this
      ensures selectedNode == nodeId
      ensures nodes == old(nodes) && edges == old(edges)
      ensures selectedEdge == old(selectedEdge) && contextMenu == old(contextMenu)
    {
      selectedNode := nodeId;
    }

    method SetSelectedEdge(edgeId: Option<string>)
      modifies this
      ensures selectedEdge == edgeId
      ensures nodes == old(nodes) && edges == old(edges)
      ensures selectedNode == old(selectedNode) && contextMenu == old(contextMenu)
    {
      selectedEdge := edgeId;
    }

    /** Opens the context menu at `position` for a node, an edge or the pane. */
    method ShowContextMenu(position: Position, nodeId: Option<string>, edgeId: Option<string>)
      modifies this
      ensures contextMenu == ContextMenu(true, position, nodeId, edgeId)
      ensures nodes == old(nodes) && edges == old(edges)
      ensures selectedNode == old(selectedNode) && selectedEdge == old(selectedEdge)
    {
      contextMenu := ContextMenu(true, position, nodeId, edgeId);
    }

    /** Closes the context menu and clears where it was and what it was for. */
    method HideContextMenu()
      modifies this
      ensures !contextMenu.visible && contextMenu.position == Position(0, 0)
      ensures contextMenu.nodeId == None && contextMenu.edgeId == None
      ensures nodes == old(nodes) && edges == old(edges)
      ensures selectedNode == old(selectedNode) && selectedEdge == old(selectedEdge)
    {
      contextMenu := HiddenMenu();
    }

    /** The current node and edge lists. */
    method ExportFlow() returns (flowNodes: seq<Node>, flowEdges: seq<Edge>)
      ensures flowNodes == nodes && flowEdges == edges
    {
      flowNodes, flowEdges := nodes, edges;
    }

    /** Replaces both lists when the flow carries both, and reports whether
        it did; otherwise nothing changes. */
    method ImportFlow(flow: Option<FlowInput>) returns (ok: bool)
      modifies this
      ensures ok <==> flow.Some? && flow.value.nodes.Some? && flow.value.edges.Some?
      ensures ok ==> nodes == flow.value.nodes.value && edges == flow.value.edges.value
      ensures !ok ==> nodes == old(nodes) && edges == old(edges)
      ensures selectedNode == old(selectedNode) && selectedEdge == old(selectedEdge)
      ensures contextMenu == old(contextMenu)
    {
      if !ValidImport(flow) {
        return false;
      }
      nodes := flow.value.nodes.value;
      edges := flow.value.edges.value;
      ok := true;
    }

    /** Back to the single start node and no edges; selection and menu are
        kept. */
    method ResetFlow()
      modifies this
      ensures |nodes| == 1 && nodes[0].id == "start-node" && nodes[0].nodeType == "startNode"
      ensures nodes == InitialNodes() && edges == []
      ensures selectedNode == old(selectedNode) && selectedEdge == old(selectedEdge)
      ensures contextMenu == old(contextMenu)
      ensures Valid()
    {
      nodes := InitialNodes();
      edges := [];
    }
  }
}
