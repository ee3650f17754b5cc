/** The `useFlowData` hook: what a node reads from upstream is the
    `response.data` its first incoming edge's source node holds. */
module FlowData {
  import opened Wrappers
  import opened Json
  import opened PathResolver
  import opened Graph
  import opened FlowRunner
  import opened Network
  import opened RunNode

  /** `edges.find(e => e.target === nodeId)`, as the position of that edge. */
  function FirstIncoming(edges: seq<Edge>, nodeId: string): (r: Option<nat>)
    ensures r.Some? ==> r.value < |edges| && edges[r.value].target == nodeId
    ensures r.Some? ==> forall j :: 0 <= j < r.value ==> edges[j].target != nodeId
    ensures r.None? ==> forall j :: 0 <= j < |edges| ==> edges[j].target != nodeId
  {
    if edges == [] then None
    else if edges[0].target == nodeId then Some(0)
    else match FirstIncoming(edges[1..], nodeId)
      case None => None
      case Some(i) => Some(i + 1)
  }

  /** The edge the hook picks is the first of the node's incomers, the
      list the runner resolves parameters from. */
  lemma {:induction false} FirstIncomingIsFirstIncomer(edges: seq<Edge>, nodeId: string)
    ensures FirstIncoming(edges, nodeId).None? <==> Incomers(edges, nodeId) == []
    ensures FirstIncoming(edges, nodeId).Some? ==>
      Incomers(edges, nodeId)[0] == edges[FirstIncoming(edges, nodeId).value]
  {
    if edges != [] {
      FirstIncomingIsFirstIncomer(edges[1..], nodeId);
    }
  }

  /** `node.data?.response?.data`: the data of the node's recorded
      response; a missing or null response has none. */
  function ResponseData(n: Node): (r: Option<Json>)
    ensures r.Some? ==> Lookup(n.data, "response").Some? && !Lookup(n.data, "response").value.JNull?
  {
    match Lookup(n.data, "response")
    case None => None
    case Some(JNull) => None
    case Some(response) => Property(response, "data")
  }

  /** `useFlowData(nodeId)`; `None` stands for the hook's `null`. */
  function UseFlowData(nodes: seq<Node>, edges: seq<Edge>, nodeId: string): (r: Option<Json>)
    ensures r.Some? ==> Truthy(r)
    ensures FirstIncoming(edges, nodeId).None? ==> r.None?
    ensures r.Some? ==>
      var source := FindNode(nodes, edges[FirstIncoming(edges, nodeId).value].source);
      source.Some? && r == ResponseData(source.value)
  {
    match FirstIncoming(edges, nodeId)
    case None => None
    case Some(i) =>
      match FindNode(nodes, edges[i].source)
      case None => None
      case Some(source) =>
        if Truthy(ResponseData(source)) then ResponseData(source) else None
  }

  /** `value || {}`: a falsy value, the hook's null among them, becomes
      an empty object. */
  function OrEmptyObject(v: Option<Json>): (r: Json)
    ensures Truthy(v) ==> r == v.value
    ensures !Truthy(v) ==> r == JObj([])
  {
    if Truthy(v) then v.value else JObj([])
  }

  /** `useFlowData(id) || {}` for the hook's value in the current flow. */
  function Upstream(nodes: seq<Node>, edges: seq<Edge>, nodeId: string): (r: Json)
    ensures UseFlowData(nodes, edges, nodeId).Some? ==> r == UseFlowData(nodes, edges, nodeId).value
    ensures UseFlowData(nodes, edges, nodeId).None? ==> r == JObj([])
  {
    OrEmptyObject(UseFlowData(nodes, edges, nodeId))
  }

  /** The hook depends on the first incoming edge only: edges after it
      change nothing. */
  lemma {:induction false} OnlyFirstEdgeCounts(nodes: seq<Node>, edges: seq<Edge>, more: seq<Edge>, nodeId: string)
    requires FirstIncoming(edges, nodeId).Some?
    ensures FirstIncoming(edges + more, nodeId) == FirstIncoming(edges, nodeId)
    ensures UseFlowData(nodes, edges + more, nodeId) == UseFlowData(nodes, edges, nodeId)
  {
    if edges[0].target != nodeId {
      assert (edges + more)[1..] == edges[1..] + more;
      OnlyFirstEdgeCounts(nodes, edges[1..], more, nodeId);
    }
    var i := FirstIncoming(edges, nodeId).value;
    assert (edges + more)[i] == edges[i];
  }

  /** Nodes that carry the same ids in the same order find the same
      position for an id. */
  lemma SameIdsSamePosition(a: seq<Node>, b: seq<Node>, id: string)
    requires NodeIds(a) == NodeIds(b)
    ensures FirstWithId(a, id) == FirstWithId(b, id)
  {
    assert forall j :: 0 <= j < |a| ==> a[j].id == NodeIds(a)[j] == NodeIds(b)[j] == b[j].id;
  }

  /** After a data update the lookup by id finds the updated first node. */
  lemma FindAfterUpdate(nodes: seq<Node>, id: string, patch: seq<Field>)
    requires id in NodeIds(nodes)
    ensures FindNode(Graph.UpdateNodeData(nodes, id, patch), id)
      == Some(FindNode(nodes, id).value.(data := Merge(FindNode(nodes, id).value.data, patch)))
  {
    var after := Graph.UpdateNodeData(nodes, id, patch);
    UpdateKeepsIds(nodes, id, patch);
    SameIdsSamePosition(nodes, after, id);
  }

  /** A node that has recorded a response exposes that response's data. */
  lemma ResponseDataAfter(n: Node, status: Option<Json>, data: Option<Json>)
    ensures ResponseData(n.(data := Merge(n.data, ResponsePatch(status, data)))) == data
  {
    var patch := ResponsePatch(status, data);
    KeysAt(patch, 0);
    KeysAt(patch, 1);
    KeysAt(patch, 2);
    assert Keys(patch) == ["isLoading", "response", "error"];
    MergeLookup(n.data, patch, "response");
    assert Lookup(patch, "response") == Some(JObj(Present("status", status) + Present("data", data)));
    PresentPair("status", status, "data", data);
  }

  /** Once the runner records a response on the first upstream node, the
      hook's callback hands the response's data to the downstream node, or
      null when that data is falsy. Whether the hook calls it again is up
      to the memo below. */
  lemma ReadsRecordedResponse(nodes: seq<Node>, edges: seq<Edge>, nodeId: string, status: Option<Json>, data: Option<Json>)
    requires FirstIncoming(edges, nodeId).Some?
    requires edges[FirstIncoming(edges, nodeId).value].source in NodeIds(nodes)
    ensures
      var source := edges[FirstIncoming(edges, nodeId).value].source;
      var after := Graph.UpdateNodeData(nodes, source, ResponsePatch(status, data));
      UseFlowData(after, edges, nodeId) == if Truthy(data) then data else None
  {
    var source := edges[FirstIncoming(edges, nodeId).value].source;
    FindAfterUpdate(nodes, source, ResponsePatch(status, data));
    ResponseDataAfter(FindNode(nodes, source).value, status, data);
  }

  // ---------------------------------------------------------------------
  // The memoised value

  /** `getNodes().find(n => n.id === nodeId)?.data?.triggerUpdate`: the
      one dependency of the memo that reads the flow. */
  function Trigger(nodes: seq<Node>, nodeId: string): (r: Option<Json>)
    ensures FindNode(nodes, nodeId).None? ==> r.None?
    ensures FindNode(nodes, nodeId).Some? ==> r == Lookup(FindNode(nodes, nodeId).value.data, "triggerUpdate")
  {
    match FindNode(nodes, nodeId)
    case None => None
    case Some(n) => Lookup(n.data, "triggerUpdate")
  }

  /** What `useMemo` keeps between renders: the node id and trigger it
      last saw, and the value it computed then. `getNodes` and `getEdges`
      are the same functions on every render, so they never differ. */
  datatype Memo = Memo(nodeId: string, trigger: Option<Json>, value: Option<Json>)

  /** The dependencies the memo holds are those of this render. */
  predicate Current(m: Memo, nodes: seq<Node>, nodeId: string)
  {
    m.nodeId == nodeId && m.trigger == Trigger(nodes, nodeId)
  }

  /** The first render computes the value. */
  function Mount(nodes: seq<Node>, edges: seq<Edge>, nodeId: string): (m: Memo)
    ensures Current(m, nodes, nodeId) && m.value == UseFlowData(nodes, edges, nodeId)
  {
    Memo(nodeId, Trigger(nodes, nodeId), UseFlowData(nodes, edges, nodeId))
  }

  /** A later render, as written: the value is computed again only when
      the node id or the trigger differs from the last render's. */
  function Render(m: Memo, nodes: seq<Node>, edges: seq<Edge>, nodeId: string): (r: Memo)
    ensures Current(r, nodes, nodeId)
    ensures Current(m, nodes, nodeId) ==> r == m
    ensures !Current(m, nodes, nodeId) ==> r.value == UseFlowData(nodes, edges, nodeId)
  {
    if Current(m, nodes, nodeId) then m else Mount(nodes, edges, nodeId)
  }

  /** A write whose patch does not set `triggerUpdate`. */
  predicate KeepsTrigger(w: Write)
  {
    DistinctKeys(w.patch) && Lookup(w.patch, "triggerUpdate").None?
  }

  /** None of the runner's three patches sets `triggerUpdate`. */
  lemma PatchesKeepTrigger(nodeId: string, status: Option<Json>, data: Option<Json>, message: string)
    ensures KeepsTrigger(Write(nodeId, LoadingPatch()))
    ensures KeepsTrigger(Write(nodeId, ResponsePatch(status, data)))
    ensures KeepsTrigger(Write(nodeId, ErrorPatch(message)))
  {
    var l := LoadingPatch();
    assert Lookup(l, "triggerUpdate") == Lookup(l[1..], "triggerUpdate") == Lookup(l[1..][1..], "triggerUpdate");
    var r := ResponsePatch(status, data);
    assert Lookup(r, "triggerUpdate") == Lookup(r[1..], "triggerUpdate") == Lookup(r[1..][1..], "triggerUpdate");
    var e := ErrorPatch(message);
    assert Lookup(e, "triggerUpdate") == Lookup(e[1..], "triggerUpdate");
  }

  /** No write of one step of the run sets `triggerUpdate`. */
  lemma StepKeepsTrigger(nodeId: string, nodes: seq<Node>, edges: seq<Edge>, results: map<string, Json>,
                         callbackPassed: bool, send: NodeRequest -> Reply)
    ensures forall w :: w in NodeStep(nodeId, nodes, edges, results, callbackPassed, send).writes ==> KeepsTrigger(w)
  {
    match FindNode(nodes, nodeId)
    case None =>
      PatchesKeepTrigger(nodeId, None, None, "");
    case Some(node) =>
      if IsStartType(node.nodeType) {
        PatchesKeepTrigger(nodeId, Some(JNum(200)), Some(StartFields(node)), "");
      } else {
        match RunNodeOutcome(node, results, Incomers(edges, nodeId), callbackPassed, send)
        case Threw(message) =>
          PatchesKeepTrigger(nodeId, None, None, message);
        case Returned(resp) =>
          PatchesKeepTrigger(nodeId, Property(resp, "status"), Property(resp, "data"), "");
      }
  }

  /** No write of a whole run sets `triggerUpdate`. */
  lemma {:induction false} RunKeepsTrigger(order: seq<string>, nodes: seq<Node>, edges: seq<Edge>, results: map<string, Json>,
                                           callbackPassed: bool, send: NodeRequest -> Reply)
    ensures forall w :: w in RunWrites(order, nodes, edges, results, callbackPassed, send) ==> KeepsTrigger(w)
    decreases |order|
  {
    if order != [] {
      var step := NodeStep(order[0], nodes, edges, results, callbackPassed, send);
      StepKeepsTrigger(order[0], nodes, edges, results, callbackPassed, send);
      if step.next.Some? {
        RunKeepsTrigger(order[1..], nodes, edges, step.next.value, callbackPassed, send);
      }
    }
  }

  /** A write that does not set `triggerUpdate` leaves every node's trigger
      as it was. */
  lemma TriggerAfterUpdate(nodes: seq<Node>, w: Write, nodeId: string)
    requires KeepsTrigger(w)
    ensures Trigger(Graph.UpdateNodeData(nodes, w.nodeId, w.patch), nodeId) == Trigger(nodes, nodeId)
  {
    var after := Graph.UpdateNodeData(nodes, w.nodeId, w.patch);
    UpdateKeepsIds(nodes, w.nodeId, w.patch);
    SameIdsSamePosition(nodes, after, nodeId);
    if FindNode(nodes, nodeId).Some? {
      var i := FirstWithId(nodes, nodeId).value;
      if nodes[i].id == w.nodeId {
        MergeLookup(nodes[i].data, w.patch, "triggerUpdate");
      }
    }
  }

  /** ... and so does any sequence of such writes. */
  lemma {:induction false} TriggerAfterWrites(nodes: seq<Node>, ws: seq<Write>, nodeId: string)
    requires forall w :: w in ws ==> KeepsTrigger(w)
    ensures Trigger(ApplyWrites(nodes, ws), nodeId) == Trigger(nodes, nodeId)
    decreases |ws|
  {
    if ws != [] {
      var w := ws[|ws| - 1];
      assert w in ws;
      assert forall x :: x in ws[..|ws| - 1] ==> x in ws;
      TriggerAfterWrites(nodes, ws[..|ws| - 1], nodeId);
      TriggerAfterUpdate(ApplyWrites(nodes, ws[..|ws| - 1]), w, nodeId);
    }
  }

  /** As written, the memo never computes again after a run: whatever the
      run writes and however the edges change, a later render of the same
      node gives the value of the render before the run. */
  lemma MemoIgnoresRun(m: Memo, nodes: seq<Node>, edges: seq<Edge>, order: seq<string>, results: map<string, Json>,
                       callbackPassed: bool, send: NodeRequest -> Reply, edges': seq<Edge>, nodeId: string)
    requires Current(m, nodes, nodeId)
    ensures
      var after := ApplyWrites(nodes, RunWrites(order, nodes, edges, results, callbackPassed, send));
      Render(m, after, edges', nodeId) == m
  {
    var ws := RunWrites(order, nodes, edges, results, callbackPassed, send);
    RunKeepsTrigger(order, nodes, edges, results, callbackPassed, send);
    TriggerAfterWrites(nodes, ws, nodeId);
  }

  /** An upstream node with no response yet, and a graph node after it. */
  function StaleNodes(): seq<Node>
  {
    [Node("api", "apiNode", Position(0, 0), [], None), Node("graph", "graphNode", Position(0, 0), [], None)]
  }

  function StaleEdges(): seq<Edge>
  {
    [Edge("e", "api", "graph")]
  }

  /** The patch that records the upstream node's answer "sunny". */
  function SunnyPatch(): seq<Field>
  {
    ResponsePatch(Some(JNum(200)), Some(JStr("sunny")))
  }

  /** The write that records it on the upstream node. */
  function SunnyWrite(): Write
  {
    Write("api", SunnyPatch())
  }

  /** Before the answer, the graph node reads null. */
  lemma StaleMount()
    ensures FirstIncoming(StaleEdges(), "graph") == Some(0)
    ensures FindNode(StaleNodes(), "api") == Some(StaleNodes()[0])
    ensures Mount(StaleNodes(), StaleEdges(), "graph").value == None
  {
    var nodes, edges := StaleNodes(), StaleEdges();
    assert NodeIds(nodes)[0] == "api";
    assert FirstIncoming(edges, "graph") == Some(0);
    assert Lookup(nodes[0].data, "response") == None;
  }

  /** The flow once the answer is recorded. */
  function SunnyNodes(): seq<Node>
  {
    Graph.UpdateNodeData(StaleNodes(), "api", SunnyPatch())
  }

  /** The trigger did not change, so the memo keeps its value. */
  lemma MemoKeepsNull()
    ensures Render(Mount(StaleNodes(), StaleEdges(), "graph"), SunnyNodes(), StaleEdges(), "graph").value == None
  {
    StaleMount();
    PatchesKeepTrigger("api", Some(JNum(200)), Some(JStr("sunny")), "");
    TriggerAfterUpdate(StaleNodes(), SunnyWrite(), "graph");
  }

  /** The hook itself reads the answer. */
  lemma HookReadsSunny()
    ensures UseFlowData(SunnyNodes(), StaleEdges(), "graph") == Some(JStr("sunny"))
  {
    var nodes, edges := StaleNodes(), StaleEdges();
    StaleMount();
    assert edges[0].source == "api";
    assert "api" in NodeIds(nodes) by {
      assert NodeIds(nodes)[0] == "api";
    }
    ReadsRecordedResponse(nodes, edges, "graph", Some(JNum(200)), Some(JStr("sunny")));
    var source := edges[FirstIncoming(edges, "graph").value].source;
    assert source == "api";
    assert Truthy(Some(JStr("sunny")));
    assert UseFlowData(Graph.UpdateNodeData(nodes, source, SunnyPatch()), edges, "graph") == Some(JStr("sunny"));
  }

  /** The graph node renders before the upstream node has answered; once
      the answer "sunny" is recorded, the hook would read it, but the memo
      still gives null. */
  lemma StaleRead()
    ensures Mount(StaleNodes(), StaleEdges(), "graph").value == None
    ensures Render(Mount(StaleNodes(), StaleEdges(), "graph"), SunnyNodes(), StaleEdges(), "graph").value == None
    ensures UseFlowData(SunnyNodes(), StaleEdges(), "graph") == Some(JStr("sunny"))
  {
    StaleMount();
    MemoKeepsNull();
    HookReadsSunny();
  }

  // ---------------------------------------------------------------------
  // The memo keyed on the flow

  /** A memo whose dependencies are the node list and the edge list
      themselves, so that it computes again whenever the flow changes. */
  datatype FlowMemo = FlowMemo(nodeId: string, nodes: seq<Node>, edges: seq<Edge>, value: Option<Json>)

  /** The value a memo holds is the hook's value for what it last saw. */
  predicate Consistent(m: FlowMemo)
  {
    m.value == UseFlowData(m.nodes, m.edges, m.nodeId)
  }

  function MountFlow(nodes: seq<Node>, edges: seq<Edge>, nodeId: string): (m: FlowMemo)
    ensures Consistent(m) && m.value == UseFlowData(nodes, edges, nodeId)
  {
    FlowMemo(nodeId, nodes, edges, UseFlowData(nodes, edges, nodeId))
  }

  function RenderFlow(m: FlowMemo, nodes: seq<Node>, edges: seq<Edge>, nodeId: string): (r: FlowMemo)
  {
    if m.nodeId == nodeId && m.nodes == nodes && m.edges == edges then m else MountFlow(nodes, edges, nodeId)
  }

  /** Keyed on the flow, the memo always holds the hook's value for the
      current render, and stays consistent. */
  lemma FlowMemoFresh(m: FlowMemo, nodes: seq<Node>, edges: seq<Edge>, nodeId: string)
    requires Consistent(m)
    ensures Consistent(RenderFlow(m, nodes, edges, nodeId))
    ensures RenderFlow(m, nodes, edges, nodeId).value == UseFlowData(nodes, edges, nodeId)
  {
  }

  /** Keyed on the flow, a graph node rendered after the upstream node
      records a response reads that response's data. */
  lemma FlowMemoReadsResponse(m: FlowMemo, nodes: seq<Node>, edges: seq<Edge>, nodeId: string,
                              status: Option<Json>, data: Option<Json>)
    requires Consistent(m)
    requires FirstIncoming(edges, nodeId).Some?
    requires edges[FirstIncoming(edges, nodeId).value].source in NodeIds(nodes)
    ensures
      var source := edges[FirstIncoming(edges, nodeId).value].source;
      var after := Graph.UpdateNodeData(nodes, source, ResponsePatch(status, data));
      RenderFlow(m, after, edges, nodeId).value == if Truthy(data) then data else None
  {
    var source := edges[FirstIncoming(edges, nodeId).value].source;
    FlowMemoFresh(m, Graph.UpdateNodeData(nodes, source, ResponsePatch(status, data)), edges, nodeId);
    ReadsRecordedResponse(nodes, edges, nodeId, status, data);
  }
}
