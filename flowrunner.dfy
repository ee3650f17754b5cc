/** The "Run all" button: sort the flow, then run its nodes one after the
    other in that order, keeping every node's result for the nodes
    downstream and writing each node's status into the flow context. */
module FlowRunner {
  import opened Wrappers
  import opened Json
  import opened PathResolver
  import opened Graph
  import opened Network
  import opened TopoSort
  import opened RunNode
  import opened FlowContext

  /** One `updateNodeData(nodeId, patch)` call. */
  datatype Write = Write(nodeId: string, patch: seq<Field>)

  /** The spinner: loading, with response and error cleared. */
  function LoadingPatch(): seq<Field>
  {
    [Field("isLoading", JBool(true)), Field("response", JNull), Field("error", JNull)]
  }

  /** A settled node: not loading, its response recorded, no error. */
  function ResponsePatch(status: Option<Json>, data: Option<Json>): seq<Field>
  {
    [Field("isLoading", JBool(false)),
     Field("response", JObj(Present("status", status) + Present("data", data))),
     Field("error", JNull)]
  }

  /** A failed node: not loading and the error's message; the response is
      left as it was. */
  function ErrorPatch(message: string): seq<Field>
  {
    [Field("isLoading", JBool(false)), Field("error", JObj([Field("message", JStr(message))]))]
  }

  /** A write that reports an error. */
  predicate Failed(w: Write)
  {
    Lookup(w.patch, "error").Some? && Lookup(w.patch, "error").value.JObj?
  }

  /** `results[nodeId] = data`; storing undefined reads like no entry. */
  function Store(results: map<string, Json>, nodeId: string, data: Option<Json>): map<string, Json>
  {
    if data.Some? then results[nodeId := data.value] else results - {nodeId}
  }

  /** What the loop does for one node: the writes it issues, and the
      results it carries on with, or `None` when the run stops there. */
  datatype Step = Step(writes: seq<Write>, next: Option<map<string, Json>>)

  /** One iteration for `nodeId`, given the results of the nodes before
      it. The node record is the one of the render the run started from.
      A missing node makes `node.type` throw after the spinner write; a
      thrown `runNode` stops the run after the error write. */
  function NodeStep(nodeId: string, nodes: seq<Node>, edges: seq<Edge>, results: map<string, Json>,
                    callbackPassed: bool, send: NodeRequest -> Reply): Step
  {
    var loading := Write(nodeId, LoadingPatch());
    match FindNode(nodes, nodeId)
    case None => Step([loading], None)
    case Some(node) =>
      if IsStartType(node.nodeType) then
        var fields := StartFields(node);
        Step([loading, Write(nodeId, ResponsePatch(Some(JNum(200)), Some(fields)))], Some(results[nodeId := fields]))
      else
        match RunNodeOutcome(node, results, Incomers(edges, nodeId), callbackPassed, send)
        case Threw(message) => Step([loading, Write(nodeId, ErrorPatch(message))], None)
        case Returned(resp) =>
          var data := Property(resp, "data");
          Step([loading, Write(nodeId, ResponsePatch(Property(resp, "status"), data))], Some(Store(results, nodeId, data)))
  }

  /** The writes the loop issues for the nodes of `order`. */
  function RunWrites(order: seq<string>, nodes: seq<Node>, edges: seq<Edge>, results: map<string, Json>,
                     callbackPassed: bool, send: NodeRequest -> Reply): seq<Write>
    decreases |order|
  {
    if order == [] then []
    else
      var step := NodeStep(order[0], nodes, edges, results, callbackPassed, send);
      match step.next
      case None => step.writes
      case Some(next) => step.writes + RunWrites(order[1..], nodes, edges, next, callbackPassed, send)
  }

  /** The node list after the writes, applied in order. */
  function ApplyWrites(nodes: seq<Node>, ws: seq<Write>): (r: seq<Node>)
    ensures NodeIds(r) == NodeIds(nodes)
    decreases |ws|
  {
    if ws == [] then nodes
    else
      var w := ws[|ws| - 1];
      var before := ApplyWrites(nodes, ws[..|ws| - 1]);
      UpdateKeepsIds(before, w.nodeId, w.patch);
      Graph.UpdateNodeData(before, w.nodeId, w.patch)
  }

  /** Applying two batches of writes one after the other is applying
      them together. */
  lemma {:induction false} ApplyWritesAppend(nodes: seq<Node>, a: seq<Write>, b: seq<Write>)
    ensures ApplyWrites(nodes, a + b) == ApplyWrites(ApplyWrites(nodes, a), b)
    decreases |b|
  {
    if b != [] {
      var b' := b[..|b| - 1];
      assert (a + b)[..|a + b| - 1] == a + b';
      ApplyWritesAppend(nodes, a, b');
    } else {
      assert a + b == a;
    }
  }

  /** One pass of the loop body for `nodeId`: the spinner write, then the
      start node's echo (`continue`) or `runNode` with its error write
      (`break`) or its response write. `runNode`'s own spinner write
      passes the node record where an id is expected, so it matches no
      node and changes nothing; it is not listed. */
  method RunStep(ctx: Context, nodeId: string, nodes: seq<Node>, edges: seq<Edge>, results: map<string, Json>,
                 callbackPassed: bool, send: NodeRequest -> Reply)
    returns (next: Option<map<string, Json>>)
    modifies ctx
    ensures next == NodeStep(nodeId, nodes, edges, results, callbackPassed, send).next
    ensures ctx.nodes == ApplyWrites(old(ctx.nodes), NodeStep(nodeId, nodes, edges, results, callbackPassed, send).writes)
    ensures ctx.edges == old(ctx.edges) && ctx.selectedNode == old(ctx.selectedNode)
    ensures ctx.selectedEdge == old(ctx.selectedEdge) && ctx.contextMenu == old(ctx.contextMenu)
  {
    var node := FindNode(nodes, nodeId);
    // 1) spinner on
    var loading := Write(nodeId, LoadingPatch());
    ctx.UpdateNodeData(nodeId, loading.patch);
    ApplyOne(old(ctx.nodes), loading);
    if node.None? {
      // `node.type` throws: the run rejects
      return None;
    }
    // 2) a start node echoes its fields
    if IsStartType(node.value.nodeType) {
      var fields := StartFields(node.value);
      var settled := Write(nodeId, ResponsePatch(Some(JNum(200)), Some(fields)));
      ctx.UpdateNodeData(nodeId, settled.patch);
      ApplyPair(old(ctx.nodes), loading, settled);
      return Some(results[nodeId := fields]);
    }
    // 3) any other node goes through runNode
    var incomers := Incomers(edges, nodeId);
    var outcome, _ := RunNode.RunNode(node.value, results, incomers, callbackPassed, send);
    if outcome.Threw? {
      var failed := Write(nodeId, ErrorPatch(outcome.message));
      ctx.UpdateNodeData(nodeId, failed.patch);
      ApplyPair(old(ctx.nodes), loading, failed);
      return None;
    }
    // 4) stash for downstream, 5) record the response
    var data := Property(outcome.value, "data");
    var settled := Write(nodeId, ResponsePatch(Property(outcome.value, "status"), data));
    ctx.UpdateNodeData(nodeId, settled.patch);
    ApplyPair(old(ctx.nodes), loading, settled);
    next := Some(Store(results, nodeId, data));
  }

  /** Applying one write is updating its node. */
  lemma ApplyOne(nodes: seq<Node>, a: Write)
    ensures ApplyWrites(nodes, [a]) == Graph.UpdateNodeData(nodes, a.nodeId, a.patch)
  {
    assert [a][..0] == [];
  }

  /** Applying two writes is updating their nodes in turn. */
  lemma ApplyPair(nodes: seq<Node>, a: Write, b: Write)
    ensures ApplyWrites(nodes, [a, b]) == Graph.UpdateNodeData(Graph.UpdateNodeData(nodes, a.nodeId, a.patch), b.nodeId, b.patch)
  {
    assert [a, b][..1] == [a];
    ApplyOne(nodes, a);
  }

  /** The loop of `runAll` over a given order: one step per node, stopping
      at the first step that ends the run. */
  method RunOrder(ctx: Context, nodes: seq<Node>, edges: seq<Edge>, order: seq<string>,
                  callbackPassed: bool, send: NodeRequest -> Reply)
    modifies ctx
    ensures ctx.nodes == ApplyWrites(old(ctx.nodes), RunWrites(order, nodes, edges, map[], callbackPassed, send))
    ensures ctx.edges == old(ctx.edges) && ctx.selectedNode == old(ctx.selectedNode)
    ensures ctx.selectedEdge == old(ctx.selectedEdge) && ctx.contextMenu == old(ctx.contextMenu)
  {
    var results: map<string, Json> := map[];
    ghost var done: seq<Write> := [];
    ghost var full := RunWrites(order, nodes, edges, map[], callbackPassed, send);
    var i := 0;
    while i < |order|
      invariant 0 <= i <= |order|
      invariant ctx.nodes == ApplyWrites(old(ctx.nodes), done)
      invariant done + RunWrites(order[i..], nodes, edges, results, callbackPassed, send) == full
      invariant results.Keys <= Elems(order[..i])
      invariant ctx.edges == old(ctx.edges) && ctx.selectedNode == old(ctx.selectedNode)
      invariant ctx.selectedEdge == old(ctx.selectedEdge) && ctx.contextMenu == old(ctx.contextMenu)
    {
      var nodeId := order[i];
      ghost var step := NodeStep(nodeId, nodes, edges, results, callbackPassed, send);
      ghost var rest := if step.next.None? then [] else RunWrites(order[i + 1..], nodes, edges, step.next.value, callbackPassed, send);
      RunWritesAt(order, i, nodes, edges, results, callbackPassed, send);
      var next := RunStep(ctx, nodeId, nodes, edges, results, callbackPassed, send);
      ApplyWritesAppend(old(ctx.nodes), done, step.writes);
      WritesAssoc(done, step.writes, rest);
      done := done + step.writes;
      if next.None? {
        break;
      }
      StepKeys(order, i, nodes, edges, results, callbackPassed, send);
      results := next.value;
      i := i + 1;
    }
    assert done == full;
  }

  /** The writes from position `i` on: that node's step, then the rest
      of the order when the step lets the run go on. */
  lemma RunWritesAt(order: seq<string>, i: nat, nodes: seq<Node>, edges: seq<Edge>, results: map<string, Json>,
                    callbackPassed: bool, send: NodeRequest -> Reply)
    requires i < |order|
    ensures
      var step := NodeStep(order[i], nodes, edges, results, callbackPassed, send);
      RunWrites(order[i..], nodes, edges, results, callbackPassed, send) ==
        step.writes + (if step.next.None? then [] else RunWrites(order[i + 1..], nodes, edges, step.next.value, callbackPassed, send))
  {
    assert order[i..][1..] == order[i + 1..];
  }

  lemma WritesAssoc(a: seq<Write>, b: seq<Write>, c: seq<Write>)
    ensures a + (b + c) == (a + b) + c
  {
  }

  /** A step adds at most its own node to the results. */
  lemma StepKeys(order: seq<string>, i: nat, nodes: seq<Node>, edges: seq<Edge>, results: map<string, Json>,
                 callbackPassed: bool, send: NodeRequest -> Reply)
    requires i < |order| && results.Keys <= Elems(order[..i])
    requires NodeStep(order[i], nodes, edges, results, callbackPassed, send).next.Some?
    ensures NodeStep(order[i], nodes, edges, results, callbackPassed, send).next.value.Keys <= Elems(order[..i + 1])
  {
    assert order[..i + 1] == order[..i] + [order[i]];
  }

  /** `runAll` on the flow of the current render: sort it, then run the
      loop. A sort that throws rejects the run before any write.
      `callbackPassed` says whether `updateNodeData` is handed to
      `runNode`; the component as written does not hand it over. */
  method RunAll(ctx: Context, callbackPassed: bool, send: NodeRequest -> Reply)
    returns (sorted: Result<seq<string>, SortError>)
    requires Distinct(NodeIds(ctx.nodes))
    modifies ctx
    ensures sorted.Err? ==> ctx.nodes == old(ctx.nodes)
    ensures sorted.Ok? ==>
      ctx.nodes == ApplyWrites(old(ctx.nodes), RunWrites(sorted.value, old(ctx.nodes), old(ctx.edges), map[], callbackPassed, send))
    ensures ctx.edges == old(ctx.edges) && ctx.selectedNode == old(ctx.selectedNode)
    ensures ctx.selectedEdge == old(ctx.selectedEdge) && ctx.contextMenu == old(ctx.contextMenu)
    ensures NodeIds(ctx.nodes) == NodeIds(old(ctx.nodes))
    ensures old(ctx.Valid()) ==> ctx.Valid()
    ensures old(ctx.Valid()) && sorted.Ok? ==> IsTopologicalOrder(sorted.value, old(ctx.nodes), old(ctx.edges))
    ensures old(ctx.Valid()) ==> (sorted.Err? <==> forall q :: !IsTopologicalOrder(q, old(ctx.nodes), old(ctx.edges)))
  {
    var nodes, edges := ctx.nodes, ctx.edges;
    ghost var processed;
    sorted, processed := KahnTopoSort(nodes, edges);
    if ctx.Valid() {
      WellFormedSettled(processed, nodes, edges);
    }
    if sorted.Err? {
      return;
    }
    RunOrder(ctx, nodes, edges, sorted.value, callbackPassed, send);
  }

  // ---------------------------------------------------------------------
  // What a run writes

  /** What the patches say about loading and errors. */
  lemma PatchReads(status: Option<Json>, data: Option<Json>, message: string)
    ensures Lookup(LoadingPatch(), "isLoading") == Some(JBool(true))
    ensures Lookup(LoadingPatch(), "error") == Some(JNull)
    ensures Lookup(ResponsePatch(status, data), "isLoading") == Some(JBool(false))
    ensures Lookup(ResponsePatch(status, data), "error") == Some(JNull)
    ensures Lookup(ErrorPatch(message), "isLoading") == Some(JBool(false))
  {
    var l := LoadingPatch();
    assert Lookup(l, "error") == Lookup(l[1..], "error") == Lookup(l[1..][1..], "error");
    var r := ResponsePatch(status, data);
    assert Lookup(r, "error") == Lookup(r[1..], "error") == Lookup(r[1..][1..], "error");
  }

  /** Every step first turns the spinner on; a second write settles the
      node, and only a settled, unfailed node lets the run go on. */
  lemma StepShape(nodeId: string, nodes: seq<Node>, edges: seq<Edge>, results: map<string, Json>,
                  callbackPassed: bool, send: NodeRequest -> Reply)
    ensures
      var step := NodeStep(nodeId, nodes, edges, results, callbackPassed, send);
      && 1 <= |step.writes| <= 2
      && step.writes[0] == Write(nodeId, LoadingPatch()) && !Failed(step.writes[0])
      && (|step.writes| == 2 ==>
            step.writes[1].nodeId == nodeId && Lookup(step.writes[1].patch, "isLoading") == Some(JBool(false)))
      && (step.next.Some? ==> |step.writes| == 2 && !Failed(step.writes[1]))
  {
    var step := NodeStep(nodeId, nodes, edges, results, callbackPassed, send);
    match FindNode(nodes, nodeId)
    case None =>
      PatchReads(None, None, "");
    case Some(node) =>
      if IsStartType(node.nodeType) {
        PatchReads(Some(JNum(200)), Some(StartFields(node)), "");
      } else {
        match RunNodeOutcome(node, results, Incomers(edges, nodeId), callbackPassed, send)
        case Threw(message) =>
          PatchReads(None, None, message);
        case Returned(resp) =>
          PatchReads(Property(resp, "status"), Property(resp, "data"), "");
      }
  }

  /** The writes of a non-empty order: the first node's step, then the
      rest of the order when that step lets the run go on. */
  lemma RunWritesFirst(order: seq<string>, nodes: seq<Node>, edges: seq<Edge>, results: map<string, Json>,
                       callbackPassed: bool, send: NodeRequest -> Reply)
    requires order != []
    ensures
      var step := NodeStep(order[0], nodes, edges, results, callbackPassed, send);
      RunWrites(order, nodes, edges, results, callbackPassed, send) ==
        step.writes + (if step.next.None? then [] else RunWrites(order[1..], nodes, edges, step.next.value, callbackPassed, send))
  {
  }

  /** Pairing, one node at a time: a first node's one or two writes, led
      by its spinner, followed by writes whose even positions are the
      spinners of the remaining nodes. */
  lemma SpinnerCons(order: seq<string>, writes: seq<Write>, rest: seq<Write>, ws: seq<Write>)
    requires order != [] && ws == writes + rest
    requires 1 <= |writes| <= 2 && writes[0] == Write(order[0], LoadingPatch())
    requires rest != [] ==> |writes| == 2
    requires |rest| <= 2 * |order[1..]|
    requires forall j :: 0 <= j < |order[1..]| && 2 * j < |rest| ==> rest[2 * j] == Write(order[1..][j], LoadingPatch())
    ensures |ws| <= 2 * |order|
    ensures forall j :: 0 <= j < |order| && 2 * j < |ws| ==> ws[2 * j] == Write(order[j], LoadingPatch())
  {
    forall j | 1 <= j < |order| && 2 * j < |ws|
      ensures ws[2 * j] == Write(order[j], LoadingPatch())
    {
      assert ws[2 * j] == rest[2 * (j - 1)];
      assert order[j] == order[1..][j - 1];
    }
  }

  /** Every node the run reaches first gets its spinner: the writes come
      in pairs, the first of each pair turning the node's spinner on. */
  lemma {:induction false} SpinnerWrites(order: seq<string>, nodes: seq<Node>, edges: seq<Edge>, results: map<string, Json>,
                                         callbackPassed: bool, send: NodeRequest -> Reply)
    ensures |RunWrites(order, nodes, edges, results, callbackPassed, send)| <= 2 * |order|
    ensures forall j :: 0 <= j < |order| && 2 * j < |RunWrites(order, nodes, edges, results, callbackPassed, send)| ==>
      RunWrites(order, nodes, edges, results, callbackPassed, send)[2 * j] == Write(order[j], LoadingPatch())
    decreases |order|
  {
    if order != [] {
      var step := NodeStep(order[0], nodes, edges, results, callbackPassed, send);
      StepShape(order[0], nodes, edges, results, callbackPassed, send);
      var rest := if step.next.None? then [] else RunWrites(order[1..], nodes, edges, step.next.value, callbackPassed, send);
      if step.next.Some? {
        SpinnerWrites(order[1..], nodes, edges, step.next.value, callbackPassed, send);
      }
      RunWritesFirst(order, nodes, edges, results, callbackPassed, send);
      SpinnerCons(order, step.writes, rest, RunWrites(order, nodes, edges, results, callbackPassed, send));
    }
  }

  /** A write that settles `nodeId`: it is no longer loading. */
  predicate Settles(w: Write, nodeId: string)
  {
    w.nodeId == nodeId && Lookup(w.patch, "isLoading") == Some(JBool(false))
  }

  /** Pairing, one node at a time, for the odd positions: the first node's
      second write settles it, and the rest settle the remaining nodes. */
  lemma SettlingCons(order: seq<string>, writes: seq<Write>, rest: seq<Write>, ws: seq<Write>)
    requires order != [] && ws == writes + rest
    requires 1 <= |writes| <= 2
    requires |writes| == 2 ==> Settles(writes[1], order[0])
    requires rest != [] ==> |writes| == 2
    requires forall j :: 0 <= j < |order[1..]| && 2 * j + 1 < |rest| ==> Settles(rest[2 * j + 1], order[1..][j])
    ensures forall j :: 0 <= j < |order| && 2 * j + 1 < |ws| ==> Settles(ws[2 * j + 1], order[j])
  {
    forall j | 1 <= j < |order| && 2 * j + 1 < |ws|
      ensures Settles(ws[2 * j + 1], order[j])
    {
      assert ws[2 * j + 1] == rest[2 * (j - 1) + 1];
      assert order[j] == order[1..][j - 1];
    }
  }

  /** ... then the write that settles it: not loading any more. */
  lemma {:induction false} SettlingWrites(order: seq<string>, nodes: seq<Node>, edges: seq<Edge>, results: map<string, Json>,
                                          callbackPassed: bool, send: NodeRequest -> Reply)
    ensures forall j :: 0 <= j < |order| && 2 * j + 1 < |RunWrites(order, nodes, edges, results, callbackPassed, send)| ==>
      Settles(RunWrites(order, nodes, edges, results, callbackPassed, send)[2 * j + 1], order[j])
    decreases |order|
  {
    if order != [] {
      var step := NodeStep(order[0], nodes, edges, results, callbackPassed, send);
      StepShape(order[0], nodes, edges, results, callbackPassed, send);
      var rest := if step.next.None? then [] else RunWrites(order[1..], nodes, edges, step.next.value, callbackPassed, send);
      if step.next.Some? {
        SettlingWrites(order[1..], nodes, edges, step.next.value, callbackPassed, send);
      }
      RunWritesFirst(order, nodes, edges, results, callbackPassed, send);
      SettlingCons(order, step.writes, rest, RunWrites(order, nodes, edges, results, callbackPassed, send));
    }
  }

  /** A step's writes in front of what follows: the spinner reports no
      error, and a step that lets the run go on settles without one. */
  lemma FailFastCons(writes: seq<Write>, rest: seq<Write>, ws: seq<Write>)
    requires ws == writes + rest
    requires 1 <= |writes| <= 2 && !Failed(writes[0])
    requires rest != [] ==> |writes| == 2 && !Failed(writes[1])
    requires forall i :: 0 <= i < |rest| - 1 ==> !Failed(rest[i])
    ensures forall i :: 0 <= i < |ws| - 1 ==> !Failed(ws[i])
  {
    forall i | |writes| <= i < |ws| - 1 ensures !Failed(ws[i]) {
      assert ws[i] == rest[i - |writes|];
    }
  }

  /** Fail-fast: only the last write of a run can report an error. */
  lemma {:induction false} FailFast(order: seq<string>, nodes: seq<Node>, edges: seq<Edge>, results: map<string, Json>,
                                    callbackPassed: bool, send: NodeRequest -> Reply)
    ensures forall i :: 0 <= i < |RunWrites(order, nodes, edges, results, callbackPassed, send)| - 1 ==>
      !Failed(RunWrites(order, nodes, edges, results, callbackPassed, send)[i])
    decreases |order|
  {
    if order != [] {
      var step := NodeStep(order[0], nodes, edges, results, callbackPassed, send);
      StepShape(order[0], nodes, edges, results, callbackPassed, send);
      var rest := if step.next.None? then [] else RunWrites(order[1..], nodes, edges, step.next.value, callbackPassed, send);
      if step.next.Some? {
        FailFast(order[1..], nodes, edges, step.next.value, callbackPassed, send);
      }
      RunWritesFirst(order, nodes, edges, results, callbackPassed, send);
      FailFastCons(step.writes, rest, RunWrites(order, nodes, edges, results, callbackPassed, send));
    }
  }

  /** A node whose run failed ends up not loading, with the error's
      message and the null response the spinner write left. */
  lemma FailedNodeData(data: seq<Field>, message: string)
    ensures
      var d := Merge(Merge(data, LoadingPatch()), ErrorPatch(message));
      && Lookup(d, "isLoading") == Some(JBool(false))
      && Lookup(d, "response") == Some(JNull)
      && Lookup(d, "error") == Some(JObj([Field("message", JStr(message))]))
  {
    var loading := Merge(data, LoadingPatch());
    assert Keys(LoadingPatch()) == ["isLoading", "response", "error"];
    assert Keys(ErrorPatch(message)) == ["isLoading", "error"];
    MergeLookup(data, LoadingPatch(), "response");
    MergeLookup(loading, ErrorPatch(message), "isLoading");
    MergeLookup(loading, ErrorPatch(message), "response");
    MergeLookup(loading, ErrorPatch(message), "error");
  }

  /** Start nodes never reach `runNode`: over start nodes only, the run
      settles every node and writes the same whatever `runNode` would do. */
  lemma {:induction false} StartNodesSkipRunNode(order: seq<string>, nodes: seq<Node>, edges: seq<Edge>, results: map<string, Json>,
                                                 callbackPassed: bool, send: NodeRequest -> Reply,
                                                 callbackPassed': bool, send': NodeRequest -> Reply)
    requires forall j :: 0 <= j < |order| ==> FindNode(nodes, order[j]).Some? && IsStartType(FindNode(nodes, order[j]).value.nodeType)
    ensures RunWrites(order, nodes, edges, results, callbackPassed, send) == RunWrites(order, nodes, edges, results, callbackPassed', send')
    ensures |RunWrites(order, nodes, edges, results, callbackPassed, send)| == 2 * |order|
    decreases |order|
  {
    if order != [] {
      var next := results[order[0] := StartFields(FindNode(nodes, order[0]).value)];
      forall j | 0 <= j < |order| - 1
        ensures FindNode(nodes, order[1..][j]).Some? && IsStartType(FindNode(nodes, order[1..][j]).value.nodeType)
      {
        assert order[1..][j] == order[j + 1];
      }
      StartNodesSkipRunNode(order[1..], nodes, edges, next, callbackPassed, send, callbackPassed', send');
    }
  }

  // ---------------------------------------------------------------------
  // Handing `updateNodeData` to `runNode`

  /** A start node's step: the spinner, then its fields as the response. */
  lemma StartStep(nodeId: string, nodes: seq<Node>, edges: seq<Edge>, results: map<string, Json>,
                  callbackPassed: bool, send: NodeRequest -> Reply)
    requires FindNode(nodes, nodeId).Some? && IsStartType(FindNode(nodes, nodeId).value.nodeType)
    ensures
      var fields := StartFields(FindNode(nodes, nodeId).value);
      NodeStep(nodeId, nodes, edges, results, callbackPassed, send)
        == Step([Write(nodeId, LoadingPatch()), Write(nodeId, ResponsePatch(Some(JNum(200)), Some(fields)))],
                Some(results[nodeId := fields]))
  {
  }

  /** Without the callback, an HTTP node's step is the spinner, then the
      error that `updateNodeData` is not a function, and the run stops. */
  lemma UncalledHttpStep(nodeId: string, nodes: seq<Node>, edges: seq<Edge>, results: map<string, Json>,
                         send: NodeRequest -> Reply)
    requires FindNode(nodes, nodeId).Some? && FindNode(nodes, nodeId).value.nodeType == "httpNode"
    ensures NodeStep(nodeId, nodes, edges, results, false, send)
      == Step([Write(nodeId, LoadingPatch()), Write(nodeId, ErrorPatch("updateNodeData is not a function"))], None)
  {
    assert !IsStartType("httpNode");
  }

  /** Two writes in front shift every position by two. */
  lemma ShiftTwo(writes: seq<Write>, rest: seq<Write>, ws: seq<Write>, k: nat, w: Write)
    requires ws == writes + rest && |writes| == 2
    requires |rest| == 2 * k + 2 && rest[2 * k + 1] == w
    ensures |ws| == 2 * (k + 1) + 2 && ws[2 * (k + 1) + 1] == w
  {
  }

  /** As written, `runNode` gets no callback: a run stops at its first
      HTTP node, which reports that `updateNodeData` is not a function,
      whatever the server would have answered. */
  lemma {:induction false} HttpNodeStopsRun(order: seq<string>, nodes: seq<Node>, edges: seq<Edge>,
                                            results: map<string, Json>, send: NodeRequest -> Reply, k: nat)
    requires k < |order|
    requires forall j :: 0 <= j < k ==> FindNode(nodes, order[j]).Some? && IsStartType(FindNode(nodes, order[j]).value.nodeType)
    requires FindNode(nodes, order[k]).Some? && FindNode(nodes, order[k]).value.nodeType == "httpNode"
    ensures |RunWrites(order, nodes, edges, results, false, send)| == 2 * k + 2
    ensures RunWrites(order, nodes, edges, results, false, send)[2 * k + 1]
      == Write(order[k], ErrorPatch("updateNodeData is not a function"))
    decreases k
  {
    RunWritesFirst(order, nodes, edges, results, false, send);
    if k == 0 {
      UncalledHttpStep(order[0], nodes, edges, results, send);
    } else {
      StartStep(order[0], nodes, edges, results, false, send);
      var step := NodeStep(order[0], nodes, edges, results, false, send);
      var next := step.next.value;
      forall j | 0 <= j < k - 1
        ensures FindNode(nodes, order[1..][j]).Some? && IsStartType(FindNode(nodes, order[1..][j]).value.nodeType)
      {
        assert order[1..][j] == order[j + 1];
      }
      assert order[1..][k - 1] == order[k];
      HttpNodeStopsRun(order[1..], nodes, edges, next, send, k - 1);
      ShiftTwo(step.writes, RunWrites(order[1..], nodes, edges, next, false, send),
               RunWrites(order, nodes, edges, results, false, send), k - 1,
               Write(order[k], ErrorPatch("updateNodeData is not a function")));
    }
  }

  /** A node the run can settle once `runNode` has its callback: a start
      node, or an HTTP node with a string URL and a parameter object. */
  predicate Runnable(node: Node)
  {
    || IsStartType(node.nodeType)
    || (&& node.nodeType == "httpNode"
        && Lookup(node.data, "url").Some? && Lookup(node.data, "url").value.JStr?
        && Lookup(node.data, "queryParams").Some? && !Lookup(node.data, "queryParams").value.JNull?)
  }

  /** With the callback, a runnable node settles without error when the
      server accepts every request. */
  lemma CallbackStepSettles(nodeId: string, nodes: seq<Node>, edges: seq<Edge>, results: map<string, Json>,
                            send: NodeRequest -> Reply)
    requires FindNode(nodes, nodeId).Some? && Runnable(FindNode(nodes, nodeId).value)
    requires forall req :: send(req).Answered? && Accepted(send(req).status)
    ensures NodeStep(nodeId, nodes, edges, results, true, send).next.Some?
  {
    var node := FindNode(nodes, nodeId).value;
    if !IsStartType(node.nodeType) {
      HttpSettles(node, results, Incomers(edges, nodeId), send);
    }
  }

  /** An HTTP node with a string URL and a parameter object returns a
      response when the server accepts every request. */
  lemma HttpSettles(node: Node, results: map<string, Json>, incomers: seq<Edge>, send: NodeRequest -> Reply)
    requires Runnable(node) && !IsStartType(node.nodeType)
    requires forall req :: send(req).Answered? && Accepted(send(req).status)
    ensures RunNodeOutcome(node, results, incomers, true, send).Returned?
  {
    var url := Lookup(node.data, "url").value.s;
    assert Lookup(node.data, "url") == Some(JStr(url));
    var params := ParamsFor(Lookup(node.data, "queryParams"), results, incomers);
    assert params.Ok?;
    var req := HttpRequestFor(node, url, params.value);
    assert send(req).Answered? && Accepted(send(req).status);
    assert ClientOutcome(send(req)).Returned?;
    assert HttpOutcome(node, results, incomers, send) == ClientOutcome(send(req));
  }

  /** Two writes without an error, then writes without an error. */
  lemma NoFailureCons(writes: seq<Write>, rest: seq<Write>, n: nat)
    requires |writes| == 2 && !Failed(writes[0]) && !Failed(writes[1])
    requires |rest| == 2 * n && forall i :: 0 <= i < |rest| ==> !Failed(rest[i])
    ensures |writes + rest| == 2 * (n + 1)
    ensures forall i :: 0 <= i < |writes + rest| ==> !Failed((writes + rest)[i])
  {
    forall i | 2 <= i < |writes + rest| ensures !Failed((writes + rest)[i]) {
      assert (writes + rest)[i] == rest[i - 2];
    }
  }

  /** Handing `updateNodeData` to `runNode` lets a flow of runnable nodes
      run to the end when the server accepts every request: each node gets
      its spinner and its settling write, and no write reports an error. */
  lemma {:induction false} CallbackRunCompletes(order: seq<string>, nodes: seq<Node>, edges: seq<Edge>,
                                                results: map<string, Json>, send: NodeRequest -> Reply)
    requires forall j :: 0 <= j < |order| ==> FindNode(nodes, order[j]).Some? && Runnable(FindNode(nodes, order[j]).value)
    requires forall req :: send(req).Answered? && Accepted(send(req).status)
    ensures |RunWrites(order, nodes, edges, results, true, send)| == 2 * |order|
    ensures forall i :: 0 <= i < |RunWrites(order, nodes, edges, results, true, send)| ==>
      !Failed(RunWrites(order, nodes, edges, results, true, send)[i])
    decreases |order|
  {
    if order != [] {
      var step := NodeStep(order[0], nodes, edges, results, true, send);
      CallbackStepSettles(order[0], nodes, edges, results, send);
      StepShape(order[0], nodes, edges, results, true, send);
      var others := order[1..];
      forall j | 0 <= j < |others|
        ensures FindNode(nodes, others[j]).Some? && Runnable(FindNode(nodes, others[j]).value)
      {
        assert others[j] == order[j + 1];
      }
      var rest := RunWrites(others, nodes, edges, step.next.value, true, send);
      CallbackRunCompletes(others, nodes, edges, step.next.value, send);
      assert RunWrites(order, nodes, edges, results, true, send) == step.writes + rest;
      NoFailureCons(step.writes, rest, |others|);
    }
  }
}
