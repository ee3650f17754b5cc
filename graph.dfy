/** The flow graph: nodes and edges as the editor stores them, and the
    list-of-records updates the two state containers (the zustand store and
    the React context) perform on them. */
module Graph {
  import opened Wrappers
  import opened Text
  import opened Json

  datatype Position = Position(x: int, y: int)

  /** A node record. `data` is the node's free-form data object; `selected`
      is `None` while the property is absent. */
  datatype Node = Node(id: string, nodeType: string, position: Position, data: seq<Field>, selected: Option<bool>)

  datatype Edge = Edge(id: string, source: string, target: string)

  /** The node as the JavaScript object a path walk starts from. */
  function NodeToJson(n: Node): (r: Json)
    ensures r.JObj? && |r.fields| >= 4
    ensures r.fields[..4] == [Field("id", JStr(n.id)), Field("type", JStr(n.nodeType)),
      Field("position", JObj([Field("x", JNum(n.position.x)), Field("y", JNum(n.position.y))])),
      Field("data", JObj(n.data))]
  {
    var base := [Field("id", JStr(n.id)), Field("type", JStr(n.nodeType)),
                 Field("position", JObj([Field("x", JNum(n.position.x)), Field("y", JNum(n.position.y))])),
                 Field("data", JObj(n.data))];
    match n.selected
    case None => JObj(base)
    case Some(b) => JObj(base + [Field("selected", JBool(b))])
  }

  /** The walk from a node object finds its id under "id" and its data
      object under "data". */
  lemma NodeJsonLookup(n: Node)
    ensures Lookup(NodeToJson(n).fields, "id") == Some(JStr(n.id))
    ensures Lookup(NodeToJson(n).fields, "data") == Some(JObj(n.data))
  {
    var f := NodeToJson(n).fields;
    assert Lookup(f, "data") == Lookup(f[1..], "data") == Lookup(f[2..], "data") == Lookup(f[3..], "data");
  }

  function NodeIds(nodes: seq<Node>): (ids: seq<string>)
    ensures |ids| == |nodes|
    ensures forall i :: 0 <= i < |nodes| ==> ids[i] == nodes[i].id
  {
    seq(|nodes|, i requires 0 <= i < |nodes| => nodes[i].id)
  }

  predicate Distinct<T(==)>(s: seq<T>)
  {
    forall i, j :: 0 <= i < j < |s| ==> s[i] != s[j]
  }

  /** The position of the first node from `from` on that carries `id`. */
  function FirstWithId(nodes: seq<Node>, id: string, from: nat := 0): (r: Option<nat>)
    requires from <= |nodes|
    ensures r.Some? ==> from <= r.value < |nodes| && nodes[r.value].id == id
    ensures r.Some? ==> forall j :: from <= j < r.value ==> nodes[j].id != id
    ensures r.None? ==> forall j :: from <= j < |nodes| ==> nodes[j].id != id
    decreases |nodes| - from
  {
    if from == |nodes| then None
    else if nodes[from].id == id then Some(from)
    else FirstWithId(nodes, id, from + 1)
  }

  /** `nodes.find(n => n.id === id)`: the first node carrying the id. */
  function FindNode(nodes: seq<Node>, id: string): (r: Option<Node>)
    ensures r.None? <==> id !in NodeIds(nodes)
    ensures r.Some? ==> r.value in nodes && r.value.id == id
    ensures r.Some? ==> r.value == nodes[FirstWithId(nodes, id).value]
  {
    match FirstWithId(nodes, id)
    case None => None
    case Some(i) => Some(nodes[i])
  }

  /** `s` lists elements of `t` in the order `t` has them. */
  predicate IsSubsequence<T(==)>(s: seq<T>, t: seq<T>)
    decreases |t|
  {
    if s == [] then true
    else if t == [] then false
    else (s[0] == t[0] && IsSubsequence(s[1..], t[1..])) || IsSubsequence(s, t[1..])
  }

  /** `Array.prototype.filter`. */
  function Filter<T(!new)>(s: seq<T>, keep: T -> bool): (r: seq<T>)
    ensures |r| <= |s|
    ensures forall x :: x in r <==> x in s && keep(x)
    ensures forall x :: multiset(r)[x] == if keep(x) then multiset(s)[x] else 0
    ensures IsSubsequence(r, s)
  {
    if s == [] then []
    else
      var rest := Filter(s[1..], keep);
      assert s == [s[0]] + s[1..];
      assert multiset(s) == multiset([s[0]]) + multiset(s[1..]);
      if keep(s[0]) then
        assert multiset([s[0]] + rest) == multiset([s[0]]) + multiset(rest);
        assert forall x :: x in [s[0]] + rest <==> x == s[0] || x in rest;
        assert ([s[0]] + rest)[1..] == rest;
        [s[0]] + rest
      else
        assert forall x :: x in s <==> x == s[0] || x in s[1..];
        rest
  }

  /** Filtering with a test every element passes removes nothing. */
  lemma {:induction false} FilterKeepsAll<T(!new)>(s: seq<T>, keep: T -> bool)
    ensures (forall x :: x in s ==> keep(x)) ==> Filter(s, keep) == s
  {
    if s != [] && forall x :: x in s ==> keep(x) {
      FilterKeepsAll(s[1..], keep);
      assert [s[0]] + s[1..] == s;
    }
  }

  /** The edges whose target is `id`, in list order. */
  function Incomers(edges: seq<Edge>, id: string): (r: seq<Edge>)
    ensures forall e :: e in r <==> e in edges && e.target == id
    ensures forall e :: multiset(r)[e] == if e.target == id then multiset(edges)[e] else 0
    ensures IsSubsequence(r, edges)
  {
    Filter(edges, (e: Edge) => e.target == id)
  }

  /** The patch `{...node.data, ...patch}` applied to every node with the
      given id; every other node is returned as it was. */
  function UpdateNodeData(nodes: seq<Node>, id: string, patch: seq<Field>): (r: seq<Node>)
    ensures |r| == |nodes|
    ensures forall i :: 0 <= i < |nodes| && nodes[i].id != id ==> r[i] == nodes[i]
    ensures forall i :: 0 <= i < |nodes| && nodes[i].id == id ==> r[i] == nodes[i].(data := Merge(nodes[i].data, patch))
  {
    if nodes == [] then []
    else
      var head := if nodes[0].id == id then nodes[0].(data := Merge(nodes[0].data, patch)) else nodes[0];
      [head] + UpdateNodeData(nodes[1..], id, patch)
  }

  /** After an update, each key of a patched node reads the patch's value
      when the patch has the key and its old value otherwise; node ids and
      the order of the list do not change. */
  lemma UpdateNodeDataReads(nodes: seq<Node>, id: string, patch: seq<Field>, i: nat, k: string)
    requires i < |nodes| && DistinctKeys(patch)
    ensures UpdateNodeData(nodes, id, patch)[i].id == nodes[i].id
    ensures Lookup(UpdateNodeData(nodes, id, patch)[i].data, k) ==
      if nodes[i].id == id && k in Keys(patch) then Lookup(patch, k) else Lookup(nodes[i].data, k)
  {
    if nodes[i].id == id {
      MergeLookup(nodes[i].data, patch, k);
    }
  }

  /** The node list without the nodes carrying `id`, order kept. */
  function RemoveNode(nodes: seq<Node>, id: string): (r: seq<Node>)
    ensures forall n :: n in r <==> n in nodes && n.id != id
    ensures forall n :: multiset(r)[n] == if n.id != id then multiset(nodes)[n] else 0
    ensures IsSubsequence(r, nodes)
    ensures id !in NodeIds(nodes) ==> r == nodes
  {
    var keep := (n: Node) => n.id != id;
    FilterKeepsAll(nodes, keep);
    Filter(nodes, keep)
  }

  /** The edge list without the edges that start or end at `id`, order kept. */
  function RemoveIncidentEdges(edges: seq<Edge>, id: string): (r: seq<Edge>)
    ensures forall e :: e in r <==> e in edges && e.source != id && e.target != id
    ensures forall e :: multiset(r)[e] == if e.source != id && e.target != id then multiset(edges)[e] else 0
    ensures IsSubsequence(r, edges)
  {
    Filter(edges, (e: Edge) => e.source != id && e.target != id)
  }

  /** The edge list without the edges carrying `edgeId`, order kept. */
  function RemoveEdge(edges: seq<Edge>, edgeId: string): (r: seq<Edge>)
    ensures forall e :: e in r <==> e in edges && e.id != edgeId
    ensures forall e :: multiset(r)[e] == if e.id != edgeId then multiset(edges)[e] else 0
    ensures IsSubsequence(r, edges)
    ensures (forall e :: e in edges ==> e.id != edgeId) ==> r == edges
  {
    var keep := (e: Edge) => e.id != edgeId;
    FilterKeepsAll(edges, keep);
    Filter(edges, keep)
  }

  /** The flow a new editor starts with: one start node and no edges. */
  function InitialNodes(): (r: seq<Node>)
    ensures |r| == 1 && r[0].id == "start-node" && r[0].nodeType == "startNode"
    ensures Lookup(r[0].data, "type") == Some(JStr("start"))
  {
    [Node("start-node", "startNode", Position(100, 100),
          [Field("label", JStr("Start")),
           Field("description", JStr("Starting point of your flow")),
           Field("type", JStr("start"))],
          None)]
  }

  /** The node type and default data `addNode` uses for a palette kind. */
  datatype Template = Template(nodeType: string, data: seq<Field>)

  function NodeTemplate(kind: string): (r: Option<Template>)
    ensures r.Some? <==> kind == "http" || kind == "graphql"
    ensures kind == "http" ==> r.value.nodeType == "httpNode" && Lookup(r.value.data, "type") == Some(JStr("http"))
    ensures kind == "graphql" ==> r.value.nodeType == "graphqlNode" && Lookup(r.value.data, "type") == Some(JStr("graphql"))
  {
    if kind == "http" then
      var tail := [Field("type", JStr("http")),
         Field("method", JStr("GET")), Field("url", JStr("")),
         Field("headers", JObj([])), Field("queryParams", JObj([])),
         Field("body", JStr("")), Field("formData", JObj([])),
         Field("isLoading", JBool(false)), Field("response", JNull), Field("error", JNull),
         Field("activeTab", JStr("headers")), Field("isCollapsed", JBool(false))];
      assert Lookup([Field("label", JStr("HTTP Request"))] + tail, "type") == Lookup(tail, "type");
      Some(Template("httpNode", [Field("label", JStr("HTTP Request"))] + tail))
    else if kind == "graphql" then
      var tail := [Field("type", JStr("graphql")),
         Field("endpoint", JStr("")), Field("query", JStr("")), Field("variables", JStr("")),
         Field("isLoading", JBool(false)), Field("response", JNull), Field("error", JNull),
         Field("isCollapsed", JBool(false))];
      assert Lookup([Field("label", JStr("GraphQL Request"))] + tail, "type") == Lookup(tail, "type");
      Some(Template("graphqlNode", [Field("label", JStr("GraphQL Request"))] + tail))
    else None
  }

  /** The node `addNode` appends; `suffix` stands for the first eight
      characters of a fresh UUID. Unknown kinds give no node. */
  function NewNode(kind: string, position: Position, suffix: string): (r: Option<Node>)
    ensures r.Some? <==> NodeTemplate(kind).Some?
    ensures r.Some? ==>
      && r.value.id == kind + "-" + suffix && r.value.position == position
      && r.value.nodeType == NodeTemplate(kind).value.nodeType && r.value.data == NodeTemplate(kind).value.data
      && r.value.selected.None?
  {
    match NodeTemplate(kind)
    case None => None
    case Some(t) => Some(Node(kind + "-" + suffix, t.nodeType, position, t.data, None))
  }

  /** The copy `duplicateNode` appends: id from the data's `type` (as
      `String` writes it, "undefined" when absent), moved by (20, 20), and
      deselected; type and data are shared with the original. */
  function Duplicate(node: Node, suffix: string): (r: Node)
    ensures r.id == JsString(Lookup(node.data, "type")) + "-" + suffix
    ensures r.position == Position(node.position.x + 20, node.position.y + 20)
    ensures r.selected == Some(false)
    ensures r.nodeType == node.nodeType && r.data == node.data
  {
    node.(id := JsString(Lookup(node.data, "type")) + "-" + suffix,
          position := Position(node.position.x + 20, node.position.y + 20),
          selected := Some(false))
  }

  /** The context menu's state. */
  datatype ContextMenu = ContextMenu(visible: bool, position: Position, nodeId: Option<string>, edgeId: Option<string>)

  function HiddenMenu(): ContextMenu
  {
    ContextMenu(false, Position(0, 0), None, None)
  }

  /** A flow offered for import; each list may be missing. */
  datatype FlowInput = FlowInput(nodes: Option<seq<Node>>, edges: Option<seq<Edge>>)

  /** `!flow || !flow.nodes || !flow.edges` fails: arrays are always truthy. */
  predicate ValidImport(flow: Option<FlowInput>)
  {
    flow.Some? && flow.value.nodes.Some? && flow.value.edges.Some?
  }

  /** After deleting a node, no remaining edge touches it and no remaining
      node carries its id. */
  lemma DeleteLeavesNoTrace(nodes: seq<Node>, edges: seq<Edge>, id: string)
    ensures id !in NodeIds(RemoveNode(nodes, id))
    ensures forall e :: e in RemoveIncidentEdges(edges, id) ==> e.source != id && e.target != id
  {
    var r := RemoveNode(nodes, id);
    forall i | 0 <= i < |r| ensures NodeIds(r)[i] != id {
      assert r[i] in r;
    }
  }

  /** Every edge joins two nodes of the flow. */
  predicate Connected(nodes: seq<Node>, edges: seq<Edge>)
  {
    forall e :: e in edges ==> e.source in NodeIds(nodes) && e.target in NodeIds(nodes)
  }

  /** A well-formed flow: node ids are unique and every edge joins two of
      its nodes. The sort and the run loop rely on both. */
  predicate WellFormed(nodes: seq<Node>, edges: seq<Edge>)
  {
    Distinct(NodeIds(nodes)) && Connected(nodes, edges)
  }

  /** An id is listed exactly when some node carries it. */
  lemma InNodeIds(nodes: seq<Node>, x: string)
    ensures x in NodeIds(nodes) <==> exists n :: n in nodes && n.id == x
  {
    if x in NodeIds(nodes) {
      var i :| 0 <= i < |nodes| && NodeIds(nodes)[i] == x;
      assert nodes[i] in nodes;
    }
  }

  /** Appending a node keeps every id in place and adds the new one last. */
  lemma AppendIds(nodes: seq<Node>, n: Node)
    ensures NodeIds(nodes + [n]) == NodeIds(nodes) + [n.id]
  {
    assert forall i :: 0 <= i < |nodes| ==> (nodes + [n])[i] == nodes[i];
  }

  /** Updating a node's data never changes an id or the order of nodes. */
  lemma UpdateKeepsIds(nodes: seq<Node>, id: string, patch: seq<Field>)
    ensures NodeIds(UpdateNodeData(nodes, id, patch)) == NodeIds(nodes)
  {
    var r := UpdateNodeData(nodes, id, patch);
    assert forall i :: 0 <= i < |nodes| ==> NodeIds(r)[i] == r[i].id == nodes[i].id;
  }

  /** Appending a node whose id is new keeps the flow well formed. */
  lemma AppendKeepsWellFormed(nodes: seq<Node>, edges: seq<Edge>, n: Node)
    requires WellFormed(nodes, edges) && n.id !in NodeIds(nodes)
    ensures WellFormed(nodes + [n], edges)
  {
    AppendIds(nodes, n);
  }

  /** A subsequence holds only elements of the sequence it is taken from. */
  lemma {:induction false} SubsequenceMembers<T>(s: seq<T>, t: seq<T>)
    requires IsSubsequence(s, t)
    ensures forall x :: x in s ==> x in t
    decreases |t|
  {
    if s != [] {
      if s[0] == t[0] && IsSubsequence(s[1..], t[1..]) {
        SubsequenceMembers(s[1..], t[1..]);
        assert forall x :: x in s ==> x == s[0] || x in s[1..];
      } else {
        SubsequenceMembers(s, t[1..]);
      }
    }
  }

  /** Dropping nodes never makes two ids equal. */
  lemma {:induction false} SubsequenceKeepsDistinctIds(s: seq<Node>, t: seq<Node>)
    requires IsSubsequence(s, t) && Distinct(NodeIds(t))
    ensures Distinct(NodeIds(s))
    decreases |t|
  {
    if s != [] {
      assert Distinct(NodeIds(t[1..])) by {
        forall i, j | 0 <= i < j < |t| - 1 ensures NodeIds(t[1..])[i] != NodeIds(t[1..])[j] {
          assert NodeIds(t)[i + 1] != NodeIds(t)[j + 1];
        }
      }
      if s[0] == t[0] && IsSubsequence(s[1..], t[1..]) {
        SubsequenceKeepsDistinctIds(s[1..], t[1..]);
        SubsequenceMembers(s[1..], t[1..]);
        forall i, j | 0 <= i < j < |s| ensures NodeIds(s)[i] != NodeIds(s)[j] {
          if i == 0 {
            assert s[1..][j - 1] in t[1..];
            var k :| 0 <= k < |t| - 1 && t[1..][k] == s[j];
            assert NodeIds(t)[0] != NodeIds(t)[k + 1];
          } else {
            assert NodeIds(s[1..])[i - 1] != NodeIds(s[1..])[j - 1];
          }
        }
      } else {
        SubsequenceKeepsDistinctIds(s, t[1..]);
      }
    }
  }

  /** Deleting a node together with its edges keeps the flow well formed. */
  lemma DeleteKeepsWellFormed(nodes: seq<Node>, edges: seq<Edge>, id: string)
    requires WellFormed(nodes, edges)
    ensures WellFormed(RemoveNode(nodes, id), RemoveIncidentEdges(edges, id))
  {
    var ns := RemoveNode(nodes, id);
    SubsequenceKeepsDistinctIds(ns, nodes);
    forall e | e in RemoveIncidentEdges(edges, id)
      ensures e.source in NodeIds(ns) && e.target in NodeIds(ns)
    {
      InNodeIds(nodes, e.source);
      InNodeIds(nodes, e.target);
      InNodeIds(ns, e.source);
      InNodeIds(ns, e.target);
    }
  }
}
