/** `runNode`: the upstream parameter resolver `getParams` and the
    dispatch on the node type. */
module RunNode {
  import opened Wrappers
  import opened Text
  import opened Json
  import opened PathResolver
  import opened Graph
  import opened Network

  // ---------------------------------------------------------------------
  // The resolved parameter map

  /** An entry of `resolvedParams`; a lookup that finds nothing stores
      `undefined` under the key, so the value is optional. */
  datatype Binding = Binding(key: string, value: Option<Json>)

  function BindingKeys(bs: seq<Binding>): (ks: seq<string>)
    ensures |ks| == |bs| && forall i :: 0 <= i < |bs| ==> ks[i] == bs[i].key
  {
    seq(|bs|, i requires 0 <= i < |bs| => bs[i].key)
  }

  /** `resolvedParams[key] = value`: an existing key is overwritten where
      it stands, a new key is appended. */
  function SetBinding(bs: seq<Binding>, key: string, value: Option<Json>): (r: seq<Binding>)
    ensures key !in BindingKeys(bs) ==> r == bs + [Binding(key, value)]
    ensures forall i :: 0 <= i < |bs| && bs[i].key == key && key !in BindingKeys(bs[..i]) ==>
              r == bs[i := Binding(key, value)]
  {
    if bs == [] then [Binding(key, value)]
    else if bs[0].key == key then [Binding(key, value)] + bs[1..]
    else
      var r := [bs[0]] + SetBinding(bs[1..], key, value);
      assert forall i :: 0 <= i < |bs| && bs[i].key == key && key !in BindingKeys(bs[..i]) ==>
               r == bs[i := Binding(key, value)] by {
        forall i | 0 <= i < |bs| && bs[i].key == key && key !in BindingKeys(bs[..i])
          ensures r == bs[i := Binding(key, value)]
        {
          BindingKeysPrefix(bs, i);
          ConsUpdate(bs, Binding(key, value), i);
        }
      }
      r
  }

  /** The keys of a non-empty prefix: the first key, then those of the
      tail's prefix. */
  lemma BindingKeysPrefix(bs: seq<Binding>, i: nat)
    requires 1 <= i <= |bs|
    ensures BindingKeys(bs[..i]) == [bs[0].key] + BindingKeys(bs[1..][..i - 1])
  {
    assert bs[..i] == [bs[0]] + bs[1..][..i - 1];
  }

  /** Updating the tail at `i - 1` is updating the whole at `i`. */
  lemma ConsUpdate(bs: seq<Binding>, b: Binding, i: nat)
    requires 1 <= i < |bs|
    ensures [bs[0]] + bs[1..][i - 1 := b] == bs[i := b]
  {
    assert |[bs[0]] + bs[1..][i - 1 := b]| == |bs[i := b]|;
  }

  const UpstreamPrefix: string := "upstream."

  /** One parameter against the previous node's result: a string that
      starts with `upstream.` loses exactly that prefix and the rest is
      looked up as a path; any other value is copied. */
  function ResolveParam(v: Json, prev: Option<Json>): (r: Option<Json>)
    ensures !(v.JStr? && StartsWith(v.s, UpstreamPrefix)) ==> r == Some(v)
    ensures v.JStr? && StartsWith(v.s, UpstreamPrefix) ==>
      UpstreamPrefix + v.s[|UpstreamPrefix|..] == v.s && r == Get(prev, v.s[|UpstreamPrefix|..])
  {
    if v.JStr? && StartsWith(v.s, UpstreamPrefix) then
      assert v.s == v.s[..|UpstreamPrefix|] + v.s[|UpstreamPrefix|..];
      Get(prev, v.s[|UpstreamPrefix|..])
    else Some(v)
  }

  /** The inner `forEach` over the parameter entries for one upstream result. */
  function ResolveInto(acc: seq<Binding>, entries: seq<Field>, prev: Option<Json>): seq<Binding>
    decreases |entries|
  {
    if entries == [] then acc
    else ResolveInto(SetBinding(acc, entries[0].key, ResolveParam(entries[0].value, prev)), entries[1..], prev)
  }

  /** `results[id]`: the stored result of a node run earlier, if any. */
  function Upstream(results: map<string, Json>, id: string): Option<Json>
  {
    if id in results then Some(results[id]) else None
  }

  /** The outer `forEach` over the sources of the incoming edges. */
  function ResolveOver(acc: seq<Binding>, entries: seq<Field>, results: map<string, Json>, sources: seq<string>): seq<Binding>
    decreases |sources|
  {
    if sources == [] then acc
    else ResolveOver(ResolveInto(acc, entries, Upstream(results, sources[0])), entries, results, sources[1..])
  }

  function Sources(incomers: seq<Edge>): (s: seq<string>)
    ensures |s| == |incomers| && forall i :: 0 <= i < |incomers| ==> s[i] == incomers[i].source
  {
    seq(|incomers|, i requires 0 <= i < |incomers| => incomers[i].source)
  }

  /** What `getParams` returns: the parameters as they are when there is
      no incoming edge, the resolved map otherwise. */
  datatype Params = Unresolved(original: Option<Json>) | Resolved(bindings: seq<Binding>)

  const ConvertMessage: string := "Cannot convert undefined or null to object"

  /** `getParams(queryParams)`; `Object.entries` of a missing or null
      parameter object throws. */
  function ParamsFor(queryParams: Option<Json>, results: map<string, Json>, incomers: seq<Edge>): Result<Params, string>
  {
    if incomers == [] then Ok(Unresolved(queryParams))
    else if queryParams.None? || queryParams.value.JNull? then Err(ConvertMessage)
    else Ok(Resolved(ResolveOver([], OwnEntries(queryParams), results, Sources(incomers))))
  }

  method GetParams(queryParams: Option<Json>, results: map<string, Json>, incomers: seq<Edge>)
    returns (r: Result<Params, string>)
    ensures r == ParamsFor(queryParams, results, incomers)
  {
    var sources := Sources(incomers);
    if |sources| == 0 {
      return Ok(Unresolved(queryParams));
    }
    if queryParams.None? || queryParams.value.JNull? {
      return Err(ConvertMessage);
    }
    var entries := OwnEntries(queryParams);
    var resolved: seq<Binding> := [];
    var prev: Option<Json> := Some(JObj([]));
    for i := 0 to |sources|
      invariant ResolveOver(resolved, entries, results, sources[i..]) == ResolveOver([], entries, results, sources)
    {
      assert sources[i..][1..] == sources[i + 1..];
      prev := Upstream(results, sources[i]);
      ghost var start := resolved;
      for j := 0 to |entries|
        invariant ResolveInto(resolved, entries[j..], prev) == ResolveInto(start, entries, prev)
      {
        assert entries[j..][1..] == entries[j + 1..];
        var key := entries[j].key;
        var value := entries[j].value;
        if value.JStr? && StartsWith(value.s, UpstreamPrefix) {
          var path := value.s[|UpstreamPrefix|..];
          resolved := SetBinding(resolved, key, Get(prev, path));
        } else {
          resolved := SetBinding(resolved, key, Some(value));
        }
      }
      assert entries[|entries|..] == [];
    }
    assert sources[|sources|..] == [];
    return Ok(Resolved(resolved));
  }

  /** The reference reading of one pass: the parameter entries in order,
      each with its value resolved against `prev`. */
  function ResolvedBindings(entries: seq<Field>, prev: Option<Json>): (r: seq<Binding>)
    ensures |r| == |entries|
    ensures forall i :: 0 <= i < |entries| ==> r[i] == Binding(entries[i].key, ResolveParam(entries[i].value, prev))
  {
    seq(|entries|, i requires 0 <= i < |entries| => Binding(entries[i].key, ResolveParam(entries[i].value, prev)))
  }

  /** A pass that starts from an empty map appends every key in order. */
  lemma {:induction false} ResolveIntoFresh(entries: seq<Field>, j: nat, prev: Option<Json>)
    requires DistinctKeys(entries) && j <= |entries|
    ensures ResolveInto(ResolvedBindings(entries[..j], prev), entries[j..], prev) == ResolvedBindings(entries, prev)
    decreases |entries| - j
  {
    if j == |entries| {
      assert entries[..j] == entries;
    } else {
      var acc := ResolvedBindings(entries[..j], prev);
      var e := entries[j];
      assert entries[j..][0] == e && entries[j..][1..] == entries[j + 1..];
      assert e.key !in BindingKeys(acc) by {
        forall t | 0 <= t < j
          ensures BindingKeys(acc)[t] != e.key
        {
          assert acc[t].key == entries[t].key;
        }
      }
      assert acc + [Binding(e.key, ResolveParam(e.value, prev))] == ResolvedBindings(entries[..j + 1], prev);
      ResolveIntoFresh(entries, j + 1, prev);
    }
  }

  /** A pass over a map that already holds the same keys in the same
      order overwrites every value where it stands. */
  lemma {:induction false} ResolveIntoOverwrite(entries: seq<Field>, j: nat, acc: seq<Binding>, prev: Option<Json>)
    requires DistinctKeys(entries) && j <= |entries| && |acc| == |entries|
    requires forall t :: 0 <= t < |acc| ==> acc[t].key == entries[t].key
    requires forall t :: 0 <= t < j ==> acc[t] == ResolvedBindings(entries, prev)[t]
    ensures ResolveInto(acc, entries[j..], prev) == ResolvedBindings(entries, prev)
    decreases |entries| - j
  {
    if j == |entries| {
      assert acc == ResolvedBindings(entries, prev);
    } else {
      var e := entries[j];
      assert entries[j..][0] == e && entries[j..][1..] == entries[j + 1..];
      assert e.key !in BindingKeys(acc[..j]) by {
        forall t | 0 <= t < j
          ensures BindingKeys(acc[..j])[t] != e.key
        {
          assert acc[t].key == entries[t].key;
        }
      }
      var acc' := acc[j := Binding(e.key, ResolveParam(e.value, prev))];
      assert SetBinding(acc, e.key, ResolveParam(e.value, prev)) == acc';
      ResolveIntoOverwrite(entries, j + 1, acc', prev);
    }
  }

  /** After the first pass every further pass overwrites the whole map. */
  /** A pass that starts from no bindings resolves every entry. */
  lemma ResolveIntoEmpty(entries: seq<Field>, p: Option<Json>)
    requires DistinctKeys(entries)
    ensures ResolveInto([], entries, p) == ResolvedBindings(entries, p)
  {
    assert entries[..0] == [] && entries[0..] == entries;
    ResolveIntoFresh(entries, 0, p);
    assert ResolvedBindings(entries[..0], p) == [];
  }

  /** A pass over bindings resolved against one result, for another
      result, gives the bindings resolved against the other. */
  lemma ResolveIntoResolved(entries: seq<Field>, p: Option<Json>, q: Option<Json>)
    requires DistinctKeys(entries)
    ensures ResolveInto(ResolvedBindings(entries, p), entries, q) == ResolvedBindings(entries, q)
  {
    assert entries[0..] == entries;
    ResolveIntoOverwrite(entries, 0, ResolvedBindings(entries, p), q);
  }

  lemma {:induction false} ResolveOverLast(entries: seq<Field>, p: Option<Json>, results: map<string, Json>, sources: seq<string>)
    requires DistinctKeys(entries)
    ensures ResolveOver(ResolvedBindings(entries, p), entries, results, sources)
      == if sources == [] then ResolvedBindings(entries, p)
         else ResolvedBindings(entries, Upstream(results, sources[|sources| - 1]))
    decreases |sources|
  {
    if sources != [] {
      var q := Upstream(results, sources[0]);
      ResolveIntoResolved(entries, p, q);
      ResolveOverLast(entries, q, results, sources[1..]);
      if |sources| > 1 {
        assert sources[1..][|sources| - 2] == sources[|sources| - 1];
      }
    }
  }

  /** With incoming edges, every edge rewrites every key, so the result is
      the parameter map resolved against the last incoming edge's source
      alone, even where that lookup finds nothing. */
  lemma LastIncomerWins(queryParams: Option<Json>, results: map<string, Json>, incomers: seq<Edge>)
    requires incomers != [] && queryParams.Some? && !queryParams.value.JNull?
    requires DistinctKeys(OwnEntries(queryParams))
    ensures ParamsFor(queryParams, results, incomers)
      == Ok(Resolved(ResolvedBindings(OwnEntries(queryParams), Upstream(results, incomers[|incomers| - 1].source))))
  {
    var entries := OwnEntries(queryParams);
    var sources := Sources(incomers);
    var p0 := Upstream(results, sources[0]);
    ResolveIntoEmpty(entries, p0);
    ResolveOverLast(entries, p0, results, sources[1..]);
    if |sources| > 1 {
      assert sources[1..][|sources| - 2] == sources[|sources| - 1];
    }
  }

  // ---------------------------------------------------------------------
  // The dispatch on the node type

  /** How the asynchronous call settles: with a value or with an error
      message. */
  datatype Outcome = Returned(value: Json) | Threw(message: string)

  /** The request `runNode` hands to the HTTP client for an HTTP node. */
  datatype NodeRequest = NodeRequest(verb: Option<Json>, url: string, params: seq<Binding>,
                                     headers: seq<Field>, data: seq<Field>)

  /** `{ ...params }`. */
  function SpreadParams(p: Params): seq<Binding>
  {
    match p
    case Unresolved(original) =>
      var entries := OwnEntries(original);
      seq(|entries|, i requires 0 <= i < |entries| => Binding(entries[i].key, Some(entries[i].value)))
    case Resolved(bs) => bs
  }

  predicate IsStartType(t: string)
  {
    t == "startNode" || t == "start-node"
  }

  /** `node.data.fields || {}`. */
  function StartFields(node: Node): (r: Json)
    ensures Truthy(Lookup(node.data, "fields")) ==> Some(r) == Lookup(node.data, "fields")
    ensures !Truthy(Lookup(node.data, "fields")) ==> r == JObj([])
  {
    var f := Lookup(node.data, "fields");
    if Truthy(f) then f.value else JObj([])
  }

  /** A resolved call gives the response object; anything else rejects. */
  function ClientOutcome(reply: Reply): (r: Outcome)
    ensures r.Returned? <==> reply.Answered? && Accepted(reply.status)
  {
    if reply.Answered? && Accepted(reply.status) then
      Returned(ResponseObject(reply.status, reply.statusText, reply.data, reply.headers))
    else Threw(RejectionMessage(reply))
  }

  /** The request of an HTTP node whose URL is a string. */
  function HttpRequestFor(node: Node, url: string, p: Params): NodeRequest
  {
    NodeRequest(Lookup(node.data, "method"), Trim(url), SpreadParams(p),
                OwnEntries(Lookup(node.data, "headers")), OwnEntries(Lookup(node.data, "body")))
  }

  /** The HTTP branch after the status write: `url.trim()`, then
      `getParams`, then the client call. */
  function HttpOutcome(node: Node, results: map<string, Json>, incomers: seq<Edge>,
                       send: NodeRequest -> Reply): Outcome
  {
    match Lookup(node.data, "url")
    case None => Threw("Cannot read properties of undefined (reading 'trim')")
    case Some(JNull) => Threw("Cannot read properties of null (reading 'trim')")
    case Some(JStr(url)) =>
      (match ParamsFor(Lookup(node.data, "queryParams"), results, incomers)
       case Err(m) => Threw(m)
       case Ok(p) => ClientOutcome(send(HttpRequestFor(node, url, p))))
    case Some(_) => Threw("url.trim is not a function")
  }

  /** `runNode(node, results, incomers, updateNodeData)`, where
      `callbackPassed` says whether the fourth argument was given and
      `send` stands for the HTTP client. */
  function RunNodeOutcome(node: Node, results: map<string, Json>, incomers: seq<Edge>,
                          callbackPassed: bool, send: NodeRequest -> Reply): Outcome
  {
    if node.nodeType == "httpNode" then
      if !callbackPassed then Threw("updateNodeData is not a function")
      else HttpOutcome(node, results, incomers, send)
    else if node.nodeType == "graphNode" then Threw("response is not defined")
    else if IsStartType(node.nodeType) then Returned(StartFields(node))
    else Threw("Unknown node type: " + node.nodeType)
  }

  /** `runNode`; `loadingWrite` tells whether it asked the callback to
      mark the node loading. */
  method RunNode(node: Node, results: map<string, Json>, incomers: seq<Edge>,
                 callbackPassed: bool, send: NodeRequest -> Reply)
    returns (outcome: Outcome, loadingWrite: bool)
    ensures outcome == RunNodeOutcome(node, results, incomers, callbackPassed, send)
    ensures loadingWrite <==> node.nodeType == "httpNode" && callbackPassed
  {
    loadingWrite := false;
    if node.nodeType == "httpNode" {
      if !callbackPassed {
        return Threw("updateNodeData is not a function"), false;
      }
      loadingWrite := true;
      var url := Lookup(node.data, "url");
      if url.None? {
        return Threw("Cannot read properties of undefined (reading 'trim')"), true;
      } else if url.value.JNull? {
        return Threw("Cannot read properties of null (reading 'trim')"), true;
      } else if !url.value.JStr? {
        return Threw("url.trim is not a function"), true;
      }
      var endpoint := Trim(url.value.s);
      var params := GetParams(Lookup(node.data, "queryParams"), results, incomers);
      if params.Err? {
        return Threw(params.error), true;
      }
      var reply := send(NodeRequest(Lookup(node.data, "method"), endpoint, SpreadParams(params.value),
                                    OwnEntries(Lookup(node.data, "headers")), OwnEntries(Lookup(node.data, "body"))));
      outcome := ClientOutcome(reply);
    } else if node.nodeType == "graphNode" {
      outcome := Threw("response is not defined");
    } else if IsStartType(node.nodeType) {
      outcome := Returned(StartFields(node));
    } else {
      outcome := Threw("Unknown node type: " + node.nodeType);
    }
  }

  /** Without the callback only start nodes settle with a value: the HTTP
      branch fails on the missing callback, the chart branch on an
      undefined name, every other type as unknown. */
  lemma WithoutCallbackOnlyStartReturns(node: Node, results: map<string, Json>, incomers: seq<Edge>,
                                        send: NodeRequest -> Reply)
    ensures RunNodeOutcome(node, results, incomers, false, send).Returned? <==> IsStartType(node.nodeType)
    ensures IsStartType(node.nodeType) ==> RunNodeOutcome(node, results, incomers, false, send) == Returned(StartFields(node))
    ensures node.nodeType !in {"httpNode", "graphNode", "startNode", "start-node"} ==>
      RunNodeOutcome(node, results, incomers, false, send) == Threw("Unknown node type: " + node.nodeType)
  {
  }

  /** An HTTP node settles with a value only when the client answered with
      a 2xx status, and that value is the client's response object. */
  lemma HttpReturnsOnlyAccepted(node: Node, results: map<string, Json>, incomers: seq<Edge>,
                                send: NodeRequest -> Reply)
    requires node.nodeType == "httpNode"
    ensures RunNodeOutcome(node, results, incomers, true, send).Returned? ==>
      && Lookup(node.data, "url").Some? && Lookup(node.data, "url").value.JStr?
      && ParamsFor(Lookup(node.data, "queryParams"), results, incomers).Ok?
      && var req := HttpRequestFor(node, Lookup(node.data, "url").value.s,
                                   ParamsFor(Lookup(node.data, "queryParams"), results, incomers).value);
         && req.url == Trim(Lookup(node.data, "url").value.s)
         && send(req).Answered? && Accepted(send(req).status)
         && RunNodeOutcome(node, results, incomers, true, send).value
            == ResponseObject(send(req).status, send(req).statusText, send(req).data, send(req).headers)
  {
  }

  /** The GraphQL node the editor creates has type `graphqlNode`, which the
      dispatch does not know. */
  lemma GraphqlNodeIsUnknown(position: Position, suffix: string, results: map<string, Json>, incomers: seq<Edge>,
                             callbackPassed: bool, send: NodeRequest -> Reply)
    ensures NewNode("graphql", position, suffix).Some?
    ensures RunNodeOutcome(NewNode("graphql", position, suffix).value, results, incomers, callbackPassed, send)
      == Threw("Unknown node type: graphqlNode")
  {
    UnknownTypeOutcome(NewNode("graphql", position, suffix).value, results, incomers, callbackPassed, send);
  }

  /** `runNode` on a node of type `graphqlNode` throws the unknown-type error. */
  lemma UnknownTypeOutcome(node: Node, results: map<string, Json>, incomers: seq<Edge>,
                           callbackPassed: bool, send: NodeRequest -> Reply)
    requires node.nodeType == "graphqlNode"
    ensures RunNodeOutcome(node, results, incomers, callbackPassed, send) == Threw("Unknown node type: graphqlNode")
  {
    var t := node.nodeType;
    assert t[0] == 'g' && t[5] == 'q';
    assert t != "httpNode" && t != "startNode" && t != "start-node";
    assert t != "graphNode" by {
      assert |t| == 11;
    }
    assert "Unknown node type: " + t == "Unknown node type: graphqlNode";
  }
}
