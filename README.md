# data-craft-canvas flow engine, modelled in Dafny

data-craft-canvas is a visual flow editor. A flow is a list of nodes and a list of edges. The user runs it with "Run all", which does three things:
- sorts the nodes topologically;
- runs them one after another, each with the results of the nodes upstream of it;
- writes each node's loading, response or error state back into the flow.

HTTP and GraphQL settings may contain `{{nodeId.path}}` placeholders, which are filled in from other nodes. Graph nodes plot the response data of the node that feeds them.

This project models that engine and the editing operations around it, and proves what the code promises about them.

The modules follow the source files:

| module | file | what it models |
|---|---|---|
| `TopoSort` | `toposort.dfy` | `kahnTopoSort`: the in-degree and adjacency tables and the FIFO queue loop, proved against the topological-order specification |
| `Templating` | `templating.dfy` | `resolveTemplateVariables`, `resolveTemplateObject`, `safeJsonParse` and the escaping steps of `formatJson` |
| `RunNode` | `runnode.dfy` | `getParams`, the upstream parameter resolver, and the node-type dispatch of `runNode` |
| `FlowRunner` | `flowrunner.dfy` | the `runAll` loop of the runner component, acting on the flow context |
| `ApiService` | `apiservice.dfy` | request assembly and outcome classification in `executeHttpRequest` and `executeGraphQLRequest` |
| `FlowStore` | `flowstore.dfy` | the zustand store, as a class whose actions update its fields |
| `FlowContext` | `flowcontext.dfy` | the React context provider, as a class whose actions hand updaters to `setNodes` and `setEdges` |
| `Graph` | `graph.dfy` | node and edge records and the list updates both containers perform, with the well-formedness invariant they keep |
| `Charts` | `charts.dfy` | `formatChartData` in `src/utils/formatChartData.js`, and the chart-type table |
| `GraphNode` | `graphnode.dfy` | the graph node's own formatter and its type, config and chart-data state |
| `FlowData` | `flowdata.dfy` | the `useFlowData` lookup and the `useMemo` cache around it |
| `Json`, `PathResolver`, `Text`, `Network`, `Wrappers` | the rest | the JavaScript values and built-ins the code relies on, `lodash/get` along dot paths, and the HTTP client's replies |

Conventions used throughout:
- JavaScript values are the datatype `Json`. An object is a list of fields in insertion order, and `undefined` is `Option.None`. `String.prototype` methods and `JSON.stringify` follow the language's rules. Property access reads own properties only: an object's keys, and an array's or a string's indices and `length` (see Left out).
- Everything the code cannot see is a parameter of the model:
  - the HTTP client is a function from request to reply;
  - `JSON.parse` is a function from text to an optional value;
  - the eight characters taken from a fresh UUID are a `suffix` string.
- Code that updates state step by step is modelled with methods, and each method is proved against a function of the old state:
  - the sort's loops;
  - the template loops;
  - `getParams`;
  - the `runAll` loop;
  - the store, context and graph-node actions.
- Code that only computes a value is modelled with functions and lemmas.

Where the code and its own comments or names disagree, the model follows the code. Four places:
1. A placeholder such as `{{start-node.fields.city}}` is left verbatim. The path walk starts at the node object, so the start node's fields are reached only through `{{start-node.data.fields.city}}` (`Templating.CitySkippingData`, `Templating.CityThroughData`).
2. A GraphQL node has type `graphqlNode`, which `runNode`'s dispatch does not list, so running one throws "Unknown node type: graphqlNode" (`RunNode.GraphqlNodeIsUnknown`).
3. The `graphNode` branch of `runNode` reads a `response` that is not defined, so it throws.
4. The runner's loop also sees the error of an HTTP node: `runAll` calls `runNode` without the `updateNodeData` callback (see Findings).

## Model

| member | source | states |
|---|---|---|
| `TopoSort.KahnTopoSort` | src/utils/kahnTopoSort.js:1-37 | fails on an edge whose source is not a node exactly when one exists; otherwise the list it processes is `KahnOrder` (one determined order), is settled (no further vertex can be released) and starts with the initial queue, and the result is that list when it covers every node and the cycle error otherwise |
| `TopoSort.InitTables` | src/utils/kahnTopoSort.js:6-9 | every node id gets in-degree 0 and an empty adjacency list, and no other key exists |
| `TopoSort.AddEdge` | src/utils/kahnTopoSort.js:12-15 | adding one edge keeps the tables equal to the in-degrees and adjacency lists of the edges added so far |
| `TopoSort.BuildTables` | src/utils/kahnTopoSort.js:12-15 | succeeds exactly when every edge starts at a node; then each vertex's in-degree counts every edge into it, duplicates included, and each adjacency list holds the targets in edge order |
| `TopoSort.InitialQueue` | src/utils/kahnTopoSort.js:18 | holds exactly the node ids with no incoming edge, without repeats when node ids are distinct |
| `TopoSort.ZeroInDegreeIds` | src/utils/kahnTopoSort.js:18 | the filter over the built table yields the initial queue, in node-list order |
| `TopoSort.Released` | src/utils/kahnTopoSort.js:25-30 | a neighbour is released exactly when its count is at least one and at most its number of occurrences in the list |
| `TopoSort.ReleaseNeighbour` | src/utils/kahnTopoSort.js:26-29 | the neighbour's count drops by one, and it is appended to the queue exactly when the count reaches zero |
| `TopoSort.Release` | src/utils/kahnTopoSort.js:25-30 | each neighbour's in-degree drops once per occurrence in the adjacency list; the queue grows by exactly the released neighbours, in adjacency order, none twice |
| `TopoSort.Step` | src/utils/kahnTopoSort.js:21-31 | one turn moves the queue's head to the end of `sorted` and appends what its adjacency list releases to the queue's tail (first in, first out), keeping the loop invariant: no repeats, every processed vertex has all its sources processed before it |
| `TopoSort.Drain` | src/utils/kahnTopoSort.js:21-31 | the reference order over the specification tables: it extends the processed list by at most one vertex per turn |
| `TopoSort.KahnOrder` | src/utils/kahnTopoSort.js:18-31 | the processing order from the initial queue, first in first out; it holds no more entries than there are vertices |
| `TopoSort.DrainStep` | src/utils/kahnTopoSort.js:21-31 | one turn of the loop is one turn of the reference order |
| `TopoSort.Drive` | src/utils/kahnTopoSort.js:21-31 | the loop ends settled, with a list that starts with the queue it was given and is exactly the reference order |
| `TopoSort.SettledCovers` | src/utils/kahnTopoSort.js:21-31 | every vertex of any order that respects the edges is processed, so the loop cannot stop early |
| `TopoSort.SettledUnique` | src/utils/kahnTopoSort.js:21-31 | any two settled lists hold the same vertices, hence the same length and the same verdict (order or cycle error) |
| `TopoSort.SettledFullIsOrder` | src/utils/kahnTopoSort.js:21-37 | when every edge ends at a node, a result as long as the node list holds every id exactly once with every edge going forward |
| `TopoSort.OrderForcesFull` | src/utils/kahnTopoSort.js:33-35 | when every edge ends at a node and some topological order exists, the sort does not report a cycle |
| `TopoSort.SelfLoopExcluded` | src/utils/kahnTopoSort.js:33-35 | a vertex with an edge to itself is never processed, so such a flow always reports a cycle |
| `TopoSort.WellFormedSettled` | src/utils/kahnTopoSort.js:1-37 | on a flow with distinct ids whose edges join nodes, the sort returns exactly when a topological order exists, and what it returns is one |
| `TopoSort.DanglingTargetHidesCycle` | src/utils/kahnTopoSort.js:12-15 | as written, an edge into a non-node lets the sort return a list holding that non-node although the flow has a cycle and no order |
| `TopoSort.DanglingTargetFalseCycle` | src/utils/kahnTopoSort.js:33-35 | as written, an edge into a non-node makes the sort report a cycle for an acyclic single-node flow |
| `TopoSort.KeptEdges` | src/utils/kahnTopoSort.js:12-15 | the corrected build keeps exactly the edges that end at a node |
| `TopoSort.RespectsKeptEdges` | src/utils/kahnTopoSort.js:12-15 | for an order of the nodes, dropping edges into non-nodes does not change which edges it must respect |
| `TopoSort.KahnTopoSortChecked` | src/utils/kahnTopoSort.js:1-37 | the corrected sort returns only topological orders, namely the reference order over the kept edges, and returns one whenever one exists |
| `Templating.Matches` | src/utils/templating.js:14-15 | every match is a placeholder: two `{`, a non-empty inner part without `}`, two `}` |
| `Templating.MatchEnd` | src/utils/templating.js:14 | a match starting at a position ends at the first `}}` after a non-empty run without `}` |
| `Templating.PlaceholderPath` | src/utils/templating.js:21-22 | the trimmed inner text split on dots has at least one part |
| `Templating.Found` | src/utils/templating.js:33-38 | a value counts as found exactly when it is neither undefined nor null |
| `Templating.ReplaceFirst` | src/utils/templating.js:44 | `String.prototype.replace` with a string pattern; `ReplaceAfterPrefix` and `ReplaceAt` show it replaces the first occurrence only |
| `Templating.Expand` | src/utils/templating.js:44 | the `$` patterns of a replacement text (`$$`, `$&`, `` $` ``, `$'`); `ExpandPlain` shows text without `$` is inserted as it is |
| `Templating.ResolvedTemplate` | src/utils/templating.js:8-49 | the specification the loop is proved against: falsy and non-string values unchanged, strings resolved match by match |
| `Templating.ResolveTemplateVariables` | src/utils/templating.js:8-49 | the loop over the matches computes the resolved template: falsy and non-string input unchanged, each match applied in turn |
| `Templating.LookupPlaceholder` | src/utils/templating.js:21-45 | the node lookup and the path walk give the placeholder's substitution, or none when the node is missing or the value is undefined or null |
| `Templating.PlaceholderFreeUnchanged` | src/utils/templating.js:14-15 | a string without placeholders comes back unchanged |
| `Templating.ResolveIdempotentWhenFree` | src/utils/templating.js:8-49 | resolving twice is resolving once whenever the first result is placeholder-free |
| `Templating.NothingResolvesUnchanged` | src/utils/templating.js:25-28 | when no placeholder resolves, the text is unchanged |
| `Templating.UnknownNodeVerbatim` | src/utils/templating.js:25-28 | a placeholder naming no node stays in the text verbatim |
| `Templating.SinglePlaceholder` | src/utils/templating.js:17-47 | a single placeholder is replaced in place by its substitution, `$` patterns expanded, or left as it is when it does not resolve |
| `Templating.ResolvedPlaceholder` | src/utils/templating.js:38-44 | a placeholder whose found text has no `$` is replaced by exactly that text |
| `Templating.ReplaceAfterPrefix` | src/utils/templating.js:44 | `replace` with a string pattern replaces only its first occurrence |
| `Templating.ExpandPlain` | src/utils/templating.js:44 | a replacement text without `$` is inserted as it is |
| `Templating.ResolveWoven` | src/utils/templating.js:14-46 | for any number of placeholders between gaps holding no `{{`: the matches are exactly the placeholders, and the result keeps every gap and puts each placeholder's substitution in its own place, leaving the unresolved ones as they are |
| `Templating.UnresolvedStays` | src/utils/templating.js:25-28 | among any number of placeholders, one that names no node or whose value is undefined or null still occurs in the result |
| `Templating.WovenOccurs` | src/utils/templating.js:14-46 | each placeholder or substitution put between the gaps occurs in the text built from them |
| `Templating.CityThroughData` | src/utils/templating.js:21-35 | the walk starts at the node object: `{{start-node.data.fields.city}}` resolves to the start node's city |
| `Templating.CitySkippingData` | src/utils/templating.js:21-35 | a path that skips `data` finds nothing and the placeholder stays |
| `Templating.ResolvedObject` | src/utils/templating.js:57-75 | the specification the object loop is proved against; `ResolvedObjectEntries` states its keys and values |
| `Templating.ResolveTemplateObject` | src/utils/templating.js:57-75 | computes the resolved object: falsy and non-object values unchanged, objects and arrays rebuilt |
| `Templating.ResolveObjectFields` | src/utils/templating.js:62-72 | the loop over the entries builds the fresh object's fields, strings resolved, objects recursed, other values copied |
| `Templating.ResolveEntryValue` | src/utils/templating.js:65-71 | the value written for one entry is the entry's resolved value: a string (the empty one kept) resolved as a template, an object or array resolved into a fresh object, anything else unchanged |
| `Templating.ResolveEntriesLookup` | src/utils/templating.js:64-72 | each key the loop reaches holds its entry's resolved value; other keys read as before |
| `Templating.ResolveEntriesKeys` | src/utils/templating.js:64-72 | the loop appends the entries' keys in order |
| `Templating.ResolvedObjectEntries` | src/utils/templating.js:57-75 | the resolved object has the same keys in the same order as the input's own entries, each holding that entry's resolved value |
| `Templating.SafeJsonParse` | src/utils/templating.js:83-90 | the parse with its default; `SafeJsonParseRoundTrip` states its cases |
| `Templating.SafeJsonParseRoundTrip` | src/utils/templating.js:83-90 | the text of a value parses back to it; falsy input or a failed parse gives the default |
| `Templating.EscapeMarkup` | src/utils/templating.js:103-106 | the three escaping replacements in source order; `EscapeMarkupEach` and `EscapeMarkupRoundTrip` state what they do |
| `Templating.FormatJsonEscaped` | src/utils/templating.js:97-106 | `formatJson` up to its highlighting; `FormatJsonReadsBack` states its result |
| `Templating.EscapeMarkupEach` | src/utils/templating.js:103-106 | replacing `&` first makes the three replacements one pass that escapes each character separately |
| `Templating.EscapeMarkupRoundTrip` | src/utils/templating.js:103-106 | the escaped text has no angle brackets and unescapes back to the input, so nothing is escaped twice |
| `Templating.FormatJsonReadsBack` | src/utils/templating.js:97-106 | falsy input gives empty text; otherwise the result has no angle brackets and reads back to the string or its pretty JSON form |
| `PathResolver.Property` | src/utils/templating.js:34 | property access: an object's own key, an array's canonical index or `length`, a string's characters; numbers and booleans have none |
| `PathResolver.Walk` | src/utils/templating.js:31-35 | the walk stops at undefined or null; `WalkAppend`, `WalkThroughObjects` and `WalkMissingKey` state its steps |
| `PathResolver.Get` | src/utils/runNode.js:19 | `lodash/get`: a path the value holds as a key is read whole, any other is walked segment by segment; a dot-free path is one segment, and an undefined or null root reads as undefined |
| `PathResolver.GetDottedKey` | src/utils/runNode.js:19 | an object with the own key `a.b` is read through it, although the segments `a`, `b` find nothing |
| `PathResolver.WalkAppend` | src/utils/templating.js:31-35 | walking a concatenated path is walking its two parts in turn |
| `PathResolver.GetJoinedPath` | src/utils/runNode.js:18-19 | `get` on a dotted path walks its dot-free segments in turn, unless the value holds the whole path as a key; a single segment always does |
| `PathResolver.WalkThroughObjects` | src/utils/templating.js:31-35 | a walk through an object holding the key continues from that key's value |
| `PathResolver.WalkMissingKey` | src/utils/templating.js:33-35 | a walk that meets a missing key gives undefined |
| `Graph.NodeToJson` | src/utils/templating.js:31 | the node object the walk starts from carries `id`, `type`, `position` and `data` |
| `Graph.NodeJsonLookup` | src/utils/templating.js:31-34 | the walk finds the node's id under `id` and its data under `data` |
| `Graph.FirstWithId` | src/stores/flowStore.js:208 | the first position carrying the id, and none before it |
| `Graph.FindNode` | src/stores/flowStore.js:208 | the first node carrying the id, and none exactly when no node does |
| `Graph.Filter` | src/components/FlowRunner.jsx:36 | keeps exactly the elements that pass, in their order |
| `Graph.Incomers` | src/components/FlowRunner.jsx:36 | exactly the edges whose target is the node, in edge-list order |
| `Graph.UpdateNodeData` | src/stores/flowStore.js:165-184 | the nodes carrying the id get the patch shallow-merged into their data; every other node and the order are unchanged |
| `Graph.UpdateNodeDataReads` | src/stores/flowStore.js:167-178 | after an update a key of the patched node reads the patch's value when the patch has it and the old value otherwise |
| `Graph.RemoveNode` | src/stores/flowStore.js:189 | keeps exactly the nodes with another id, in order, and changes nothing when no node has the id |
| `Graph.RemoveIncidentEdges` | src/stores/flowStore.js:192-194 | keeps exactly the edges neither starting nor ending at the node, in order |
| `Graph.RemoveEdge` | src/stores/flowStore.js:235 | keeps exactly the edges with another id, in order |
| `Graph.InitialNodes` | src/stores/flowStore.js:9-20 | the single start node `start-node` of type `startNode` with data type `start` |
| `Graph.NodeTemplate` | src/stores/flowStore.js:108-146 | only `http` and `graphql` are known kinds, giving `httpNode` and `graphqlNode` with their data types |
| `Graph.NewNode` | src/stores/flowStore.js:143-153 | an unknown kind gives no node; a known kind gives `kind-suffix` at the position with the kind's default data |
| `Graph.Duplicate` | src/stores/flowStore.js:211-220 | the copy is named after the data type, moved by +20/+20, deselected, with the same type and data |
| `Graph.DeleteLeavesNoTrace` | src/stores/flowStore.js:186-205 | after a delete no node carries the id and no edge touches it |
| `Graph.UpdateKeepsIds` | src/stores/flowStore.js:165-184 | a data update never changes an id or the order |
| `Graph.AppendKeepsWellFormed` | src/stores/flowStore.js:155-160 | appending a node with a fresh id keeps ids distinct and edges joining nodes |
| `Graph.DeleteKeepsWellFormed` | src/stores/flowStore.js:186-205 | deleting a node with its edges keeps the flow well formed |
| `FlowStore.Store.constructor` | src/stores/flowStore.js:57-72 | with nothing persisted: the start node, no edges, nothing selected, menu hidden; the flow is well formed |
| `FlowStore.Store.AddNode` | src/stores/flowStore.js:107-163 | an unknown kind returns no id and changes nothing; a known kind appends exactly its new node and returns its id; nothing else changes, and a fresh id keeps the flow well formed |
| `FlowStore.Store.Append` | src/stores/flowStore.js:155-160 | appends the node and changes nothing else |
| `FlowStore.Store.UpdateNodeData` | src/stores/flowStore.js:165-184 | the node list becomes the merged list; ids, edges, selection and menu are unchanged and the flow stays well formed |
| `FlowStore.Store.DeleteNode` | src/stores/flowStore.js:186-205 | removes the node and its incident edges, nothing else, and keeps the flow well formed |
| `FlowStore.Store.DuplicateNode` | src/stores/flowStore.js:207-230 | a missing id changes nothing; otherwise appends the copy of the first node with that id and returns the copy's id |
| `FlowStore.Store.DeleteEdge` | src/stores/flowStore.js:233-240 | removes the edges carrying the id, nothing else |
| `FlowStore.Store.SetSelectedNode` | src/stores/flowStore.js:243-245 | sets the selected node and nothing else |
| `FlowStore.Store.SetSelectedEdge` | src/stores/flowStore.js:247-249 | sets the selected edge and nothing else |
| `FlowStore.Store.ShowContextMenu` | src/stores/flowStore.js:252-261 | the menu becomes visible at the position for the given node or edge |
| `FlowStore.Store.HideContextMenu` | src/stores/flowStore.js:263-272 | the menu is hidden at (0,0) with both ids cleared; nothing else changes |
| `FlowStore.Store.ExportFlow` | src/stores/flowStore.js:275-281 | returns the current node and edge lists |
| `FlowStore.Store.ImportFlow` | src/stores/flowStore.js:283-292 | succeeds exactly when the flow and both its lists are present; then both lists are replaced, otherwise nothing changes |
| `FlowStore.Store.ResetFlow` | src/stores/flowStore.js:295-302 | leaves exactly the start node and no edges, keeps selection and menu, and is well formed |
| `FlowContext.Context.constructor` | src/contexts/FlowContext.jsx:48-57 | the same start state as the store, well formed |
| `FlowContext.Context.SetNodes` | src/contexts/FlowContext.jsx:48 | the node list becomes the updater applied to the previous list; nothing else changes |
| `FlowContext.Context.SetEdges` | src/contexts/FlowContext.jsx:49 | the edge list becomes the updater applied to the previous list; nothing else changes |
| `FlowContext.Context.AddNode` | src/contexts/FlowContext.jsx:101-154 | as the store: an unknown kind is a no-op without id, a known kind appends one node and returns its id |
| `FlowContext.Context.KeepsValidAppending` | src/contexts/FlowContext.jsx:143-151 | appending a node with a fresh id to a well-formed flow keeps it well formed |
| `FlowContext.Context.UpdateNodeData` | src/contexts/FlowContext.jsx:157-173 | merges into the nodes with the id only; ids and everything else unchanged |
| `FlowContext.Context.DeleteNode` | src/contexts/FlowContext.jsx:176-184 | removes the node and all its incident edges, keeping the flow well formed |
| `FlowContext.Context.DuplicateNode` | src/contexts/FlowContext.jsx:187-207 | a missing id is a no-op; otherwise appends the moved, deselected copy and returns its id |
| `FlowContext.Context.DeleteEdge` | src/contexts/FlowContext.jsx:210-215 | removes the edges carrying the id, nothing else |
| `FlowContext.Context.SetSelectedNode` | src/contexts/FlowContext.jsx:50 | sets the selected node and nothing else |
| `FlowContext.Context.SetSelectedEdge` | src/contexts/FlowContext.jsx:51 | sets the selected edge and nothing else |
| `FlowContext.Context.ShowContextMenu` | src/contexts/FlowContext.jsx:218-228 | the menu becomes visible at the position for the given node or edge |
| `FlowContext.Context.HideContextMenu` | src/contexts/FlowContext.jsx:230-240 | the menu is hidden at (0,0) with both ids cleared |
| `FlowContext.Context.ExportFlow` | src/contexts/FlowContext.jsx:243-248 | returns the current lists |
| `FlowContext.Context.ImportFlow` | src/contexts/FlowContext.jsx:250-262 | rejects a flow lacking nodes or edges with false and no change; otherwise replaces both lists |
| `FlowContext.Context.ResetFlow` | src/contexts/FlowContext.jsx:265-271 | restores the single start node and no edges |
| `RunNode.Sources` | src/utils/runNode.js:6 | the sources of the incoming edges, in order |
| `RunNode.ResolveParam` | src/utils/runNode.js:16-22 | a string starting with `upstream.` loses only that prefix and the rest is looked up in the upstream result; any other value is copied |
| `RunNode.SetBinding` | src/utils/runNode.js:19-21 | assigning a key overwrites it where it stands or appends it |
| `RunNode.ParamsFor` | src/utils/runNode.js:8-26 | the specification `GetParams` is proved against: the original parameters without incomers, the conversion error for missing parameters, the resolved map otherwise; `LastIncomerWins` states which incomer counts |
| `RunNode.GetParams` | src/utils/runNode.js:8-26 | the loops compute the resolver's result: the original parameters with no incomers, the resolved map otherwise, the conversion error for missing parameters |
| `RunNode.ResolvedBindings` | src/utils/runNode.js:15-23 | one pass: the entries in order, each resolved against one upstream result |
| `RunNode.ResolveIntoFresh` | src/utils/runNode.js:15-23 | the first pass appends every key in order |
| `RunNode.ResolveIntoOverwrite` | src/utils/runNode.js:15-23 | a later pass overwrites every value where it stands |
| `RunNode.ResolveOverLast` | src/utils/runNode.js:12-24 | after the first pass the map is the last pass's |
| `RunNode.LastIncomerWins` | src/utils/runNode.js:8-26 | with incomers, the result is resolution against the last incomer alone, even where its lookup finds nothing |
| `RunNode.StartFields` | src/utils/runNode.js:50 | the node's `fields` when truthy, `{}` otherwise |
| `RunNode.ClientOutcome` | src/utils/runNode.js:42-43 | the call returns exactly for a 2xx reply |
| `RunNode.HttpOutcome` | src/utils/runNode.js:38-43 | the HTTP branch after the callback: the `trim` errors, the parameter error, or the client's outcome; `HttpReturnsOnlyAccepted` states when it returns |
| `RunNode.RunNodeOutcome` | src/utils/runNode.js:28-53 | the dispatch on the node type; `WithoutCallbackOnlyStartReturns`, `HttpReturnsOnlyAccepted` and `GraphqlNodeIsUnknown` state its cases |
| `RunNode.RunNode` | src/utils/runNode.js:4-54 | computes the dispatch outcome; asks for the loading write exactly for an HTTP node given the callback |
| `RunNode.WithoutCallbackOnlyStartReturns` | src/utils/runNode.js:28-53 | without the callback only start nodes return, with their fields; unknown types throw "Unknown node type: <type>" |
| `RunNode.HttpReturnsOnlyAccepted` | src/utils/runNode.js:30-44 | an HTTP node returns only when its URL is a string, its parameters resolve and the 2xx reply to the trimmed URL gives the response object |
| `RunNode.GraphqlNodeIsUnknown` | src/utils/runNode.js:51-52 | a node the editor creates as GraphQL throws "Unknown node type: graphqlNode" |
| `Network.Accepted` | src/utils/runNode.js:42 | axios resolves only for a status from 200 to 299; `RunNode.ClientOutcome` states that only those replies return |
| `Network.RejectionMessage` | src/utils/runNode.js:42 | the message axios rejects with, which `RunNode.ClientOutcome` throws for every other reply |
| `Network.ResponseObject` | src/utils/runNode.js:42-43 | the client's response object carries the reply's status and data |
| `FlowRunner.NodeStep` | src/components/FlowRunner.jsx:16-56 | one turn of the loop as writes and next results; `StepShape` states its shape and `RunStep` is proved against it |
| `FlowRunner.RunWrites` | src/components/FlowRunner.jsx:15-57 | the writes of the whole loop; `SpinnerWrites`, `SettlingWrites` and `FailFast` state their order |
| `FlowRunner.ApplyWrites` | src/components/FlowRunner.jsx:19-56 | applying the run's status writes never changes node ids or order |
| `FlowRunner.ApplyWritesAppend` | src/components/FlowRunner.jsx:15-57 | applying two batches in turn is applying them together |
| `FlowRunner.RunStep` | src/components/FlowRunner.jsx:16-56 | one node's turn makes exactly its spinner write and settling write in the context and yields the results for the next turn, or ends the run |
| `FlowRunner.RunWritesAt` | src/components/FlowRunner.jsx:15-57 | the writes from a position on are that node's writes followed by the rest when the run goes on |
| `FlowRunner.StepKeys` | src/components/FlowRunner.jsx:13-49 | results only ever hold ids of nodes already processed in this run |
| `FlowRunner.RunOrder` | src/components/FlowRunner.jsx:15-57 | the loop leaves the context's nodes as the run's writes applied in order; nothing else changes |
| `FlowRunner.RunAll` | src/components/FlowRunner.jsx:11-58 | a sort error leaves every node untouched; otherwise the writes for the sorted order are applied; on a well-formed flow the order is topological and the error occurs exactly when no order exists; ids and well-formedness are kept |
| `FlowRunner.PatchReads` | src/components/FlowRunner.jsx:19-56 | the spinner write sets loading with no error; the settling writes clear loading |
| `FlowRunner.StepShape` | src/components/FlowRunner.jsx:15-56 | each turn writes the spinner first, then at most one settling write, and only an unfailed settled node lets the run go on |
| `FlowRunner.SpinnerWrites` | src/components/FlowRunner.jsx:19 | the j-th node reached gets the spinner write at position 2j, in sort order |
| `FlowRunner.SettlingWrites` | src/components/FlowRunner.jsx:26-56 | the write after each spinner settles that same node |
| `FlowRunner.FailFast` | src/components/FlowRunner.jsx:38-46 | only the last write of a run can carry an error, so later nodes get no writes |
| `FlowRunner.FailedNodeData` | src/components/FlowRunner.jsx:19-44 | a failed node ends not loading, with the error message and the null response the spinner left |
| `FlowRunner.StartNodesSkipRunNode` | src/components/FlowRunner.jsx:22-32 | start nodes settle without calling `runNode`, two writes each |
| `FlowRunner.HttpNodeStopsRun` | src/components/FlowRunner.jsx:39 | as written, the first HTTP node fails with "updateNodeData is not a function" and ends the run |
| `FlowRunner.CallbackStepSettles` | src/components/FlowRunner.jsx:38-56 | with the callback passed, a runnable node whose requests are all accepted settles |
| `FlowRunner.CallbackRunCompletes` | src/components/FlowRunner.jsx:11-58 | with the callback passed, a run over runnable nodes with accepted requests writes two entries per node and no error |
| `ApiService.Classify` | src/services/apiService.js:92-116 | any response is returned (flagged as an error outside 2xx); no response throws "No response received from server"; a setup error throws with the prefix |
| `ApiService.FormEntries` | src/services/apiService.js:76-78 | each resolved entry appended as text, in order |
| `ApiService.ConfigObject` | src/services/apiService.js:20-32 | the header or parameter object the method computes; `ConfigTextFallsBack` states the unparsable case |
| `ApiService.BodyData` | src/services/apiService.js:50-71 | the body step; `HttpStringBody` and `HttpMethodAndBody` state its cases |
| `ApiService.RequestData` | src/services/apiService.js:73-80 | form data with entries, outside GET, replaces the body; `HttpMethodAndBody` states a GET has none |
| `ApiService.HttpRequest` | src/services/apiService.js:14-90 | the request axios is called with, or none for a falsy URL; `HttpMethodAndBody` states its method |
| `ApiService.HttpResult` | src/services/apiService.js:11-117 | the HTTP outcome; `HttpUrlRequired` and `HttpOutcomeKinds` state its cases |
| `ApiService.GraphQLVariables` | src/services/apiService.js:139-152 | the variables: `{}` when falsy or unparsable, parsed text, or the resolved object; `GraphQLRequestShape` states the `{}` cases |
| `ApiService.GraphQLRequest` | src/services/apiService.js:127-166 | the request, or the first missing-field error; `GraphQLRequired` and `GraphQLRequestShape` state it |
| `ApiService.GraphQLResult` | src/services/apiService.js:125-189 | the GraphQL outcome; `GraphQLRequired` states its failures before any request |
| `ApiService.PrepareConfig` | src/services/apiService.js:20-47 | computes the header or parameter object: parsed text, a given object, or `{}`, then resolved |
| `ApiService.PrepareBody` | src/services/apiService.js:50-71 | computes the body step: none for a GET or a falsy body, a string body resolved then parsed or kept as text, an object body resolved (`HttpMethodAndBody`, `HttpStringBody`) |
| `ApiService.AppendEntries` | src/services/apiService.js:76-78 | the loop builds the form entries |
| `ApiService.ExecuteHttpRequest` | src/services/apiService.js:11-117 | computes the HTTP result: a falsy URL fails first; a 2xx reply completes, another status is returned flagged, no response and setup failures throw (`HttpUrlRequired`, `HttpOutcomeKinds`) |
| `ApiService.ExecuteGraphQLRequest` | src/services/apiService.js:125-189 | computes the GraphQL result: endpoint then query required; a POST of `{query, variables}`; the same outcome split as HTTP with the GraphQL prefix (`GraphQLRequired`, `GraphQLRequestShape`) |
| `ApiService.HttpUrlRequired` | src/services/apiService.js:14-16 | a falsy resolved URL fails with "Request failed: URL is required" for any client |
| `ApiService.HttpOutcomeKinds` | src/services/apiService.js:92-116 | a 2xx reply completes, another status is returned flagged, no response and setup failures throw |
| `ApiService.HttpMethodAndBody` | src/services/apiService.js:51-84 | the method defaults to GET and a GET request carries no body |
| `ApiService.HttpFormReplacesBody` | src/services/apiService.js:74-80 | non-empty form data on a request whose method is not exactly GET replaces any body with the resolved form data's entries, each value as text; for an object these are its keys in order, each with its resolved value |
| `ApiService.HttpStringBody` | src/services/apiService.js:54-63 | a string body is resolved and sent as the JSON it parses to, or as the resolved text |
| `ApiService.ConfigTextFallsBack` | src/services/apiService.js:21-26 | header or parameter text that does not parse becomes `{}` |
| `ApiService.GraphQLRequired` | src/services/apiService.js:128-137 | a falsy endpoint, checked first, or a falsy query fails before any request |
| `ApiService.GraphQLRequestShape` | src/services/apiService.js:140-166 | a POST of JSON `{query, variables}` with the timeout, `variables` being `{}` when absent or unparsable |
| `Charts.ConfigFields` | src/utils/chartTypes.js:2-23 | exactly line, area, bar and pie are offered, each with two non-empty field names |
| `Charts.FormatChartData` | src/utils/formatChartData.js:4-32 | the shared formatter; `LineChartZips`, `BarPieAsWritten` and `UnknownChartEmpty` state its cases |
| `Charts.OrEmpty` | src/utils/formatChartData.js:8-9 | a truthy value as it is, otherwise an empty array |
| `Charts.Zip` | src/utils/formatChartData.js:11 | one point per x element, point i holding the i-th x and the i-th y (undefined past the y array's end); a non-array x throws |
| `Charts.LineChartZips` | src/utils/formatChartData.js:6-12 | the number of points is the x array's length, 0 when the x path finds a falsy value; point i is `{x: xArr[i], y: yArr[i]}` |
| `Charts.BarPieAsWritten` | src/utils/formatChartData.js:14-27 | as written, bar and pie give `[]` unless the data is a non-empty array, and then throw on the undefined `resolvePath` |
| `Charts.NamedValues` | src/utils/formatChartData.js:16-26 | one record per element, its name and value read at the two configured paths |
| `Charts.ResolvedBarPie` | src/utils/formatChartData.js:14-27 | with `resolvePath` read as `get`, bar and pie never throw and give one record per array element |
| `Charts.UnknownChartEmpty` | src/utils/formatChartData.js:29-30 | an unknown chart type gives `[]` |
| `GraphNode.StripUpstream` | src/components/nodes/GraphNode.jsx:24-25 | the key is unchanged or loses one leading `upstream.` |
| `GraphNode.StripAddedPrefix` | src/components/nodes/GraphNode.jsx:24 | `upstream.` + path becomes path, so only the first prefix goes |
| `GraphNode.StripKeepsOtherPaths` | src/components/nodes/GraphNode.jsx:24 | a path without the prefix is used as written |
| `GraphNode.Entry` | src/components/nodes/GraphNode.jsx:35-42 | the record is named after the last dot segment of the configured path and holds the value |
| `GraphNode.FormatGraphData` | src/components/nodes/GraphNode.jsx:19-66 | the component's own formatter; `BarPieTwoEntries`, `LineAreaIsSharedZip` and `UnknownTypeEmpty` state its cases |
| `GraphNode.BarPieTwoEntries` | src/components/nodes/GraphNode.jsx:30-61 | bar and pie give exactly two entries named after the last dot segments of their two fields, valued from upstream; an unset field throws |
| `GraphNode.LineAreaIsSharedZip` | src/components/nodes/GraphNode.jsx:22-28 | line and area are the shared zip over the upstream data with the prefixes stripped; an unset field throws |
| `GraphNode.UnknownTypeEmpty` | src/components/nodes/GraphNode.jsx:63-64 | an unknown chart type gives `[]` |
| `GraphNode.Enabled` | src/components/nodes/GraphNode.jsx:139 | the plot button is enabled; `EnabledPlotSucceeds` and `FillingFieldsEnables` state what that gives |
| `GraphNode.EnabledPlotSucceeds` | src/components/nodes/GraphNode.jsx:19-66 | an enabled plot never throws for bar and pie, and for line and area throws only when the x value is not an array |
| `GraphNode.FillingFieldsEnables` | src/components/nodes/GraphNode.jsx:139-156 | filling both fields of an offered type with non-empty text enables the plot |
| `GraphNode.TextFields` | src/components/nodes/GraphNode.jsx:14 | every config entry read is a text field of the saved config |
| `GraphNode.SavedType` | src/components/nodes/GraphNode.jsx:13 | the saved non-empty type, or `line` |
| `GraphNode.SavedConfig` | src/components/nodes/GraphNode.jsx:14 | no saved config gives `{}` |
| `GraphNode.GraphNodeState.constructor` | src/components/nodes/GraphNode.jsx:9-15 | type and config come from the saved data; the chart starts empty |
| `GraphNode.GraphNodeState.ChangeType` | src/components/nodes/GraphNode.jsx:118-121 | the new type with config and chart cleared, so plotting is disabled |
| `GraphNode.GraphNodeState.EditField` | src/components/nodes/GraphNode.jsx:154-156 | sets the one field and keeps the others |
| `GraphNode.GraphNodeState.Plot` | src/components/nodes/GraphNode.jsx:82-86 | the chart becomes the formatted value the hook gave at the last render, or `{}` when that value is falsy; when formatting throws the chart is kept and the error returned |
| `GraphNode.FlowMemoPlotsUpstream` | src/components/nodes/GraphNode.jsx:10 | with the memo keyed on the flow, a plot formats the current flow's upstream data |
| `GraphNode.StalePlotFormatsEmpty` | src/components/nodes/GraphNode.jsx:10 | as written, a graph node mounted before the upstream answer formats `{}` after the answer "sunny" is recorded |
| `FlowData.FirstIncoming` | src/hooks/useFlowData.ts:23 | the first edge in list order that targets the node, and none before it |
| `FlowData.FirstIncomingIsFirstIncomer` | src/hooks/useFlowData.ts:23 | that edge is the first of the node's incomers, and there is none exactly when it has no incomers |
| `FlowData.ResponseData` | src/hooks/useFlowData.ts:27-29 | data is found only under a present, non-null `response` |
| `FlowData.UseFlowData` | src/hooks/useFlowData.ts:19-33 | the value the memo's callback computes: null without an incoming edge; otherwise a truthy value is exactly the source node's `response.data` |
| `FlowData.OrEmptyObject` | src/components/nodes/GraphNode.jsx:10 | a truthy value is kept, a falsy one becomes `{}` |
| `FlowData.Upstream` | src/components/nodes/GraphNode.jsx:10 | the hook's value, or `{}` for null |
| `FlowData.OnlyFirstEdgeCounts` | src/hooks/useFlowData.ts:23 | edges after the first incoming one change nothing |
| `FlowData.FindAfterUpdate` | src/hooks/useFlowData.ts:26 | after a data update the lookup by id finds the updated node |
| `FlowData.ResponseDataAfter` | src/hooks/useFlowData.ts:27-29 | a node that recorded a response exposes exactly that response's data |
| `FlowData.ReadsRecordedResponse` | src/hooks/useFlowData.ts:23-29 | once the runner records a response on the first upstream node, the callback computes its data, or null when that data is falsy; as written the memo does not call it again (see Findings) |
| `FlowData.Trigger` | src/hooks/useFlowData.ts:34 | the node's `data.triggerUpdate`, undefined when no node carries the id |
| `FlowData.Mount` | src/hooks/useFlowData.ts:18-34 | the first render holds the callback's value for the render's dependencies |
| `FlowData.Render` | src/hooks/useFlowData.ts:18-34 | a later render keeps the held value while the node id and trigger are unchanged, and computes the callback's value otherwise |
| `FlowData.PatchesKeepTrigger` | src/components/FlowRunner.jsx:19-56 | none of the spinner, response and error patches sets `triggerUpdate` |
| `FlowData.RunKeepsTrigger` | src/components/FlowRunner.jsx:15-57 | no write of a whole run sets `triggerUpdate` |
| `FlowData.TriggerAfterWrites` | src/hooks/useFlowData.ts:34 | writes that do not set `triggerUpdate` leave every node's trigger unchanged |
| `FlowData.MemoIgnoresRun` | src/hooks/useFlowData.ts:34 | as written, after a whole run, and whatever the edges become, a later render gives the value held before the run |
| `FlowData.StaleRead` | src/hooks/useFlowData.ts:34 | as written, a graph node that rendered before its upstream node answered keeps null after the answer "sunny" is recorded, although the callback would give "sunny" |
| `FlowData.FlowMemoFresh` | src/hooks/useFlowData.ts:18-34 | keyed on the node and edge lists, the memo always holds the callback's value for the current flow, and stays consistent |
| `FlowData.FlowMemoReadsResponse` | src/hooks/useFlowData.ts:23-29 | keyed on the flow, a render after the upstream node records a response reads that response's data, or null when it is falsy |
| `Text.Trim` | src/utils/runNode.js:39 | the middle of the text between leading and trailing white space |
| `Text.LastSegment` | src/components/nodes/GraphNode.jsx:36 | the last part of a dot path holds no dot |
| `Text.LastSegmentSuffix` | src/components/nodes/GraphNode.jsx:36 | a text without dots is its own last segment; otherwise the segment is the suffix right after the last dot |
| `Text.JoinSplit` | src/utils/templating.js:22 | joining the parts of a split with the same separator gives the text back |
| `Text.SplitJoin` | src/utils/templating.js:22 | splitting a join of separator-free parts gives the parts back |
| `Text.IndexOf` | src/utils/templating.js:44 | the first position where the pattern occurs, and none when it occurs nowhere |
| `Json.SetKey` | src/utils/templating.js:66-70 | after `obj[key] = value` the key reads the value and every other key reads as before |
| `Json.Merge` | src/stores/flowStore.js:171-174 | `{...a, ...b}`; `MergeLookup` and `MergeKeys` state what it reads and which keys it has |
| `Json.Stringify` | src/utils/templating.js:40-42 | `JSON.stringify` of an object or array placeholder value, fields in list order; `Templating.SafeJsonParseRoundTrip` states that a faithful parse reads it back |
| `Json.MergeLookup` | src/stores/flowStore.js:171-174 | after `{...a, ...b}` a key reads from `b` when present there, from `a` otherwise |
| `Json.MergeKeys` | src/stores/flowStore.js:171-174 | the merge keeps the original keys in place, adds only the patch's keys, and keeps keys distinct |

## Left out

- Persistence: `loadPersistedState`, `persistState` and the context's saving effect. Both containers start as if nothing were saved.
- `onNodesChange`, `onEdgesChange` and `onConnect`. They delegate to `@xyflow/react`, which is not part of this model.
- UUIDs: the eight characters of a fresh UUID are the `suffix` parameter.
  - `AddNode` and `DuplicateNode` keep the flow well formed only when the new id is fresh, which a UUID makes overwhelmingly likely but not certain.
- Rendering and the UI around the code:
  - label editing;
  - `formatWeatherData`;
  - the syntax-highlighting regex of `formatJson`.
- The pretty printer `JSON.stringify(json, null, 2)` is the parameter `pretty`.
- `JSON.parse` and the HTTP client are parameters, modelled as functions:
  - the client's reply is one of three kinds: a response, no response, or a failed setup;
  - timeouts, `async`/`await` and the response's `config` and `request` fields are not modelled.
- `FormData` keeps each value as text. File and Blob values are not modelled.
- `lodash/get` handles dot paths and whole keys only: no bracket syntax, and no keys inherited through the prototype chain, either as a whole key or along a path.
- Strings are sequences of characters, not UTF-16 code units.
- Numbers are integers.
- `TopoSort.KahnTopoSort`, `TopoSort.KahnTopoSortChecked` and `FlowRunner.RunAll` require distinct node ids.
  - The source has no such precondition.
  - With repeated ids its tables merge the repeated nodes, and the length check compares against the node count.
  - Both containers keep ids distinct whenever new ids are fresh.
- `FlowRunner.RunAll` has a `callbackPassed` parameter: the component as written passes no callback. It also returns the sort result, which the component does not expose.
- The spinner write that `runNode` itself asks for is not applied.
  - It passes the node object where an id is expected, so it matches no node (src/utils/runNode.js:33).
  - `RunNode.RunNode` reports that the write was requested.
- `results[nodeId] = undefined` is stored as an absent entry. Both read as undefined.
- The exception branch of `useFlowData` is not modelled: nothing in the modelled lookup throws.
- `GraphNode` config values are assumed to be strings.
  - `SavedType` ignores a truthy non-string type.
  - `SavedConfig` ignores a non-object config.
- `GraphNode`'s effects that write the type, config and label back into `data` are not modelled.
- The rendering crash for an unknown graph type, when `currentChart` is undefined, is not modelled.
- `FlowContext.Context.DuplicateNode` reads the node list of the latest render. The closure's list may be stale, which is not modelled.
- Json.Stringify: lists an object's fields in insertion order. JavaScript lists integer-like keys ("0", "1", ...) first in ascending order, then the rest in insertion order; the same holds for the key order `Json.Merge` and `Templating.ResolvedObjectEntries` produce.
- PathResolver.Property: reads own properties only. Inherited ones (`constructor`, `toString`, `toFixed`, ...) read as undefined, so a path through them resolves to nothing here where JavaScript finds a function.
- FlowStore.Store.ImportFlow and FlowContext.Context.ImportFlow: `FlowInput` holds a list or nothing for each field, so a truthy non-array `nodes` or `edges` (which the source stores as it is) cannot be given.
- Graph.Node: keeps `id`, `type`, `position`, `data` and `selected`. The runtime fields React Flow adds (`measured`, `dragging`, `width`, ...) are not kept, so a placeholder such as `{{id.measured.width}}` resolves to nothing here.
- Templating.ResolveWoven: holds only when no gap contains `{{`, every placeholder is the plain `{{node.path}}` form and no substitution contains `{{` or `$`. Without these conditions a later `replace` can hit an earlier occurrence of the same placeholder: for `"{{{{a.x}}/{{a.x}}"` the second replacement lands inside the first match, so the general statement is false of the source itself.
- FlowData.Render: compares the dependencies by value. React compares them with `Object.is`, which for the trigger (a node's data field) differs only when an equal but new object is stored, and nothing stores one.

## Findings

| source | as written | input that shows it | evidently intended | confidence | as-written member | corrected member |
|---|---|---|---|---|---|---|
| src/utils/kahnTopoSort.js:12-15 | an edge whose target is not a node adds that id to the in-degree table; it can be queued, and it counts in the length check | nodes `A`, `B`; edges `A→X`, `B→B`: returns `[A, X]` although `B` is on a cycle. Node `A` with edge `A→X`: reports a cycle | edges into non-nodes are ignored; the sort returns exactly the topological orders of the nodes | not executed | `TopoSort.DanglingTargetHidesCycle` | `TopoSort.KahnTopoSortChecked` |
| src/components/FlowRunner.jsx:39 | `runNode(node, results, incomers)` omits the `updateNodeData` argument; the HTTP branch calls it and throws | a flow of a start node followed by an HTTP node: the HTTP node fails with "updateNodeData is not a function", whatever the server would answer | the callback is passed; every runnable node settles when the server accepts its requests | not executed | `FlowRunner.HttpNodeStopsRun` | `FlowRunner.CallbackRunCompletes` |
| src/utils/formatChartData.js:17-18,24-25 | the bar and pie branches call `resolvePath`, which is neither defined nor imported; no file imports this module (`GraphNode` formats with its own inner function), so the crash waits for the first caller | a bar chart over `[{}]` throws "resolvePath is not defined" | `resolvePath` is the imported `get`: one record per element | not executed | `Charts.BarPieAsWritten` | `Charts.ResolvedBarPie` |
| src/hooks/useFlowData.ts:34 | the memo's dependencies are the stable `getNodes` and `getEdges`, the node id and the node's `data.triggerUpdate`, which nothing in the editor sets; a render after the flow changes returns the value of an earlier render | a graph node after an upstream node with no response: after the runner records the response "sunny" the hook still returns null, so plotting uses `{}` | the value follows the flow: recomputed whenever the node or edge lists change | not executed | `FlowData.StaleRead` | `FlowData.FlowMemoFresh` |
