/** The graph node: its chart type and config, the chart data it last
    plotted, and the formatter it plots upstream data with. */
module GraphNode {
  import opened Wrappers
  import opened Text
  import opened Json
  import opened PathResolver
  import opened Graph
  import opened Charts
  import opened FlowData

  const UpstreamPrefix: string := "upstream."

  /** `key.replace(/^upstream\./, "")`: one leading `upstream.` goes. */
  function StripUpstream(key: string): (r: string)
    ensures |r| <= |key|
    ensures r == key || UpstreamPrefix + r == key
  {
    if StartsWith(key, UpstreamPrefix) then key[|UpstreamPrefix|..] else key
  }

  /** A path written against `upstream` is looked up from the upstream
      data itself, and only the first prefix goes. */
  lemma StripAddedPrefix(path: string)
    ensures StripUpstream(UpstreamPrefix + path) == path
  {
    assert (UpstreamPrefix + path)[..|UpstreamPrefix|] == UpstreamPrefix;
  }

  /** A path that does not start with `upstream.` is used as written. */
  lemma StripKeepsOtherPaths(path: string)
    requires !StartsWith(path, UpstreamPrefix)
    ensures StripUpstream(path) == path
  {
  }

  /** Reading `.replace` of a config field that is not set. */
  const MissingKeyError: string := "Cannot read properties of undefined (reading 'replace')"

  /** `get(data, config[field].replace(/^upstream\./, ""))`. */
  function Pick(upstream: Json, config: map<string, string>, field: string): Option<Json>
    requires field in config
  {
    Get(Some(upstream), StripUpstream(config[field]))
  }

  /** `{ name: config[field].split(".").pop(), value }`. */
  function Entry(config: map<string, string>, field: string, value: Option<Json>): (r: Json)
    requires field in config
    ensures r.JObj?
    ensures Lookup(r.fields, "name") == Some(JStr(LastSegment(config[field])))
    ensures Lookup(r.fields, "value") == value
  {
    PresentPair("name", Some(JStr(LastSegment(config[field]))), "value", value);
    JObj(Present("name", Some(JStr(LastSegment(config[field])))) + Present("value", value))
  }

  /** The two entries of a bar or pie chart, one per config field. */
  function TwoEntries(upstream: Json, config: map<string, string>, first: string, second: string): (r: Result<seq<Json>, string>)
  {
    if first !in config || second !in config then Err(MissingKeyError)
    else Ok([Entry(config, first, Pick(upstream, config, first)), Entry(config, second, Pick(upstream, config, second))])
  }

  /** The component's own `formatChartData(chartType, data, config)`. */
  function FormatGraphData(chartType: string, upstream: Json, config: map<string, string>): Result<seq<Json>, string>
  {
    if chartType == "line" || chartType == "area" then
      if "xKey" !in config || "yKey" !in config then Err(MissingKeyError)
      else Zip(OrEmpty(Pick(upstream, config, "xKey")), OrEmpty(Pick(upstream, config, "yKey")))
    else if chartType == "bar" then TwoEntries(upstream, config, "categoryKey", "valueKey")
    else if chartType == "pie" then TwoEntries(upstream, config, "labelKey", "valueKey")
    else Ok([])
  }

  /** Bar and pie charts have exactly two entries, named after the last
      dot segment of each configured path and valued with what the path
      finds upstream; a field that is not set throws. */
  lemma BarPieTwoEntries(chartType: string, upstream: Json, config: map<string, string>)
    requires chartType == "bar" || chartType == "pie"
    ensures
      var fields := ConfigFields(chartType).value;
      var r := FormatGraphData(chartType, upstream, config);
      && (r.Err? <==> fields[0] !in config || fields[1] !in config)
      && (r.Ok? ==>
            && |r.value| == 2
            && forall k :: 0 <= k < 2 ==>
                 && Lookup(r.value[k].fields, "name") == Some(JStr(LastSegment(config[fields[k]])))
                 && Lookup(r.value[k].fields, "value") == Get(Some(upstream), StripUpstream(config[fields[k]])))
  {
  }

  /** Line and area charts are the shared helper's zip applied to the
      upstream data with the `upstream.` prefixes dropped; only a field
      that is not set makes them differ, by throwing. */
  lemma LineAreaIsSharedZip(chartType: string, upstream: Json, config: map<string, string>)
    requires chartType == "line" || chartType == "area"
    ensures "xKey" !in config || "yKey" !in config ==> FormatGraphData(chartType, upstream, config) == Err(MissingKeyError)
    ensures "xKey" in config && "yKey" in config ==>
      FormatGraphData(chartType, upstream, config)
        == FormatChartData(chartType, Some(upstream),
             map["xKey" := StripUpstream(config["xKey"]), "yKey" := StripUpstream(config["yKey"])])
  {
  }

  /** An unknown chart type plots nothing. */
  lemma UnknownTypeEmpty(chartType: string, upstream: Json, config: map<string, string>)
    requires ConfigFields(chartType).None?
    ensures FormatGraphData(chartType, upstream, config) == Ok([])
  {
  }

  /** `currentChart.configFields.some(f => !graphConfig[f])` is false: the
      type is one of the offered ones and each of its fields is set to
      non-empty text. */
  predicate Enabled(chartType: string, config: map<string, string>)
  {
    && ConfigFields(chartType).Some?
    && forall f :: f in ConfigFields(chartType).value ==> f in config && config[f] != ""
  }

  /** An enabled plot never meets an unset field, so it throws only when
      a line or area chart's x path finds a value that is not an array. */
  lemma EnabledPlotSucceeds(chartType: string, upstream: Json, config: map<string, string>)
    requires Enabled(chartType, config)
    ensures chartType == "bar" || chartType == "pie" ==>
      FormatGraphData(chartType, upstream, config).Ok? && |FormatGraphData(chartType, upstream, config).value| == 2
    ensures chartType == "line" || chartType == "area" ==>
      (FormatGraphData(chartType, upstream, config).Err? <==>
         var x := OrEmpty(Pick(upstream, config, "xKey")); !x.JArr?)
  {
    var fields := ConfigFields(chartType).value;
    assert fields[0] in fields && fields[1] in fields;
  }

  /** `data.graphConfig || {}` read as text fields; the first field with a
      key wins, as it does for a JavaScript object. */
  function TextFields(fields: seq<Field>): (r: map<string, string>)
    ensures forall k :: k in r ==> Lookup(fields, k).Some? && Lookup(fields, k).value == JStr(r[k])
  {
    if fields == [] then map[]
    else
      var rest := TextFields(fields[1..]);
      match fields[0].value
      case JStr(s) => rest[fields[0].key := s]
      case _ => rest - {fields[0].key}
  }

  /** The saved chart type, `data.graphType || "line"`. */
  function SavedType(data: seq<Field>): (r: string)
    ensures r != ""
    ensures (Lookup(data, "graphType").Some? && Lookup(data, "graphType").value.JStr?
             && Lookup(data, "graphType").value.s != "") ==> r == Lookup(data, "graphType").value.s
  {
    match Lookup(data, "graphType")
    case Some(JStr(s)) => if s != "" then s else "line"
    case _ => "line"
  }

  /** The saved config, `data.graphConfig || {}`. */
  function SavedConfig(data: seq<Field>): (r: map<string, string>)
    ensures Lookup(data, "graphConfig").None? ==> r == map[]
  {
    match Lookup(data, "graphConfig")
    case Some(JObj(fields)) => TextFields(fields)
    case _ => map[]
  }

  /** The state a rendered graph node keeps between renders. */
  class GraphNodeState {
    const id: string
    var graphType: string
    var graphConfig: map<string, string>
    var chartData: seq<Json>

    /** The first render of node `id` with the node's saved data. */
    constructor (id: string, data: seq<Field>)
      ensures this.id == id
      ensures graphType == SavedType(data) && graphConfig == SavedConfig(data) && chartData == []
    {
      this.id := id;
      graphType := SavedType(data);
      graphConfig := SavedConfig(data);
      chartData := [];
    }

    /** Whether the "Plot Graph" button is enabled. */
    predicate PlotEnabled()
      reads this
    {
      Enabled(graphType, graphConfig)
    }

    /** Picking another chart type clears the config and the chart, so
        nothing can be plotted until the new fields are filled in. */
    method ChangeType(chartType: string)
      modifies this
      ensures graphType == chartType && graphConfig == map[] && chartData == []
      ensures !PlotEnabled()
    {
      graphType := chartType;
      graphConfig := map[];
      chartData := [];
      if ConfigFields(chartType).Some? {
        assert ConfigFields(chartType).value[0] in ConfigFields(chartType).value;
      }
    }

    /** Typing into a config field sets that field and keeps the others. */
    method EditField(field: string, value: string)
      modifies this
      ensures graphConfig == old(graphConfig)[field := value]
      ensures graphType == old(graphType) && chartData == old(chartData)
    {
      graphConfig := graphConfig[field := value];
    }

    /** `handlePlot`: formats `hook || {}`, where `hook` is what
        `useFlowData(id)` gave at the last render, and shows it; when the
        formatter throws, the chart keeps what it had and the error is
        returned. */
    method Plot(hook: Option<Json>) returns (error: Option<string>)
      modifies this
      ensures
        var r := FormatGraphData(graphType, OrEmptyObject(hook), graphConfig);
        && (r.Ok? ==> error == None && chartData == r.value)
        && (r.Err? ==> error == Some(r.error) && chartData == old(chartData))
      ensures graphType == old(graphType) && graphConfig == old(graphConfig)
    {
      var upstream := OrEmptyObject(hook);
      var formatted := FormatGraphData(graphType, upstream, graphConfig);
      if formatted.Err? {
        return Some(formatted.error);
      }
      chartData := formatted.value;
      error := None;
    }
  }

  /** With the memo keyed on the flow, the value a plot formats is the
      current flow's upstream data. */
  lemma FlowMemoPlotsUpstream(m: FlowMemo, nodes: seq<Node>, edges: seq<Edge>, id: string)
    requires Consistent(m)
    ensures OrEmptyObject(RenderFlow(m, nodes, edges, id).value) == Upstream(nodes, edges, id)
  {
    FlowMemoFresh(m, nodes, edges, id);
  }

  /** As written, a graph node mounted before its upstream node answered
      still formats `{}` once the answer "sunny" is recorded, although the
      flow's upstream data is "sunny". */
  lemma StalePlotFormatsEmpty()
    ensures OrEmptyObject(Render(Mount(StaleNodes(), StaleEdges(), "graph"), SunnyNodes(), StaleEdges(), "graph").value) == JObj([])
    ensures Upstream(SunnyNodes(), StaleEdges(), "graph") == JStr("sunny")
  {
    StaleRead();
  }

  /** Filling in both fields of an offered chart type with non-empty text
      enables the plot. */
  lemma FillingFieldsEnables(chartType: string, config: map<string, string>, a: string, b: string)
    requires ConfigFields(chartType).Some? && a != "" && b != ""
    ensures
      var fields := ConfigFields(chartType).value;
      Enabled(chartType, config[fields[0] := a][fields[1] := b])
  {
  }
}
