/** The chart types, and the shared chart-data helper that shapes a value
    into the records a chart draws. */
module Charts {
  import opened Wrappers
  import opened Text
  import opened Json
  import opened PathResolver

  /** The config fields each chart type asks for; other types are not
      offered. */
  function ConfigFields(chartType: string): (r: Option<seq<string>>)
    ensures r.Some? <==> chartType in {"line", "area", "bar", "pie"}
    ensures r.Some? ==> |r.value| == 2 && "" !in r.value
  {
    if chartType == "line" || chartType == "area" then Some(["xKey", "yKey"])
    else if chartType == "bar" then Some(["categoryKey", "valueKey"])
    else if chartType == "pie" then Some(["labelKey", "valueKey"])
    else None
  }

  /** `config.<field>` as a path: a missing field is `undefined`, which
      `lodash/get` reads as the key "undefined". */
  function ConfigPath(config: map<string, string>, field: string): string
  {
    if field in config then config[field] else "undefined"
  }

  /** `get(data, path) || []`. */
  function OrEmpty(v: Option<Json>): (r: Json)
    ensures Truthy(v) ==> Some(r) == v
    ensures !Truthy(v) ==> r == JArr([])
  {
    if Truthy(v) then v.value else JArr([])
  }

  /** `xArr.map((x, i) => ({ x, y: yArr[i] }))`: one point per element of
      the x array; a value that is not an array has no `map`. */
  function Zip(xArr: Json, yArr: Json): (r: Result<seq<Json>, string>)
    requires !yArr.JNull?
    ensures r.Ok? <==> xArr.JArr?
    ensures r.Ok? ==> |r.value| == |xArr.items|
    ensures r.Ok? ==> forall i :: 0 <= i < |xArr.items| ==>
      && r.value[i].JObj?
      && Lookup(r.value[i].fields, "x") == Some(xArr.items[i])
      && Lookup(r.value[i].fields, "y") == Property(yArr, NatToString(i))
  {
    match xArr
    case JArr(xs) =>
      Ok(seq(|xs|, i requires 0 <= i < |xs| => JObj([Field("x", xs[i])] + Present("y", Property(yArr, NatToString(i))))))
    case _ => Err("xArr.map is not a function")
  }

  /** `formatChartData(chartType, data, config)`. The bar and pie branches
      call `resolvePath`, which is neither defined nor imported, so they
      throw as soon as there is an element to map. */
  function FormatChartData(chartType: string, data: Option<Json>, config: map<string, string>): Result<seq<Json>, string>
  {
    if chartType == "line" || chartType == "area" then
      var xArr := OrEmpty(Get(data, ConfigPath(config, "xKey")));
      var yArr := OrEmpty(Get(data, ConfigPath(config, "yKey")));
      Zip(xArr, yArr)
    else if chartType == "bar" || chartType == "pie" then
      if data.Some? && data.value.JArr? && data.value.items != [] then Err("resolvePath is not defined")
      else Ok([])
    else Ok([])
  }

  /** Line and area charts zip the two arrays found at the configured
      paths: as many points as the x array has elements (none when the x
      path finds nothing falsy), and point i carries the i-th x and the
      i-th y, undefined past the end of the y array. */
  lemma LineChartZips(chartType: string, data: Option<Json>, config: map<string, string>)
    requires chartType == "line" || chartType == "area"
    ensures
      var x := Get(data, ConfigPath(config, "xKey"));
      var y := OrEmpty(Get(data, ConfigPath(config, "yKey")));
      var r := FormatChartData(chartType, data, config);
      && (!Truthy(x) ==> r == Ok([]))
      && (Truthy(x) && x.value.JArr? ==>
            && r.Ok? && |r.value| == |x.value.items|
            && forall i :: 0 <= i < |x.value.items| ==>
                 Lookup(r.value[i].fields, "x") == Some(x.value.items[i])
                 && Lookup(r.value[i].fields, "y") == Property(y, NatToString(i)))
      && (Truthy(x) && !x.value.JArr? ==> r.Err?)
  {
    var x := Get(data, ConfigPath(config, "xKey"));
    var y := OrEmpty(Get(data, ConfigPath(config, "yKey")));
    if !Truthy(x) {
      assert Zip(JArr([]), y) == Ok([]);
    }
  }

  /** Bar and pie charts give no records unless the data is a non-empty
      array, and then they throw on the undefined `resolvePath`; every
      other chart type gives no records. */
  lemma BarPieAsWritten(chartType: string, data: Option<Json>, config: map<string, string>)
    requires chartType == "bar" || chartType == "pie"
    ensures FormatChartData(chartType, data, config).Err? <==> data.Some? && data.value.JArr? && data.value.items != []
    ensures FormatChartData(chartType, data, config).Ok? ==> FormatChartData(chartType, data, config).value == []
  {
  }

  /** One bar or slice per element when `resolvePath` is read as the
      `lodash/get` the module imports: `name` and `value` come from the
      element at the two configured paths. */
  function NamedValues(data: Option<Json>, nameField: string, valueField: string, config: map<string, string>): (r: seq<Json>)
    ensures data.Some? && data.value.JArr? ==> |r| == |data.value.items|
    ensures !(data.Some? && data.value.JArr?) ==> r == []
    ensures data.Some? && data.value.JArr? ==> forall i :: 0 <= i < |r| ==>
      && r[i].JObj?
      && Lookup(r[i].fields, "name") == Get(Some(data.value.items[i]), ConfigPath(config, nameField))
      && Lookup(r[i].fields, "value") == Get(Some(data.value.items[i]), ConfigPath(config, valueField))
  {
    if data.Some? && data.value.JArr? then
      var items := data.value.items;
      seq(|items|, i requires 0 <= i < |items| =>
        var name := Get(Some(items[i]), ConfigPath(config, nameField));
        var value := Get(Some(items[i]), ConfigPath(config, valueField));
        PresentPair("name", name, "value", value);
        JObj(Present("name", name) + Present("value", value)))
    else []
  }

  /** `formatChartData` with `resolvePath` read as `lodash/get`. */
  function FormatChartDataResolved(chartType: string, data: Option<Json>, config: map<string, string>): Result<seq<Json>, string>
  {
    if chartType == "line" || chartType == "area" then FormatChartData(chartType, data, config)
    else if chartType == "bar" then Ok(NamedValues(data, "categoryKey", "valueKey", config))
    else if chartType == "pie" then Ok(NamedValues(data, "labelKey", "valueKey", config))
    else Ok([])
  }

  /** With `resolvePath` read as `lodash/get`, bar and pie charts never
      throw and give one record per element of an array, which is what the
      branches' "data is an array of objects" comment expects; as written
      they throw on every such array. */
  lemma ResolvedBarPie(chartType: string, data: Option<Json>, config: map<string, string>)
    requires chartType == "bar" || chartType == "pie"
    ensures FormatChartDataResolved(chartType, data, config).Ok?
    ensures data.Some? && data.value.JArr? ==>
      |FormatChartDataResolved(chartType, data, config).value| == |data.value.items|
    ensures data.Some? && data.value.JArr? && data.value.items != [] ==> FormatChartData(chartType, data, config).Err?
  {
  }

  /** An unknown chart type gives no records. */
  lemma UnknownChartEmpty(chartType: string, data: Option<Json>, config: map<string, string>)
    requires ConfigFields(chartType).None?
    ensures FormatChartData(chartType, data, config) == Ok([])
    ensures FormatChartDataResolved(chartType, data, config) == Ok([])
  {
  }
}
