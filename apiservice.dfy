/** `executeHttpRequest` and `executeGraphQLRequest`: how a node's
    settings become a request, and how the client's outcome is classified
    into a returned result or a thrown error. The HTTP client is the
    parameter `send`; `JSON.parse` is the parameter `parse`. */
module ApiService {
  import opened Wrappers
  import opened Text
  import opened Json
  import opened Graph
  import opened Templating
  import opened Network

  /** A form field as `FormData.append` stores it: the value as text. */
  datatype FormEntry = FormEntry(name: string, value: string)

  /** The `data` of a request: none (null), a JSON value, or form data. */
  datatype Body = NoBody | JsonBody(value: Json) | Form(entries: seq<FormEntry>)

  /** The configuration handed to the client. */
  datatype ApiRequest = ApiRequest(verb: Json, url: Json, headers: Json, params: Option<Json>,
                                   body: Body, timeout: nat)

  /** What the two functions settle with: a result object for a 2xx
      response, a result object flagged `error` for any other response,
      or a thrown error. */
  datatype ApiResult =
    | Completed(status: int, statusText: string, data: Json, headers: seq<Field>)
    | FailedResponse(status: int, statusText: string, data: Json, headers: seq<Field>)
    | Failed(message: string)

  const TimeoutMs: nat := 30000
  const NoResponseMessage: string := "No response received from server"
  const HttpPrefix: string := "Request failed: "
  const GraphQLPrefix: string := "GraphQL request failed: "

  /** The `catch` of both functions: a response, whatever its status, is
      returned; a request without response and a failed setup are thrown,
      the latter with the function's prefix. */
  function Classify(reply: Reply, prefix: string): (r: ApiResult)
    ensures reply.Answered? <==> !r.Failed?
    ensures reply.Answered? ==> r.status == reply.status && r.data == reply.data
    ensures r.Completed? <==> reply.Answered? && Accepted(reply.status)
    ensures reply.NoResponse? ==> r == Failed(NoResponseMessage)
    ensures reply.SetupFailed? ==> r == Failed(prefix + reply.message)
  {
    match reply
    case Answered(status, statusText, data, headers) =>
      if Accepted(status) then Completed(status, statusText, data, headers)
      else FailedResponse(status, statusText, data, headers)
    case NoResponse(_) => Failed(NoResponseMessage)
    case SetupFailed(m) => Failed(prefix + m)
  }

  /** A truthy value, or the default. */
  function OrDefault(v: Option<Json>, default: Json): Json
  {
    if Truthy(v) then v.value else default
  }

  /** Headers and query parameters: a string is parsed with `{}` as the
      default, an object or array is taken as it is, anything else gives
      `{}`; the result is then template-resolved. */
  function ConfigObject(v: Option<Json>, nodes: seq<Node>, parse: string -> Option<Json>): Json
  {
    var base := if Truthy(v) && v.value.JStr? then SafeJsonParse(v, JObj([]), parse)
                else if Truthy(v) && IsObject(v.value) then v.value
                else JObj([]);
    ResolvedObject(Some(base), nodes).value
  }

  function FormEntries(entries: seq<Field>): (r: seq<FormEntry>)
    ensures |r| == |entries|
    ensures forall i :: 0 <= i < |entries| ==> r[i] == FormEntry(entries[i].key, ScalarString(entries[i].value))
  {
    seq(|entries|, i requires 0 <= i < |entries| => FormEntry(entries[i].key, ScalarString(entries[i].value)))
  }

  /** The body before form data: only a truthy body of a request whose
      method is not exactly 'GET'; a string is resolved, then parsed, and
      kept as text when it does not parse; an object is resolved. */
  function BodyData(d: seq<Field>, nodes: seq<Node>, parse: string -> Option<Json>): Body
  {
    var body := Lookup(d, "body");
    if Truthy(body) && Lookup(d, "method") != Some(JStr("GET")) then
      if body.value.JStr? then
        var text := ResolveString(body.value.s, nodes);
        match parse(text)
        case Some(v) => JsonBody(v)
        case None => JsonBody(JStr(text))
      else if IsObject(body.value) then JsonBody(ResolvedObject(body, nodes).value)
      else NoBody
    else NoBody
  }

  /** Non-empty form data replaces the body, again only when the method
      is not exactly 'GET'. */
  function RequestData(d: seq<Field>, nodes: seq<Node>, parse: string -> Option<Json>): Body
  {
    var formData := Lookup(d, "formData");
    if Truthy(formData) && |OwnEntries(formData)| > 0 && Lookup(d, "method") != Some(JStr("GET")) then
      Form(FormEntries(OwnEntries(ResolvedObject(formData, nodes))))
    else BodyData(d, nodes, parse)
  }

  /** The request `executeHttpRequest` sends, or None when the resolved
      URL is falsy. */
  function HttpRequest(d: seq<Field>, nodes: seq<Node>, parse: string -> Option<Json>): Option<ApiRequest>
  {
    var url := ResolvedTemplate(Lookup(d, "url"), nodes);
    if !Truthy(url) then None
    else Some(ApiRequest(OrDefault(Lookup(d, "method"), JStr("GET")), url.value,
                         ConfigObject(Lookup(d, "headers"), nodes, parse),
                         Some(ConfigObject(Lookup(d, "queryParams"), nodes, parse)),
                         RequestData(d, nodes, parse), TimeoutMs))
  }

  function HttpResult(d: seq<Field>, nodes: seq<Node>, parse: string -> Option<Json>, send: ApiRequest -> Reply): ApiResult
  {
    match HttpRequest(d, nodes, parse)
    case None => Failed(HttpPrefix + "URL is required")
    case Some(req) => Classify(send(req), HttpPrefix)
  }

  /** The parsed-or-given object of a header or parameter setting. */
  method PrepareConfig(v: Option<Json>, nodes: seq<Node>, parse: string -> Option<Json>) returns (config: Json)
    ensures config == ConfigObject(v, nodes, parse)
  {
    config := JObj([]);
    if Truthy(v) && v.value.JStr? {
      config := SafeJsonParse(v, JObj([]), parse);
    } else if Truthy(v) && IsObject(v.value) {
      config := v.value;
    }
    var resolved := ResolveTemplateObject(Some(config), nodes);
    config := resolved.value;
  }

  /** The body step: resolve and parse a string body, resolve an object. */
  method PrepareBody(d: seq<Field>, nodes: seq<Node>, parse: string -> Option<Json>) returns (data: Body)
    ensures data == BodyData(d, nodes, parse)
  {
    data := NoBody;
    var body := Lookup(d, "body");
    if Truthy(body) && Lookup(d, "method") != Some(JStr("GET")) {
      if body.value.JStr? {
        var resolvedBody := ResolveTemplateVariables(body, nodes);
        var text := resolvedBody.value.s;
        var parsed := parse(text);
        if parsed.Some? {
          data := JsonBody(parsed.value);
        } else {
          data := JsonBody(JStr(text));
        }
      } else if IsObject(body.value) {
        var resolvedObject := ResolveTemplateObject(body, nodes);
        data := JsonBody(resolvedObject.value);
      }
    }
  }

  /** The `forEach` that appends each resolved entry to the form. */
  method AppendEntries(entries: seq<Field>) returns (form: seq<FormEntry>)
    ensures form == FormEntries(entries)
  {
    form := [];
    for k := 0 to |entries|
      invariant form == FormEntries(entries[..k])
    {
      form := form + [FormEntry(entries[k].key, ScalarString(entries[k].value))];
      assert entries[..k + 1] == entries[..k] + [entries[k]];
    }
    assert entries[..|entries|] == entries;
  }

  method ExecuteHttpRequest(d: seq<Field>, nodes: seq<Node>, parse: string -> Option<Json>, send: ApiRequest -> Reply)
    returns (r: ApiResult)
    ensures r == HttpResult(d, nodes, parse, send)
  {
    var url := ResolveTemplateVariables(Lookup(d, "url"), nodes);
    if !Truthy(url) {
      return Failed(HttpPrefix + "URL is required");
    }
    var headers := PrepareConfig(Lookup(d, "headers"), nodes, parse);
    var params := PrepareConfig(Lookup(d, "queryParams"), nodes, parse);
    var data := PrepareBody(d, nodes, parse);
    var verb := Lookup(d, "method");
    var formData := Lookup(d, "formData");
    if Truthy(formData) && |OwnEntries(formData)| > 0 && verb != Some(JStr("GET")) {
      var resolvedForm := ResolveTemplateObject(formData, nodes);
      var form := AppendEntries(OwnEntries(resolvedForm));
      data := Form(form);
    }
    assert data == RequestData(d, nodes, parse);
    var reply := send(ApiRequest(OrDefault(verb, JStr("GET")), url.value, headers, Some(params), data, TimeoutMs));
    r := Classify(reply, HttpPrefix);
  }

  // ---------------------------------------------------------------------
  // GraphQL

  /** Variables: a string is resolved and parsed, keeping `{}` when the
      parse fails; an object is resolved; anything else gives `{}`. */
  function GraphQLVariables(v: Option<Json>, nodes: seq<Node>, parse: string -> Option<Json>): Json
  {
    if !Truthy(v) then JObj([])
    else if v.value.JStr? then
      match parse(ResolveString(v.value.s, nodes))
      case Some(x) => x
      case None => JObj([])
    else if IsObject(v.value) then ResolvedObject(v, nodes).value
    else JObj([])
  }

  /** The request `executeGraphQLRequest` sends, or the message of the
      error thrown for a falsy endpoint or query. */
  function GraphQLRequest(d: seq<Field>, nodes: seq<Node>, parse: string -> Option<Json>): Result<ApiRequest, string>
  {
    var endpoint := ResolvedTemplate(Lookup(d, "endpoint"), nodes);
    if !Truthy(endpoint) then Err("GraphQL endpoint is required")
    else
      var query := ResolvedTemplate(Lookup(d, "query"), nodes);
      if !Truthy(query) then Err("GraphQL query is required")
      else
        var variables := GraphQLVariables(Lookup(d, "variables"), nodes, parse);
        Ok(ApiRequest(JStr("POST"), endpoint.value, JObj([Field("Content-Type", JStr("application/json"))]), None,
                      JsonBody(JObj([Field("query", query.value), Field("variables", variables)])), TimeoutMs))
  }

  function GraphQLResult(d: seq<Field>, nodes: seq<Node>, parse: string -> Option<Json>, send: ApiRequest -> Reply): ApiResult
  {
    match GraphQLRequest(d, nodes, parse)
    case Err(m) => Failed(GraphQLPrefix + m)
    case Ok(req) => Classify(send(req), GraphQLPrefix)
  }

  method ExecuteGraphQLRequest(d: seq<Field>, nodes: seq<Node>, parse: string -> Option<Json>, send: ApiRequest -> Reply)
    returns (r: ApiResult)
    ensures r == GraphQLResult(d, nodes, parse, send)
  {
    var endpoint := ResolveTemplateVariables(Lookup(d, "endpoint"), nodes);
    if !Truthy(endpoint) {
      return Failed(GraphQLPrefix + "GraphQL endpoint is required");
    }
    var query := ResolveTemplateVariables(Lookup(d, "query"), nodes);
    if !Truthy(query) {
      return Failed(GraphQLPrefix + "GraphQL query is required");
    }
    var variables := JObj([]);
    var v := Lookup(d, "variables");
    if Truthy(v) {
      if v.value.JStr? {
        var resolvedVariables := ResolveTemplateVariables(v, nodes);
        var parsed := parse(resolvedVariables.value.s);
        if parsed.Some? {
          variables := parsed.value;
        }
      } else if IsObject(v.value) {
        var resolvedObject := ResolveTemplateObject(v, nodes);
        variables := resolvedObject.value;
      }
    }
    var reply := send(ApiRequest(JStr("POST"), endpoint.value, JObj([Field("Content-Type", JStr("application/json"))]), None,
                                 JsonBody(JObj([Field("query", query.value), Field("variables", variables)])), TimeoutMs));
    r := Classify(reply, GraphQLPrefix);
  }

  // ---------------------------------------------------------------------
  // Properties

  /** A falsy resolved URL fails before any request, with the inner
      message wrapped by the outer handler. */
  lemma HttpUrlRequired(d: seq<Field>, nodes: seq<Node>, parse: string -> Option<Json>)
    requires !Truthy(ResolvedTemplate(Lookup(d, "url"), nodes))
    ensures forall send :: HttpResult(d, nodes, parse, send) == Failed(HttpPrefix + "URL is required")
  {
  }

  /** Once a request is sent, any response is returned (flagged when its
      status is not 2xx) and only a missing response or a failed setup is
      thrown. */
  lemma HttpOutcomeKinds(d: seq<Field>, nodes: seq<Node>, parse: string -> Option<Json>, send: ApiRequest -> Reply)
    requires HttpRequest(d, nodes, parse).Some?
    ensures var reply := send(HttpRequest(d, nodes, parse).value);
      var r := HttpResult(d, nodes, parse, send);
      && (r.Completed? <==> reply.Answered? && Accepted(reply.status))
      && (r.FailedResponse? <==> reply.Answered? && !Accepted(reply.status))
      && (reply.NoResponse? ==> r == Failed(NoResponseMessage))
      && (reply.SetupFailed? ==> r == Failed(HttpPrefix + reply.message))
  {
  }

  /** The method defaults to 'GET', and a request whose method is exactly
      'GET' carries no body and no form data. */
  lemma HttpMethodAndBody(d: seq<Field>, nodes: seq<Node>, parse: string -> Option<Json>)
    requires HttpRequest(d, nodes, parse).Some?
    ensures !Truthy(Lookup(d, "method")) ==> HttpRequest(d, nodes, parse).value.verb == JStr("GET")
    ensures Lookup(d, "method") == Some(JStr("GET")) ==>
      HttpRequest(d, nodes, parse).value.verb == JStr("GET") && HttpRequest(d, nodes, parse).value.body == NoBody
  {
  }

  /** Non-empty form data on a request whose method is not exactly 'GET'
      replaces any body: the request carries the resolved form data's
      entries, each value as text. For an object, the entries are its
      keys in order, each holding its resolved value. */
  lemma HttpFormReplacesBody(d: seq<Field>, nodes: seq<Node>, parse: string -> Option<Json>)
    requires HttpRequest(d, nodes, parse).Some?
    requires Truthy(Lookup(d, "formData")) && |OwnEntries(Lookup(d, "formData"))| > 0
    requires Lookup(d, "method") != Some(JStr("GET"))
    ensures HttpRequest(d, nodes, parse).value.body
      == Form(FormEntries(OwnEntries(ResolvedObject(Lookup(d, "formData"), nodes))))
    ensures var form := Lookup(d, "formData").value;
      form.JObj? && DistinctKeys(form.fields) ==>
        var entries := HttpRequest(d, nodes, parse).value.body.entries;
        && |entries| == |form.fields|
        && forall i :: 0 <= i < |entries| ==>
             entries[i] == FormEntry(form.fields[i].key, ScalarString(ResolveValue(form.fields[i].value, nodes)))
  {
    var f := Lookup(d, "formData");
    if f.value.JObj? && DistinctKeys(f.value.fields) {
      var fields := f.value.fields;
      ResolvedObjectEntries(f, nodes);
      var resolved := ResolvedObject(f, nodes).value.fields;
      SameKeysDistinct(fields, resolved);
      var entries := HttpRequest(d, nodes, parse).value.body.entries;
      assert entries == FormEntries(resolved);
      forall i | 0 <= i < |entries|
        ensures entries[i] == FormEntry(fields[i].key, ScalarString(ResolveValue(fields[i].value, nodes)))
      {
        KeysAt(fields, i);
        KeysAt(resolved, i);
        LookupAt(fields, i);
        LookupAt(resolved, i);
      }
    }
  }

  /** Without form data, a string body of a non-GET request is resolved
      and sent as the JSON it parses to, or as the resolved text. */
  lemma HttpStringBody(d: seq<Field>, nodes: seq<Node>, parse: string -> Option<Json>, s: string)
    requires HttpRequest(d, nodes, parse).Some?
    requires Lookup(d, "body") == Some(JStr(s)) && s != []
    requires Lookup(d, "method") != Some(JStr("GET"))
    requires !Truthy(Lookup(d, "formData"))
    ensures var text := ResolveString(s, nodes);
      HttpRequest(d, nodes, parse).value.body
        == if parse(text).Some? then JsonBody(parse(text).value) else JsonBody(JStr(text))
  {
  }

  /** Headers and parameters given as text that does not parse become an
      empty object. */
  lemma ConfigTextFallsBack(v: Option<Json>, nodes: seq<Node>, parse: string -> Option<Json>)
    requires Truthy(v) && v.value.JStr? && parse(v.value.s).None?
    ensures ConfigObject(v, nodes, parse) == JObj([])
  {
    assert ResolveFields(JObj([]), nodes) == [];
  }

  /** A GraphQL call fails before any request when the endpoint or the
      query resolves to a falsy value, the endpoint being checked first. */
  lemma GraphQLRequired(d: seq<Field>, nodes: seq<Node>, parse: string -> Option<Json>)
    ensures !Truthy(ResolvedTemplate(Lookup(d, "endpoint"), nodes)) ==>
      forall send :: GraphQLResult(d, nodes, parse, send) == Failed(GraphQLPrefix + "GraphQL endpoint is required")
    ensures Truthy(ResolvedTemplate(Lookup(d, "endpoint"), nodes)) && !Truthy(ResolvedTemplate(Lookup(d, "query"), nodes)) ==>
      forall send :: GraphQLResult(d, nodes, parse, send) == Failed(GraphQLPrefix + "GraphQL query is required")
  {
    if !Truthy(ResolvedTemplate(Lookup(d, "endpoint"), nodes)) {
      assert GraphQLRequest(d, nodes, parse) == Err("GraphQL endpoint is required");
    } else if !Truthy(ResolvedTemplate(Lookup(d, "query"), nodes)) {
      assert GraphQLRequest(d, nodes, parse) == Err("GraphQL query is required");
    }
  }

  /** A GraphQL request is a POST of JSON holding the resolved query and
      the variables, which are `{}` when absent or unparsable. */
  lemma GraphQLRequestShape(d: seq<Field>, nodes: seq<Node>, parse: string -> Option<Json>)
    requires GraphQLRequest(d, nodes, parse).Ok?
    ensures var req := GraphQLRequest(d, nodes, parse).value;
      && req.verb == JStr("POST") && req.timeout == TimeoutMs && req.params.None?
      && req.headers == JObj([Field("Content-Type", JStr("application/json"))])
      && req.body == JsonBody(JObj([Field("query", ResolvedTemplate(Lookup(d, "query"), nodes).value),
                                    Field("variables", GraphQLVariables(Lookup(d, "variables"), nodes, parse))]))
    ensures !Truthy(Lookup(d, "variables")) ==> GraphQLVariables(Lookup(d, "variables"), nodes, parse) == JObj([])
    ensures var v := Lookup(d, "variables");
      Truthy(v) && v.value.JStr? && parse(ResolveString(v.value.s, nodes)).None? ==>
        GraphQLVariables(v, nodes, parse) == JObj([])
  {
  }
}
