/** The template resolver: `{{nodeId.path}}` placeholders in strings, the
    recursive resolution of every string in an object, the tolerant JSON
    parse and the markup escaping of the JSON formatter. */
module Templating {
  import opened Wrappers
  import opened Text
  import opened Json
  import opened PathResolver
  import opened Graph

  // ---------------------------------------------------------------------
  // The placeholder pattern /\{\{([^}]+)\}\}/g

  /** The end of the run of characters other than '}' that starts at `i`. */
  function RunEnd(s: string, i: nat): (e: nat)
    requires i <= |s|
    ensures i <= e <= |s| && (e < |s| ==> s[e] == '}')
    ensures forall j :: i <= j < e ==> s[j] != '}'
    decreases |s| - i
  {
    if i == |s| || s[i] == '}' then i else RunEnd(s, i + 1)
  }

  /** Where a match of the pattern that starts at `p` ends: two '{', at
      least one character other than '}', then two '}'. */
  function MatchEnd(s: string, p: nat): (r: Option<nat>)
    requires p <= |s|
    ensures r.Some? ==>
      && p + 5 <= r.value <= |s| && s[p] == '{' && s[p + 1] == '{'
      && s[r.value - 2] == '}' && s[r.value - 1] == '}'
      && forall j :: p + 2 <= j < r.value - 2 ==> s[j] != '}'
  {
    if p + 2 <= |s| && s[p] == '{' && s[p + 1] == '{' then
      var e := RunEnd(s, p + 2);
      if e > p + 2 && e + 2 <= |s| && s[e + 1] == '}' then Some(e + 2) else None
    else None
  }

  /** A placeholder's text: "{{", a non-empty inner part without '}', "}}". */
  predicate IsPlaceholder(m: string)
  {
    |m| >= 5 && m[0] == '{' && m[1] == '{' && m[|m| - 2] == '}' && m[|m| - 1] == '}'
    && '}' !in m[2..|m| - 2]
  }

  /** The texts the global match finds from `p` on, left to right, each
      search resuming after the previous match. */
  function MatchesFrom(s: string, p: nat): (ms: seq<string>)
    requires p <= |s|
    ensures forall m :: m in ms ==> IsPlaceholder(m)
    decreases |s| - p
  {
    if p == |s| then []
    else
      match MatchEnd(s, p)
      case Some(e) =>
        var m := s[p..e];
        assert forall j :: 2 <= j < |m| - 2 ==> m[j] == s[p + j];
        [m] + MatchesFrom(s, e)
      case None => MatchesFrom(s, p + 1)
  }

  /** `template.match(/\{\{([^}]+)\}\}/g)`, with no match as the empty list. */
  function Matches(s: string): (ms: seq<string>)
    ensures forall m :: m in ms ==> IsPlaceholder(m)
  {
    MatchesFrom(s, 0)
  }

  // ---------------------------------------------------------------------
  // One placeholder

  /** The dot-separated parts of the trimmed text between the braces. */
  function PlaceholderPath(m: string): (parts: seq<string>)
    requires |m| >= 4
    ensures |parts| >= 1
  {
    Split(Trim(m[2..|m| - 2]), '.')
  }

  /** A value counts as found unless it is undefined or null. */
  function Found(v: Option<Json>): (r: Option<Json>)
    ensures r.Some? <==> v.Some? && !v.value.JNull?
    ensures r.Some? ==> r == v
  {
    if v.None? || v.value.JNull? then None else v
  }

  /** Objects and arrays are written as JSON text, other values as `String`
      writes them. */
  function ReplacementText(v: Json): string
  {
    if IsObject(v) then Stringify(v) else ScalarString(v)
  }

  /** What a placeholder is replaced by: the value its path reaches from
      the first node carrying the id, or nothing when there is no such
      node or the value is undefined or null. */
  function Substitution(m: string, nodes: seq<Node>): Option<string>
    requires |m| >= 4
  {
    var parts := PlaceholderPath(m);
    match FindNode(nodes, parts[0])
    case None => None
    case Some(n) =>
      match Found(Walk(Some(NodeToJson(n)), parts[1..]))
      case None => None
      case Some(v) => Some(ReplacementText(v))
  }

  // ---------------------------------------------------------------------
  // String.prototype.replace with a string pattern

  /** The replacement text after its `$` patterns are expanded: `$$` is a
      dollar, `$&` the matched text, `` $` `` the text before the match,
      `$'` the text after it; any other `$` stays as it is. */
  function Expand(repl: string, before: string, matched: string, after: string): string
    decreases |repl|
  {
    if |repl| >= 2 && repl[0] == '$' then
      if repl[1] == '$' then "$" + Expand(repl[2..], before, matched, after)
      else if repl[1] == '&' then matched + Expand(repl[2..], before, matched, after)
      else if repl[1] == '`' then before + Expand(repl[2..], before, matched, after)
      else if repl[1] == '\'' then after + Expand(repl[2..], before, matched, after)
      else "$" + Expand(repl[1..], before, matched, after)
    else if repl == [] then []
    else [repl[0]] + Expand(repl[1..], before, matched, after)
  }

  /** `s.replace(pat, repl)`: the first occurrence only. */
  function ReplaceFirst(s: string, pat: string, repl: string): (r: string)
  {
    match IndexOf(s, pat)
    case None => s
    case Some(i) => s[..i] + Expand(repl, s[..i], pat, s[i + |pat|..]) + s[i + |pat|..]
  }

  /** A replacement text without `$` is inserted as it is. */
  lemma {:induction false} ExpandPlain(repl: string, before: string, matched: string, after: string)
    requires '$' !in repl
    ensures Expand(repl, before, matched, after) == repl
    decreases |repl|
  {
    if repl != [] {
      ExpandPlain(repl[1..], before, matched, after);
      assert repl == [repl[0]] + repl[1..];
    }
  }

  // ---------------------------------------------------------------------
  // The whole template

  /** One turn of the loop over the matches: a resolvable placeholder
      replaces the first occurrence of its text in the running result. */
  function ApplyMatch(result: string, m: string, nodes: seq<Node>): string
    requires |m| >= 4
  {
    match Substitution(m, nodes)
    case None => result
    case Some(rep) => ReplaceFirst(result, m, rep)
  }

  /** The loop over the matches, in order. */
  function ApplyMatches(result: string, ms: seq<string>, nodes: seq<Node>): string
    requires forall m :: m in ms ==> IsPlaceholder(m)
    decreases |ms|
  {
    if ms == [] then result
    else
      assert ms[0] in ms && IsPlaceholder(ms[0]);
      ApplyMatches(ApplyMatch(result, ms[0], nodes), ms[1..], nodes)
  }

  function ResolveString(s: string, nodes: seq<Node>): string
  {
    ApplyMatches(s, Matches(s), nodes)
  }

  /** `resolveTemplateVariables(template, nodes)`: falsy values and
      non-strings come back as they are. */
  function ResolvedTemplate(template: Option<Json>, nodes: seq<Node>): Option<Json>
  {
    if !Truthy(template) || !template.value.JStr? then template
    else Some(JStr(ResolveString(template.value.s, nodes)))
  }

  method ResolveTemplateVariables(template: Option<Json>, nodes: seq<Node>) returns (r: Option<Json>)
    ensures r == ResolvedTemplate(template, nodes)
  {
    if !Truthy(template) || !template.value.JStr? {
      return template;
    }
    var s := template.value.s;
    var matches := Matches(s);
    if matches == [] {
      return template;
    }
    var result := s;
    for k := 0 to |matches|
      invariant ApplyMatches(result, matches[k..], nodes) == ResolveString(s, nodes)
    {
      var m := matches[k];
      ApplyMatchesStep(result, matches, k, nodes);
      var replacement := LookupPlaceholder(m, nodes);
      if replacement.None? {
        continue;
      }
      result := ReplaceFirst(result, m, replacement.value);
    }
    assert matches[|matches|..] == [];
    return Some(JStr(result));
  }

  /** One turn of the loop applies the match at `k` and goes on with the rest. */
  lemma ApplyMatchesStep(result: string, ms: seq<string>, k: nat, nodes: seq<Node>)
    requires k < |ms| && forall m :: m in ms ==> IsPlaceholder(m)
    ensures IsPlaceholder(ms[k])
    ensures ApplyMatches(result, ms[k..], nodes) == ApplyMatches(ApplyMatch(result, ms[k], nodes), ms[k + 1..], nodes)
  {
    assert ms[k] in ms;
    assert ms[k..][0] == ms[k] && ms[k..][1..] == ms[k + 1..];
  }

  /** The body of the loop: find the node, walk the path, and give up
      (leave the placeholder) as soon as a value is undefined or null. */
  method LookupPlaceholder(m: string, nodes: seq<Node>) returns (replacement: Option<string>)
    requires |m| >= 4
    ensures replacement == Substitution(m, nodes)
  {
    var parts := Split(Trim(m[2..|m| - 2]), '.');
    var node := FindNode(nodes, parts[0]);
    if node.None? {
      return None;
    }
    ghost var target := Walk(Some(NodeToJson(node.value)), parts[1..]);
    var value := Some(NodeToJson(node.value));
    var i := 1;
    while i < |parts|
      invariant 1 <= i <= |parts|
      invariant Found(Walk(value, parts[i..])) == Found(target)
    {
      if value.None? || value.value.JNull? {
        break;
      }
      assert parts[i..][1..] == parts[i + 1..];
      value := Property(value.value, parts[i]);
      i := i + 1;
    }
    assert Found(value) == Found(target) by {
      if i == |parts| {
        assert parts[i..] == [];
      }
    }
    if value.None? || value.value.JNull? {
      return None;
    }
    replacement := Some(if IsObject(value.value) then Stringify(value.value) else ScalarString(value.value));
  }

  // ---------------------------------------------------------------------
  // resolveTemplateObject

  /** One entry's new value: strings are resolved, objects and arrays
      rebuilt recursively, other values copied. */
  function ResolveValue(v: Json, nodes: seq<Node>): (r: Json)
    decreases v, 2
  {
    match v
    case JStr(s) => JStr(ResolveString(s, nodes))
    case JObj(_) => JObj(ResolveFields(v, nodes))
    case JArr(_) => JObj(ResolveFields(v, nodes))
    case _ => v
  }

  /** The fields of the fresh object built from an object or array: its
      own entries in order, each written with its new value. */
  function ResolveFields(v: Json, nodes: seq<Node>): seq<Field>
    requires IsObject(v)
    decreases v, 1
  {
    ResolveEntries(v, OwnEntries(Some(v)), 0, [], nodes)
  }

  /** An entry of an object or array is smaller than it. */
  lemma EntrySmaller(v: Json, entries: seq<Field>, i: nat)
    requires IsObject(v) && entries == OwnEntries(Some(v)) && i < |entries|
    ensures entries[i].value < v
  {
    match v
    case JObj(fields) =>
      assert fields[i] in fields;
    case JArr(items) =>
      assert entries[i].value == items[i] && items[i] in items;
  }

  function ResolveEntries(v: Json, entries: seq<Field>, i: nat, acc: seq<Field>, nodes: seq<Node>): seq<Field>
    requires IsObject(v) && entries == OwnEntries(Some(v)) && i <= |entries|
    decreases v, 0, |entries| - i
  {
    if i == |entries| then acc
    else
      EntrySmaller(v, entries, i);
      ResolveEntries(v, entries, i + 1, SetKey(acc, entries[i].key, ResolveValue(entries[i].value, nodes)), nodes)
  }

  /** `resolveTemplateObject(obj, nodes)`: falsy values and non-objects
      come back as they are; an object or array gives a fresh object. */
  function ResolvedObject(obj: Option<Json>, nodes: seq<Node>): Option<Json>
  {
    if !Truthy(obj) || !IsObject(obj.value) then obj
    else Some(JObj(ResolveFields(obj.value, nodes)))
  }

  method ResolveTemplateObject(obj: Option<Json>, nodes: seq<Node>) returns (r: Option<Json>)
    ensures r == ResolvedObject(obj, nodes)
  {
    if !Truthy(obj) || !IsObject(obj.value) {
      return obj;
    }
    var fields := ResolveObjectFields(obj.value, nodes);
    return Some(JObj(fields));
  }

  /** The loop of `resolveTemplateObject` over `Object.entries(obj)`,
      writing `result[key]` entry by entry. */
  method ResolveObjectFields(v: Json, nodes: seq<Node>) returns (result: seq<Field>)
    requires IsObject(v)
    ensures result == ResolveFields(v, nodes)
    decreases v, 1
  {
    var entries := OwnEntries(Some(v));
    result := [];
    for k := 0 to |entries|
      invariant ResolveEntries(v, entries, k, result, nodes) == ResolveFields(v, nodes)
    {
      EntrySmaller(v, entries, k);
      var resolved := ResolveEntryValue(entries[k].value, nodes);
      EntryStep(v, entries, k, result, nodes);
      result := SetKey(result, entries[k].key, resolved);
    }
  }

  /** The value the loop writes for one entry: a string resolved, an
      object or array resolved recursively, anything else as it is. */
  method ResolveEntryValue(value: Json, nodes: seq<Node>) returns (resolved: Json)
    ensures resolved == ResolveValue(value, nodes)
    decreases value, 2
  {
    if value.JStr? {
      var t := ResolveTemplateVariables(Some(value), nodes);
      StringEntryResolves(value.s, nodes);
      resolved := t.value;
    } else if IsObject(value) {
      var fields := ResolveObjectFields(value, nodes);
      resolved := JObj(fields);
    } else {
      resolved := value;
    }
  }

  /** A string entry, the empty one included, gets the resolved text. */
  lemma StringEntryResolves(s: string, nodes: seq<Node>)
    ensures ResolvedTemplate(Some(JStr(s)), nodes) == Some(ResolveValue(JStr(s), nodes))
  {
    assert ResolveString("", nodes) == "" by {
      assert Matches("") == [];
    }
  }

  /** One turn of the entries loop: the entry's new value under its key. */
  lemma EntryStep(v: Json, entries: seq<Field>, k: nat, acc: seq<Field>, nodes: seq<Node>)
    requires IsObject(v) && entries == OwnEntries(Some(v)) && k < |entries|
    ensures ResolveEntries(v, entries, k, acc, nodes)
      == ResolveEntries(v, entries, k + 1, SetKey(acc, entries[k].key, ResolveValue(entries[k].value, nodes)), nodes)
  {
  }

  /** The fold writes each remaining entry's new value under its key;
      keys it does not reach read from the accumulator. */
  lemma {:induction false} ResolveEntriesLookup(v: Json, entries: seq<Field>, i: nat, acc: seq<Field>,
                                                 nodes: seq<Node>, k: string)
    requires IsObject(v) && entries == OwnEntries(Some(v)) && i <= |entries|
    requires DistinctKeys(entries[i..])
    ensures Lookup(ResolveEntries(v, entries, i, acc, nodes), k)
      == if k in Keys(entries[i..]) then Some(ResolveValue(Lookup(entries[i..], k).value, nodes))
         else Lookup(acc, k)
    decreases |entries| - i
  {
    if i < |entries| {
      var e := entries[i];
      var acc' := SetKey(acc, e.key, ResolveValue(e.value, nodes));
      assert entries[i..][1..] == entries[i + 1..];
      DistinctKeysTail(entries[i..]);
      ResolveEntriesLookup(v, entries, i + 1, acc', nodes, k);
      assert Keys(entries[i..]) == [e.key] + Keys(entries[i + 1..]);
    }
  }

  /** The fold appends the remaining keys, in order, after the
      accumulator's. */
  lemma {:induction false} ResolveEntriesKeys(v: Json, entries: seq<Field>, i: nat, acc: seq<Field>, nodes: seq<Node>)
    requires IsObject(v) && entries == OwnEntries(Some(v)) && i <= |entries|
    requires DistinctKeys(entries[i..])
    requires forall k :: k in Keys(entries[i..]) ==> k !in Keys(acc)
    ensures Keys(ResolveEntries(v, entries, i, acc, nodes)) == Keys(acc) + Keys(entries[i..])
    decreases |entries| - i
  {
    if i < |entries| {
      var e := entries[i];
      var acc' := SetKey(acc, e.key, ResolveValue(e.value, nodes));
      assert entries[i..][1..] == entries[i + 1..];
      assert Keys(entries[i..]) == [e.key] + Keys(entries[i + 1..]);
      DistinctKeysTail(entries[i..]);
      SetKeyKeys(acc, e.key, ResolveValue(e.value, nodes));
      assert Keys(acc') == Keys(acc) + [e.key];
      assert forall k :: k in Keys(entries[i + 1..]) ==> k in Keys(entries[i..]) && k != e.key;
      ResolveEntriesKeys(v, entries, i + 1, acc', nodes);
      SnocThenAppend(Keys(acc), e.key, Keys(entries[i + 1..]));
    }
  }

  lemma SnocThenAppend(a: seq<string>, x: string, b: seq<string>)
    ensures (a + [x]) + b == a + ([x] + b)
  {
  }

  /** The index keys of an array are distinct. */
  lemma IndexKeysDistinct(items: seq<Json>)
    ensures DistinctKeys(IndexedFields(items))
  {
    var f := IndexedFields(items);
    forall i, j | 0 <= i < j < |f|
      ensures f[i].key != f[j].key
    {
      CanonicalIndexOfNatToString(i);
      CanonicalIndexOfNatToString(j);
    }
  }

  /** The resolved object has the same keys in the same order, and each
      key holds its entry's new value. */
  lemma ResolvedObjectEntries(obj: Option<Json>, nodes: seq<Node>)
    requires obj.Some? && obj.value.JObj? ==> DistinctKeys(obj.value.fields)
    ensures !Truthy(obj) || !IsObject(obj.value) ==> ResolvedObject(obj, nodes) == obj
    ensures Truthy(obj) && IsObject(obj.value) ==>
      var r := ResolvedObject(obj, nodes);
      && r.Some? && r.value.JObj?
      && Keys(r.value.fields) == Keys(OwnEntries(obj))
      && forall k :: Lookup(r.value.fields, k)
           == match Lookup(OwnEntries(obj), k)
              case None => None
              case Some(x) => Some(ResolveValue(x, nodes))
  {
    if Truthy(obj) && IsObject(obj.value) {
      var v := obj.value;
      var entries := OwnEntries(obj);
      if v.JArr? {
        IndexKeysDistinct(v.items);
      }
      assert entries[0..] == entries;
      ResolveEntriesKeys(v, entries, 0, [], nodes);
      forall k
        ensures Lookup(ResolveFields(v, nodes), k)
          == match Lookup(entries, k)
             case None => None
             case Some(x) => Some(ResolveValue(x, nodes))
      {
        ResolveEntriesLookup(v, entries, 0, [], nodes, k);
      }
    }
  }

  // ---------------------------------------------------------------------
  // safeJsonParse and the escaping steps of formatJson

  /** `safeJsonParse(text, default)` with `JSON.parse` given as `parse`
      (None when it throws): falsy input and parse failures give the
      default; anything else is read as the text `String(text)`. */
  function SafeJsonParse(text: Option<Json>, default: Json, parse: string -> Option<Json>): Json
  {
    if !Truthy(text) then default
    else
      match parse(JsString(text))
      case None => default
      case Some(v) => v
  }

  /** The compact JSON text of a value is never empty. */
  lemma StringifyNonEmpty(v: Json)
    ensures Stringify(v) != []
  {
    match v
    case JNum(n) =>
      if n < 0 {
        assert Stringify(v) == "-" + NatToString(-n);
      } else {
        assert Stringify(v) == NatToString(n);
      }
    case JStr(t) =>
      assert Stringify(v) == Quote(t);
      assert Quote(t)[0] == '"';
    case _ =>
  }

  /** With a parser that reads back what `JSON.stringify` writes, the text
      of a value parses to that value; a failed parse and every falsy
      input (undefined, null, false, 0, "") give the default. */
  lemma SafeJsonParseRoundTrip(v: Json, default: Json, parse: string -> Option<Json>)
    requires parse(Stringify(v)) == Some(v)
    ensures SafeJsonParse(Some(JStr(Stringify(v))), default, parse) == v
    ensures forall t :: t != "" && parse(t).None? ==> SafeJsonParse(Some(JStr(t)), default, parse) == default
    ensures forall text :: !Truthy(text) ==> SafeJsonParse(text, default, parse) == default
  {
    StringifyNonEmpty(v);
  }

  /** `s.replace(/c/g, rep)` for one character `c`. */
  function ReplaceAllChar(s: string, c: char, rep: string): string
  {
    if s == [] then []
    else (if s[0] == c then rep else [s[0]]) + ReplaceAllChar(s[1..], c, rep)
  }

  /** The three replacements of formatJson, ampersand first. */
  function EscapeMarkup(s: string): string
  {
    ReplaceAllChar(ReplaceAllChar(ReplaceAllChar(s, '&', "&amp;"), '<', "&lt;"), '>', "&gt;")
  }

  /** `formatJson(json)` up to its highlighting: falsy input gives the
      empty text; a string is escaped as it is, any other value after
      `JSON.stringify(json, null, 2)`, given here as `pretty`. */
  function FormatJsonEscaped(json: Option<Json>, pretty: Json -> string): string
  {
    if !Truthy(json) then ""
    else if json.value.JStr? then EscapeMarkup(json.value.s)
    else EscapeMarkup(pretty(json.value))
  }

  /** The entity a character becomes. */
  function EscapeChar(c: char): string
  {
    if c == '&' then "&amp;" else if c == '<' then "&lt;" else if c == '>' then "&gt;" else [c]
  }

  lemma {:induction false} ReplaceAllCharAppend(a: string, b: string, c: char, rep: string)
    ensures ReplaceAllChar(a + b, c, rep) == ReplaceAllChar(a, c, rep) + ReplaceAllChar(b, c, rep)
    decreases |a|
  {
    if a == [] {
      assert a + b == b;
    } else {
      assert (a + b)[0] == a[0];
      assert (a + b)[1..] == a[1..] + b;
      ReplaceAllCharAppend(a[1..], b, c, rep);
    }
  }

  lemma EscapeMarkupAppend(a: string, b: string)
    ensures EscapeMarkup(a + b) == EscapeMarkup(a) + EscapeMarkup(b)
  {
    var a1, b1 := ReplaceAllChar(a, '&', "&amp;"), ReplaceAllChar(b, '&', "&amp;");
    ReplaceAllCharAppend(a, b, '&', "&amp;");
    var a2, b2 := ReplaceAllChar(a1, '<', "&lt;"), ReplaceAllChar(b1, '<', "&lt;");
    ReplaceAllCharAppend(a1, b1, '<', "&lt;");
    ReplaceAllCharAppend(a2, b2, '>', "&gt;");
  }

  lemma ReplaceAllCharSingle(c: char, d: char, rep: string)
    ensures ReplaceAllChar([c], d, rep) == if c == d then rep else [c]
  {
    assert [c][1..] == [];
  }

  lemma EscapeMarkupChar(c: char)
    ensures EscapeMarkup([c]) == EscapeChar(c)
  {
    ReplaceAllCharSingle(c, '&', "&amp;");
    if c == '&' {
      assert ReplaceAllChar("&amp;", '<', "&lt;") == "&amp;";
      assert ReplaceAllChar("&amp;", '>', "&gt;") == "&amp;";
    } else {
      ReplaceAllCharSingle(c, '<', "&lt;");
      if c == '<' {
        assert ReplaceAllChar("&lt;", '>', "&gt;") == "&lt;";
      } else {
        ReplaceAllCharSingle(c, '>', "&gt;");
      }
    }
  }

  /** Replacing `&` first makes the three replacements one pass that
      escapes each character on its own. */
  lemma {:induction false} EscapeMarkupEach(s: string)
    ensures EscapeMarkup(s) == if s == [] then [] else EscapeChar(s[0]) + EscapeMarkup(s[1..])
  {
    if s != [] {
      assert s == [s[0]] + s[1..];
      EscapeMarkupAppend([s[0]], s[1..]);
      EscapeMarkupChar(s[0]);
    }
  }

  /** Reads the entities back: the inverse of the escaping. */
  function Unescape(t: string): string
  {
    if t == [] then []
    else if |t| >= 5 && t[0] == '&' && t[1] == 'a' && t[2] == 'm' && t[3] == 'p' && t[4] == ';' then "&" + Unescape(t[5..])
    else if |t| >= 4 && t[0] == '&' && t[1] == 'l' && t[2] == 't' && t[3] == ';' then "<" + Unescape(t[4..])
    else if |t| >= 4 && t[0] == '&' && t[1] == 'g' && t[2] == 't' && t[3] == ';' then ">" + Unescape(t[4..])
    else [t[0]] + Unescape(t[1..])
  }

  /** One escaped character followed by any text reads back to that
      character followed by the text read back. */
  lemma UnescapeEntity(c: char, rest: string)
    ensures Unescape(EscapeChar(c) + rest) == [c] + Unescape(rest)
  {
    if c == '&' {
      var t := "&amp;" + rest;
      assert t[0] == '&' && t[1] == 'a' && t[2] == 'm' && t[3] == 'p' && t[4] == ';';
      assert t[5..] == rest;
    } else if c == '<' {
      var t := "&lt;" + rest;
      assert t[0] == '&' && t[1] == 'l' && t[2] == 't' && t[3] == ';';
      assert t[4..] == rest;
    } else if c == '>' {
      var t := "&gt;" + rest;
      assert t[0] == '&' && t[1] == 'g' && t[2] == 't' && t[3] == ';';
      assert t[4..] == rest;
    } else {
      var t := [c] + rest;
      assert t[0] == c && t[1..] == rest;
    }
  }

  /** The escaped text holds no angle bracket and reads back to the input,
      so no character is escaped twice. */
  lemma {:induction false} EscapeMarkupRoundTrip(s: string)
    ensures '<' !in EscapeMarkup(s) && '>' !in EscapeMarkup(s)
    ensures Unescape(EscapeMarkup(s)) == s
    decreases |s|
  {
    EscapeMarkupEach(s);
    if s != [] {
      EscapeMarkupRoundTrip(s[1..]);
      var e := EscapeChar(s[0]);
      var rest := EscapeMarkup(s[1..]);
      assert '<' !in e && '>' !in e;
      UnescapeEntity(s[0], rest);
      assert s == [s[0]] + s[1..];
    }
  }

  /** `formatJson` up to its highlighting: falsy input gives the empty
      text; otherwise the result holds no angle bracket and reads back to
      the text that was escaped, the string itself or its pretty form. */
  lemma FormatJsonReadsBack(json: Option<Json>, pretty: Json -> string)
    ensures !Truthy(json) ==> FormatJsonEscaped(json, pretty) == ""
    ensures Truthy(json) ==>
      var text := if json.value.JStr? then json.value.s else pretty(json.value);
      && '<' !in FormatJsonEscaped(json, pretty) && '>' !in FormatJsonEscaped(json, pretty)
      && Unescape(FormatJsonEscaped(json, pretty)) == text
  {
    if Truthy(json) {
      if json.value.JStr? {
        EscapeMarkupRoundTrip(json.value.s);
      } else {
        EscapeMarkupRoundTrip(pretty(json.value));
      }
    }
  }

  // ---------------------------------------------------------------------
  // Properties of the resolver

  /** No two consecutive '{' anywhere: the text holds no placeholder. */
  predicate PlaceholderFree(s: string)
  {
    forall j :: 0 <= j < |s| - 1 ==> !(s[j] == '{' && s[j + 1] == '{')
  }

  lemma {:induction false} MatchesFromFree(s: string, p: nat)
    requires p <= |s| && PlaceholderFree(s)
    ensures MatchesFrom(s, p) == []
    decreases |s| - p
  {
    if p < |s| {
      MatchesFromFree(s, p + 1);
    }
  }

  /** A string without placeholders comes back unchanged, so resolving
      twice is resolving once whenever the result is placeholder-free. */
  lemma PlaceholderFreeUnchanged(s: string, nodes: seq<Node>)
    requires PlaceholderFree(s)
    ensures ResolvedTemplate(Some(JStr(s)), nodes) == Some(JStr(s))
  {
    MatchesFromFree(s, 0);
  }

  lemma ResolveIdempotentWhenFree(template: Option<Json>, nodes: seq<Node>)
    requires var r := ResolvedTemplate(template, nodes); r.Some? && r.value.JStr? ==> PlaceholderFree(r.value.s)
    ensures ResolvedTemplate(ResolvedTemplate(template, nodes), nodes) == ResolvedTemplate(template, nodes)
  {
    var r := ResolvedTemplate(template, nodes);
    if Truthy(r) && r.value.JStr? {
      PlaceholderFreeUnchanged(r.value.s, nodes);
    }
  }

  /** When no placeholder resolves, the loop changes nothing. */
  lemma {:induction false} NothingResolvesUnchanged(result: string, ms: seq<string>, nodes: seq<Node>)
    requires forall m :: m in ms ==> IsPlaceholder(m) && Substitution(m, nodes).None?
    ensures ApplyMatches(result, ms, nodes) == result
    decreases |ms|
  {
    if ms != [] {
      assert ms[0] in ms;
      assert forall m :: m in ms[1..] ==> m in ms;
      NothingResolvesUnchanged(result, ms[1..], nodes);
    }
  }

  /** Positions before `q` that hold no '{' start no match. */
  lemma {:induction false} MatchesSkip(s: string, p: nat, q: nat)
    requires p <= q <= |s|
    requires forall j :: p <= j < q ==> s[j] != '{'
    ensures MatchesFrom(s, p) == MatchesFrom(s, q)
    decreases q - p
  {
    if p < q {
      MatchesSkip(s, p + 1, q);
    }
  }

  /** The run ends at the first '}'. */
  lemma RunEndAt(s: string, i: nat, e: nat)
    requires i <= e < |s| && s[e] == '}'
    requires forall j :: i <= j < e ==> s[j] != '}'
    ensures RunEnd(s, i) == e
  {
  }

  /** A placeholder written at `p` is matched there, whole. */
  lemma MatchAt(s: string, p: nat, m: string)
    requires IsPlaceholder(m) && p + |m| <= |s| && s[p..p + |m|] == m
    ensures MatchEnd(s, p) == Some(p + |m|)
  {
    var e := p + |m|;
    assert s[p] == m[0] && s[p + 1] == m[1];
    assert s[e - 2] == m[|m| - 2] && s[e - 1] == m[|m| - 1];
    forall j | p + 2 <= j < e - 2
      ensures s[j] != '}'
    {
      assert s[j] == m[j - p] == m[2..|m| - 2][j - p - 2];
    }
    RunEndAt(s, p + 2, e - 2);
  }

  /** A placeholder between text without '{' is the only match. */
  lemma OnlyMatch(pre: string, m: string, post: string)
    requires '{' !in pre && '{' !in post && IsPlaceholder(m)
    ensures Matches(pre + m + post) == [m]
  {
    var s := pre + m + post;
    var p := |pre|;
    var e := p + |m|;
    forall j | 0 <= j < p
      ensures s[j] != '{'
    {
      assert s[j] == pre[j];
    }
    MatchesSkip(s, 0, p);
    assert s[p..e] == m;
    MatchAt(s, p, m);
    assert MatchesFrom(s, p) == [m] + MatchesFrom(s, e);
    forall j | e <= j < |s|
      ensures s[j] != '{'
    {
      assert s[j] == post[j - e];
    }
    MatchesSkip(s, e, |s|);
  }

  /** Replacing a text that starts with '{' after a prefix without '{'
      replaces the occurrence right after the prefix. */
  lemma ReplaceAfterPrefix(pre: string, m: string, post: string, rep: string)
    requires '{' !in pre && |m| >= 1 && m[0] == '{'
    ensures ReplaceFirst(pre + m + post, m, rep) == pre + Expand(rep, pre, m, post) + post
  {
    var s := pre + m + post;
    var p := |pre|;
    assert OccursAt(s, m, p) by {
      assert s[p..p + |m|] == m;
    }
    forall k | 0 <= k < p
      ensures !OccursAt(s, m, k)
    {
      assert s[k] == pre[k];
    }
    assert IndexOf(s, m) == Some(p);
    assert s[..p] == pre;
    assert s[p + |m|..] == post;
  }

  lemma ApplyOne(result: string, m: string, nodes: seq<Node>)
    requires IsPlaceholder(m)
    ensures ApplyMatches(result, [m], nodes) == ApplyMatch(result, m, nodes)
  {
    assert [m][1..] == [];
  }

  /** The result holds the placeholder's replacement, or the placeholder
      itself when it does not resolve, in its place. */
  lemma SinglePlaceholder(pre: string, m: string, post: string, nodes: seq<Node>)
    requires '{' !in pre && '{' !in post && IsPlaceholder(m)
    ensures Substitution(m, nodes).None? ==> ResolveString(pre + m + post, nodes) == pre + m + post
    ensures Substitution(m, nodes).Some? ==>
      ResolveString(pre + m + post, nodes) == pre + Expand(Substitution(m, nodes).value, pre, m, post) + post
  {
    var s := pre + m + post;
    OnlyMatch(pre, m, post);
    ApplyOne(s, m, nodes);
    var sub := Substitution(m, nodes);
    if sub.Some? {
      ReplaceAfterPrefix(pre, m, post, sub.value);
    }
  }

  /** A placeholder naming no node stays in the text verbatim. */
  lemma UnknownNodeVerbatim(pre: string, m: string, post: string, nodes: seq<Node>)
    requires '{' !in pre && '{' !in post && IsPlaceholder(m)
    requires PlaceholderPath(m)[0] !in NodeIds(nodes)
    ensures ResolveString(pre + m + post, nodes) == pre + m + post
  {
    SinglePlaceholder(pre, m, post, nodes);
  }

  /** A placeholder whose value is found and whose text has no '$' is
      replaced by exactly that text. */
  lemma ResolvedPlaceholder(pre: string, m: string, post: string, nodes: seq<Node>, rep: string)
    requires '{' !in pre && '{' !in post && IsPlaceholder(m)
    requires Substitution(m, nodes) == Some(rep) && '$' !in rep
    ensures ResolveString(pre + m + post, nodes) == pre + rep + post
  {
    SinglePlaceholder(pre, m, post, nodes);
    ExpandPlain(rep, pre, m, post);
  }

  // ---------------------------------------------------------------------
  // Any number of placeholders

  /** Text in which no placeholder can begin: no "{{", and no '{' at its
      end that a following '{' could complete. */
  predicate Inert(t: string)
    decreases |t|
  {
    t == [] || ((t[0] == '{' ==> |t| >= 2 && t[1] != '{') && Inert(t[1..]))
  }

  /** In inert text every '{' is followed by another character. */
  lemma {:induction false} InertAt(t: string, j: nat)
    requires Inert(t) && j < |t| && t[j] == '{'
    ensures j + 1 < |t| && t[j + 1] != '{'
    decreases j
  {
    if j > 0 {
      InertAt(t[1..], j - 1);
    }
  }

  /** Inert text holds no placeholder, and does not end in '{'. */
  lemma InertFree(t: string)
    requires Inert(t)
    ensures PlaceholderFree(t) && (t != [] ==> t[|t| - 1] != '{')
  {
    forall j | 0 <= j < |t| && t[j] == '{'
      ensures j + 1 < |t| && t[j + 1] != '{'
    {
      InertAt(t, j);
    }
  }

  /** A placeholder whose inner text holds no '{' either. */
  predicate PlainPlaceholder(m: string)
  {
    IsPlaceholder(m) && '{' !in m[2..|m| - 2]
  }

  /** The text made of the gaps with the placeholders between them. */
  function Weave(gaps: seq<string>, ms: seq<string>): string
    requires |gaps| == |ms| + 1
    decreases |ms|
  {
    if ms == [] then gaps[0] else gaps[0] + ms[0] + Weave(gaps[1..], ms[1..])
  }

  /** What one placeholder becomes in the intended result: its
      substitution, or itself when it does not resolve. */
  function Rendered(m: string, nodes: seq<Node>): string
  {
    if |m| >= 4 && Substitution(m, nodes).Some? then Substitution(m, nodes).value else m
  }

  /** The intended result: every gap kept, and each placeholder rendered
      in its own place. */
  function Resolved(gaps: seq<string>, ms: seq<string>, nodes: seq<Node>): string
    requires |gaps| == |ms| + 1
    decreases |ms|
  {
    if ms == [] then gaps[0] else gaps[0] + Rendered(ms[0], nodes) + Resolved(gaps[1..], ms[1..], nodes)
  }

  /** Every placeholder is plain, and every one that resolves is replaced
      by inert text without '$'. */
  predicate InertSubstitutions(ms: seq<string>, nodes: seq<Node>)
  {
    forall j :: 0 <= j < |ms| ==>
      && PlainPlaceholder(ms[j])
      && (Substitution(ms[j], nodes).Some? ==>
            Inert(Substitution(ms[j], nodes).value) && '$' !in Substitution(ms[j], nodes).value)
  }

  /** A piece of text the loop has already gone past: inert text, or a
      plain placeholder left in place because it does not resolve. */
  predicate Piece(p: string, nodes: seq<Node>)
  {
    Inert(p) || (PlainPlaceholder(p) && Substitution(p, nodes).None?)
  }

  /** A piece in which the plain placeholder `m` cannot start: inert text,
      or another plain placeholder. */
  predicate Shields(p: string, m: string)
  {
    Inert(p) || (PlainPlaceholder(p) && p != m)
  }

  function Concat(ps: seq<string>): string
    decreases |ps|
  {
    if ps == [] then [] else ps[0] + Concat(ps[1..])
  }

  lemma {:induction false} ConcatSnoc(ps: seq<string>, x: string)
    ensures Concat(ps + [x]) == Concat(ps) + x
    decreases |ps|
  {
    if ps == [] {
      assert ps + [x] == [x];
    } else {
      assert (ps + [x])[1..] == ps[1..] + [x];
      ConcatSnoc(ps[1..], x);
    }
  }

  /** An occurrence past a prefix is an occurrence in the rest. */
  lemma OccursShift(p: string, x: string, m: string, k: nat)
    requires k >= |p|
    ensures OccursAt(p + x, m, k) <==> OccursAt(x, m, k - |p|)
  {
    if k + |m| <= |p + x| {
      assert (p + x)[k..k + |m|] == x[k - |p|..k - |p| + |m|];
    }
  }

  /** The characters between the braces of a placeholder. */
  lemma InnerChar(p: string, j: nat)
    requires IsPlaceholder(p) && 2 <= j < |p| - 2
    ensures p[j] != '}' && ('{' !in p[2..|p| - 2] ==> p[j] != '{')
  {
    assert p[j] == p[2..|p| - 2][j - 2];
  }

  /** A text differs from `m` at offset `d` from `k`: `m` does not occur there. */
  lemma DiffersAt(s: string, m: string, k: nat, d: nat)
    requires d < |m| && (k + |m| <= |s| ==> s[k + d] != m[d])
    ensures !OccursAt(s, m, k)
  {
    if k + |m| <= |s| {
      assert s[k..k + |m|][d] == s[k + d];
    }
  }

  /** A plain placeholder does not start inside a piece that shields it. */
  lemma NoOccurrenceInPiece(p: string, tail: string, m: string, k: nat)
    requires Shields(p, m) && PlainPlaceholder(m)
    requires k < |p|
    ensures !OccursAt(p + tail, m, k)
  {
    var s := p + tail;
    assert s[k] == p[k];
    if Inert(p) {
      if p[k] != '{' {
        DiffersAt(s, m, k, 0);
      } else {
        InertAt(p, k);
        assert s[k + 1] == p[k + 1];
        DiffersAt(s, m, k, 1);
      }
    } else if k == 1 {
      InnerChar(p, 2);
      assert s[2] == p[2];
      DiffersAt(s, m, k, 1);
    } else if k >= 2 {
      if k < |p| - 2 {
        InnerChar(p, k);
      }
      DiffersAt(s, m, k, 0);
    } else if |m| < |p| {
      var d := |m| - 2;
      InnerChar(p, d);
      assert s[d] == p[d];
      DiffersAt(s, m, k, d);
    } else if |m| > |p| {
      var d := |p| - 2;
      InnerChar(m, d);
      assert s[d] == p[d];
      DiffersAt(s, m, k, d);
    } else {
      if |m| <= |s| {
        assert s[..|m|] == p;
      }
    }
  }

  /** A plain placeholder does not start inside pieces that shield it. */
  lemma {:induction false} NoOccurrenceInPieces(ps: seq<string>, tail: string, m: string, k: nat)
    requires forall i :: 0 <= i < |ps| ==> Shields(ps[i], m)
    requires PlainPlaceholder(m)
    requires k < |Concat(ps)|
    ensures !OccursAt(Concat(ps) + tail, m, k)
    decreases |ps|
  {
    var p := ps[0];
    var rest := Concat(ps[1..]);
    assert Concat(ps) + tail == p + (rest + tail);
    if k < |p| {
      NoOccurrenceInPiece(p, rest + tail, m, k);
    } else {
      NoOccurrenceInPieces(ps[1..], tail, m, k - |p|);
      OccursShift(p, rest + tail, m, k);
    }
  }

  /** The first occurrence is the one with none before it. */
  lemma IndexOfFirst(s: string, pat: string, i: nat)
    requires OccursAt(s, pat, i) && forall k :: 0 <= k < i ==> !OccursAt(s, pat, k)
    ensures IndexOf(s, pat) == Some(i)
  {
  }

  /** Replacing a text that does not occur before `pre` ends replaces the
      occurrence right after it. */
  lemma ReplaceAt(pre: string, m: string, w: string, rep: string)
    requires forall k :: 0 <= k < |pre| ==> !OccursAt(pre + (m + w), m, k)
    requires '$' !in rep
    ensures ReplaceFirst(pre + (m + w), m, rep) == pre + rep + w
  {
    var s := pre + (m + w);
    var i := |pre|;
    assert s[i..i + |m|] == m;
    IndexOfFirst(s, m, i);
    assert s[..i] == pre && s[i + |m|..] == w;
    ExpandPlain(rep, pre, m, w);
  }

  /** No earlier start for a plain placeholder after shielding pieces. */
  lemma NoEarlierStart(ps: seq<string>, m: string, tail: string)
    requires forall i :: 0 <= i < |ps| ==> Shields(ps[i], m)
    requires PlainPlaceholder(m)
    ensures forall k :: 0 <= k < |Concat(ps)| ==> !OccursAt(Concat(ps) + tail, m, k)
  {
    forall k | 0 <= k < |Concat(ps)|
      ensures !OccursAt(Concat(ps) + tail, m, k)
    {
      NoOccurrenceInPieces(ps, tail, m, k);
    }
  }

  /** Replacing a plain placeholder that follows shielding pieces and an
      inert gap replaces it right there. */
  lemma ReplaceAfterShields(ps: seq<string>, g: string, m: string, w: string, rep: string)
    requires forall i :: 0 <= i < |ps| ==> Shields(ps[i], m)
    requires Inert(g) && PlainPlaceholder(m) && '$' !in rep
    ensures ReplaceFirst(Concat(ps) + g + m + w, m, rep) == Concat(ps) + g + rep + w
  {
    var x := Concat(ps);
    ConcatSnoc(ps, g);
    ShieldsSnoc(ps, g, m);
    NoEarlierStart(ps + [g], m, m + w);
    ReplaceAt(x + g, m, w, rep);
    Assoc(x + g, m, w);
  }

  lemma Assoc(a: string, b: string, c: string)
    ensures a + b + c == a + (b + c)
  {
  }

  lemma ShieldsSnoc(ps: seq<string>, g: string, m: string)
    requires forall i :: 0 <= i < |ps| ==> Shields(ps[i], m)
    requires Inert(g)
    ensures forall i :: 0 <= i < |ps + [g]| ==> Shields((ps + [g])[i], m)
  {
  }

  /** One turn of the loop: the placeholder right after the pieces passed
      and an inert gap is rendered in place. */
  lemma ApplyStep(ps: seq<string>, g: string, m: string, w: string, nodes: seq<Node>)
    requires forall i :: 0 <= i < |ps| ==> Piece(ps[i], nodes)
    requires Inert(g) && InertSubstitutions([m], nodes)
    ensures PlainPlaceholder(m)
    ensures ApplyMatch(Concat(ps) + g + m + w, m, nodes) == Concat(ps) + g + Rendered(m, nodes) + w
  {
    assert [m][0] == m;
    var sub := Substitution(m, nodes);
    if sub.Some? {
      forall i | 0 <= i < |ps|
        ensures Shields(ps[i], m)
      {
        assert Piece(ps[i], nodes);
      }
      ReplaceAfterShields(ps, g, m, w, sub.value);
    }
  }

  /** What a plain placeholder becomes is a piece the loop goes past. */
  lemma RenderedPiece(m: string, nodes: seq<Node>)
    requires InertSubstitutions([m], nodes)
    ensures Piece(Rendered(m, nodes), nodes)
  {
    assert [m][0] == m;
  }

  /** Two more pieces after the pieces passed. */
  lemma PiecesSnoc2(ps: seq<string>, a: string, b: string, nodes: seq<Node>)
    requires forall i :: 0 <= i < |ps| ==> Piece(ps[i], nodes)
    requires Inert(a) && Piece(b, nodes)
    ensures forall i :: 0 <= i < |ps + [a, b]| ==> Piece((ps + [a, b])[i], nodes)
    ensures Concat(ps + [a, b]) == Concat(ps) + a + b
  {
    ConcatSnoc(ps, a);
    ConcatSnoc(ps + [a], b);
    assert ps + [a] + [b] == ps + [a, b];
  }

  /** The placeholders after the first keep the same guarantee. */
  lemma InertSubstitutionsSplit(ms: seq<string>, nodes: seq<Node>)
    requires ms != [] && InertSubstitutions(ms, nodes)
    ensures InertSubstitutions([ms[0]], nodes) && InertSubstitutions(ms[1..], nodes)
    ensures forall m :: m in ms ==> IsPlaceholder(m)
  {
    assert [ms[0]][0] == ms[0];
    forall j | 0 <= j < |ms[1..]| ensures ms[1..][j] == ms[j + 1] { }
  }

  /** The loop over the remaining placeholders, after the pieces passed. */
  lemma {:induction false} ApplyWeave(ps: seq<string>, gaps: seq<string>, ms: seq<string>, nodes: seq<Node>)
    requires |gaps| == |ms| + 1
    requires forall i :: 0 <= i < |ps| ==> Piece(ps[i], nodes)
    requires forall i :: 0 <= i < |gaps| ==> Inert(gaps[i])
    requires InertSubstitutions(ms, nodes)
    ensures forall m :: m in ms ==> IsPlaceholder(m)
    ensures ApplyMatches(Concat(ps) + Weave(gaps, ms), ms, nodes) == Concat(ps) + Resolved(gaps, ms, nodes)
    decreases |ms|
  {
    if ms != [] {
      var p := Concat(ps);
      var g, m := gaps[0], ms[0];
      var w := Weave(gaps[1..], ms[1..]);
      var r := Rendered(m, nodes);
      var ps' := ps + [g, r];
      InertSubstitutionsSplit(ms, nodes);
      ApplyStep(ps, g, m, w, nodes);
      RenderedPiece(m, nodes);
      PiecesSnoc2(ps, g, r, nodes);
      ApplyWeave(ps', gaps[1..], ms[1..], nodes);
      WeaveTurn(p, g, m, w, r, Resolved(gaps[1..], ms[1..], nodes), ms, nodes);
    }
  }

  /** One turn of the loop, put together from what the steps give. */
  lemma WeaveTurn(p: string, g: string, m: string, w: string, r: string, rest: string,
                  ms: seq<string>, nodes: seq<Node>)
    requires ms != [] && ms[0] == m && IsPlaceholder(m) && forall x :: x in ms ==> IsPlaceholder(x)
    requires ApplyMatch(p + g + m + w, m, nodes) == p + g + r + w
    requires ApplyMatches(p + g + r + w, ms[1..], nodes) == p + g + r + rest
    ensures ApplyMatches(p + (g + m + w), ms, nodes) == p + (g + r + rest)
  {
    Regroup(p, g, m, w);
    Regroup(p, g, r, rest);
  }

  lemma Regroup(a: string, b: string, c: string, d: string)
    ensures a + (b + c + d) == a + b + c + d
  {
  }

  /** The three parts of a text that ends in `a + b + c` from `p` on. */
  lemma SliceParts(s: string, p: nat, a: string, b: string, c: string)
    requires p <= |s| && s[p..] == a + b + c
    ensures p + |a| + |b| + |c| == |s|
    ensures s[p..p + |a|] == a && s[p + |a|..p + |a| + |b|] == b && s[p + |a| + |b|..] == c
  {
    assert s[p..][..|a|] == a;
    assert s[p..][|a|..|a| + |b|] == b;
    assert s[p..][|a| + |b|..] == c;
  }

  /** No match starts in an inert gap. */
  lemma GapStartsNothing(s: string, p: nat, g: string)
    requires p + |g| <= |s| && s[p..p + |g|] == g && Inert(g)
    ensures forall j :: p <= j < p + |g| ==> s[j] != '{' || j + 1 == |s| || s[j + 1] != '{'
  {
    forall j | p <= j < p + |g|
      ensures s[j] != '{' || j + 1 == |s| || s[j + 1] != '{'
    {
      assert s[j] == g[j - p];
      if g[j - p] == '{' {
        InertAt(g, j - p);
        assert s[j + 1] == g[j - p + 1];
      }
    }
  }

  /** Scanning an inert gap finds nothing. */
  lemma SkipGap(s: string, p: nat, g: string)
    requires p + |g| <= |s| && s[p..p + |g|] == g && Inert(g)
    ensures MatchesFrom(s, p) == MatchesFrom(s, p + |g|)
  {
    GapStartsNothing(s, p, g);
    MatchesSkipInert(s, p, p + |g|);
  }

  /** After an inert gap, a placeholder is the next match, found whole. */
  lemma MatchAfterGap(s: string, p: nat, g: string, m: string)
    requires p + |g| + |m| <= |s| && s[p..p + |g|] == g && Inert(g)
    requires IsPlaceholder(m) && s[p + |g|..p + |g| + |m|] == m
    ensures MatchesFrom(s, p) == [m] + MatchesFrom(s, p + |g| + |m|)
  {
    SkipGap(s, p, g);
    MatchAt(s, p + |g|, m);
    MatchesFromMatch(s, p + |g|, p + |g| + |m|);
  }

  /** A match found at `p` comes first, and the search resumes after it. */
  lemma MatchesFromMatch(s: string, p: nat, e: nat)
    requires p < |s| && MatchEnd(s, p) == Some(e)
    ensures p < e <= |s| && MatchesFrom(s, p) == [s[p..e]] + MatchesFrom(s, e)
  {
  }

  /** Scanning the last gap to the end of the text finds nothing. */
  lemma LastGap(s: string, p: nat, g: string)
    requires p <= |s| && s[p..] == g && Inert(g)
    ensures MatchesFrom(s, p) == []
  {
    SkipGap(s, p, g);
  }

  /** Scanning the gaps finds nothing, and each placeholder is found whole. */
  lemma {:induction false} MatchesWeave(s: string, p: nat, gaps: seq<string>, ms: seq<string>)
    requires |gaps| == |ms| + 1 && p <= |s| && s[p..] == Weave(gaps, ms)
    requires forall i :: 0 <= i < |gaps| ==> Inert(gaps[i])
    requires forall m :: m in ms ==> IsPlaceholder(m)
    ensures MatchesFrom(s, p) == ms
    decreases |ms|
  {
    var g := gaps[0];
    if ms == [] {
      LastGap(s, p, g);
    } else {
      var m := ms[0];
      WeaveFirst(gaps, ms);
      var w := Weave(gaps[1..], ms[1..]);
      SliceParts(s, p, g, m, w);
      MatchAfterGap(s, p, g, m);
      MatchesWeave(s, p + |g| + |m|, gaps[1..], ms[1..]);
    }
  }

  /** A weave with a placeholder is its first gap and placeholder in front
      of the weave of the rest, whose gaps and placeholders keep their
      kinds. */
  lemma WeaveFirst(gaps: seq<string>, ms: seq<string>)
    requires |gaps| == |ms| + 1 && ms != []
    requires forall i :: 0 <= i < |gaps| ==> Inert(gaps[i])
    requires forall m :: m in ms ==> IsPlaceholder(m)
    ensures Weave(gaps, ms) == gaps[0] + ms[0] + Weave(gaps[1..], ms[1..])
    ensures Inert(gaps[0]) && IsPlaceholder(ms[0]) && ms == [ms[0]] + ms[1..]
    ensures forall i :: 0 <= i < |gaps[1..]| ==> Inert(gaps[1..][i])
    ensures forall m :: m in ms[1..] ==> IsPlaceholder(m)
  {
    assert ms[0] in ms;
    forall i | 0 <= i < |gaps[1..]| ensures Inert(gaps[1..][i]) {
      assert gaps[1..][i] == gaps[i + 1];
    }
    forall m | m in ms[1..] ensures IsPlaceholder(m) {
      assert m in ms;
    }
    assert ms == [ms[0]] + ms[1..];
  }

  /** Positions that do not start "{{" start no match. */
  lemma {:induction false} MatchesSkipInert(s: string, p: nat, q: nat)
    requires p <= q <= |s|
    requires forall j :: p <= j < q ==> s[j] != '{' || j + 1 == |s| || s[j + 1] != '{'
    ensures MatchesFrom(s, p) == MatchesFrom(s, q)
    decreases q - p
  {
    if p < q {
      assert MatchEnd(s, p).None?;
      MatchesSkipInert(s, p + 1, q);
    }
  }

  /** Any number of placeholders between inert gaps: the matches are the
      placeholders, and the result keeps every gap and puts each
      placeholder's substitution in its place, leaving the ones that do
      not resolve as they are. */
  lemma ResolveWoven(gaps: seq<string>, ms: seq<string>, nodes: seq<Node>)
    requires |gaps| == |ms| + 1
    requires forall i :: 0 <= i < |gaps| ==> Inert(gaps[i])
    requires InertSubstitutions(ms, nodes)
    ensures Matches(Weave(gaps, ms)) == ms
    ensures forall m :: m in ms ==> IsPlaceholder(m)
    ensures ResolveString(Weave(gaps, ms), nodes) == Resolved(gaps, ms, nodes)
  {
    ApplyWeave([], gaps, ms, nodes);
    MatchesWeave(Weave(gaps, ms), 0, gaps, ms);
    assert Concat([]) + Weave(gaps, ms) == Weave(gaps, ms);
    assert Concat([]) + Resolved(gaps, ms, nodes) == Resolved(gaps, ms, nodes);
  }

  /** The middle of a concatenation occurs right after its first part. */
  lemma OccursInMiddle(a: string, b: string, c: string)
    ensures OccursAt(a + b + c, b, |a|)
  {
    assert (a + b + c)[|a|..|a| + |b|] == b;
  }

  /** Each text woven between the gaps occurs in the woven text. */
  lemma {:induction false} WovenOccurs(gaps: seq<string>, rs: seq<string>, i: nat)
    requires |gaps| == |rs| + 1 && i < |rs|
    ensures exists k :: OccursAt(Weave(gaps, rs), rs[i], k)
    decreases |rs|
  {
    var rest := Weave(gaps[1..], rs[1..]);
    if i == 0 {
      OccursInMiddle(gaps[0], rs[0], rest);
      assert OccursAt(Weave(gaps, rs), rs[0], |gaps[0]|);
    } else {
      var head := gaps[0] + rs[0];
      assert rs[1..][i - 1] == rs[i];
      WovenOccurs(gaps[1..], rs[1..], i - 1);
      var k :| OccursAt(rest, rs[i], k);
      OccursShift(head, rest, rs[i], |head| + k);
      assert OccursAt(Weave(gaps, rs), rs[i], |head| + k);
    }
  }

  /** The intended result is the gaps woven with the rendered placeholders. */
  lemma {:induction false} ResolvedIsWoven(gaps: seq<string>, ms: seq<string>, rs: seq<string>, nodes: seq<Node>)
    requires |gaps| == |ms| + 1 && |rs| == |ms|
    requires forall j :: 0 <= j < |ms| ==> rs[j] == Rendered(ms[j], nodes)
    ensures Resolved(gaps, ms, nodes) == Weave(gaps, rs)
    decreases |ms|
  {
    if ms != [] {
      assert forall j :: 0 <= j < |ms| - 1 ==> rs[1..][j] == rs[j + 1] && ms[1..][j] == ms[j + 1];
      ResolvedIsWoven(gaps[1..], ms[1..], rs[1..], nodes);
    }
  }

  /** The rendering of each placeholder, in order. */
  function Renderings(ms: seq<string>, nodes: seq<Node>): (rs: seq<string>)
    ensures |rs| == |ms| && forall j :: 0 <= j < |ms| ==> rs[j] == Rendered(ms[j], nodes)
    decreases |ms|
  {
    if ms == [] then [] else [Rendered(ms[0], nodes)] + Renderings(ms[1..], nodes)
  }

  /** A placeholder that names no node, or whose value is undefined or
      null, is still in the result, wherever it stands among the others. */
  lemma UnresolvedStays(gaps: seq<string>, ms: seq<string>, nodes: seq<Node>, i: nat)
    requires |gaps| == |ms| + 1
    requires forall j :: 0 <= j < |gaps| ==> Inert(gaps[j])
    requires InertSubstitutions(ms, nodes)
    requires i < |ms| && Substitution(ms[i], nodes).None?
    ensures exists k :: OccursAt(ResolveString(Weave(gaps, ms), nodes), ms[i], k)
  {
    ResolveWoven(gaps, ms, nodes);
    var rs := Renderings(ms, nodes);
    ResolvedIsWoven(gaps, ms, rs, nodes);
    assert rs[i] == ms[i];
    WovenOccurs(gaps, rs, i);
  }

  // ---------------------------------------------------------------------
  // A start node whose fields hold a city

  /** The placeholder for a path given by its parts. */
  function PlaceholderFor(parts: seq<string>): string
    requires |parts| >= 1
  {
    "{{" + Join(parts, '.') + "}}"
  }

  lemma PlaceholderForInner(parts: seq<string>)
    requires |parts| >= 1
    ensures var m := PlaceholderFor(parts);
      |m| >= 4 && m[2..|m| - 2] == Join(parts, '.')
      && m[0] == '{' && m[1] == '{' && m[|m| - 2] == '}' && m[|m| - 1] == '}'
  {
  }

  /** The placeholder for dot-free parts, none holding '}', whose ends are
      not white space, is matched and walks exactly those parts. */
  lemma PlaceholderForPath(parts: seq<string>)
    requires |parts| >= 1 && parts[0] != [] && parts[|parts| - 1] != []
    requires forall k :: 0 <= k < |parts| ==> '.' !in parts[k] && '}' !in parts[k]
    requires !IsWhitespace(parts[0][0])
    requires !IsWhitespace(parts[|parts| - 1][|parts[|parts| - 1]| - 1])
    ensures IsPlaceholder(PlaceholderFor(parts)) && PlaceholderPath(PlaceholderFor(parts)) == parts
  {
    var j := Join(parts, '.');
    PlaceholderForInner(parts);
    JoinHead(parts, '.');
    JoinLast(parts, '.');
    JoinExcludes(parts, '.', '}');
    TrimUntouched(j);
    SplitJoin(parts, '.');
  }

  const ApiPrefix: string := "https://api.example.com/"

  function CityNodes(): seq<Node>
  {
    [Node("start-node", "startNode", Position(100, 100),
          [Field("fields", JObj([Field("city", JStr("Paris"))]))], None)]
  }

  lemma CityNodeFound()
    ensures FindNode(CityNodes(), "start-node") == Some(CityNodes()[0])
  {
    assert NodeIds(CityNodes())[0] == "start-node";
  }

  lemma CityWalk()
    ensures Walk(Some(NodeToJson(CityNodes()[0])), ["data", "fields", "city"]) == Some(JStr("Paris"))
  {
    var n := CityNodes()[0];
    NodeJsonLookup(n);
    var data := JObj(n.data);
    var fields := JObj([Field("city", JStr("Paris"))]);
    assert ["data", "fields", "city"][1..] == ["fields", "city"];
    assert ["fields", "city"][1..] == ["city"];
    assert ["city"][1..] == [];
    assert Property(data, "fields") == Some(fields);
    assert Property(fields, "city") == Some(JStr("Paris"));
  }

  lemma CityWalkSkippingData()
    ensures Walk(Some(NodeToJson(CityNodes()[0])), ["fields", "city"]) == None
  {
    var obj := NodeToJson(CityNodes()[0]);
    assert obj.fields == obj.fields[..4];
    assert Keys(obj.fields) == ["id", "type", "position", "data"];
    assert Property(obj, "fields") == None;
    assert ["fields", "city"][1..] == ["city"];
  }

  lemma ParisText()
    ensures ReplacementText(JStr("Paris")) == "Paris" && '$' !in "Paris"
  {
  }

  lemma ApiPrefixHasNoBrace()
    ensures '{' !in ApiPrefix
  {
    forall k | 0 <= k < |ApiPrefix|
      ensures ApiPrefix[k] != '{'
    {
    }
  }

  /** The path after the node id runs through the node object itself, so
      the start node's fields are reached through `data`. */
  lemma CityThroughData()
    ensures ResolveString(ApiPrefix + PlaceholderFor(["start-node", "data", "fields", "city"]), CityNodes())
      == ApiPrefix + "Paris"
  {
    var m := PlaceholderFor(["start-node", "data", "fields", "city"]);
    CitySubstitution();
    ParisText();
    ApiPrefixHasNoBrace();
    ResolvedPlaceholder(ApiPrefix, m, "", CityNodes(), "Paris");
    assert ApiPrefix + m + "" == ApiPrefix + m;
    assert ApiPrefix + "Paris" + "" == ApiPrefix + "Paris";
  }

  /** The city placeholder is substituted by the start node's city. */
  lemma CitySubstitution()
    ensures IsPlaceholder(PlaceholderFor(["start-node", "data", "fields", "city"]))
    ensures Substitution(PlaceholderFor(["start-node", "data", "fields", "city"]), CityNodes()) == Some("Paris")
  {
    var parts := ["start-node", "data", "fields", "city"];
    var m := PlaceholderFor(parts);
    PlaceholderForPath(parts);
    CityNodeFound();
    assert parts[1..] == ["data", "fields", "city"];
    CityWalk();
    ParisText();
    assert PlaceholderPath(m)[0] == "start-node" && PlaceholderPath(m)[1..] == ["data", "fields", "city"];
    assert Found(Walk(Some(NodeToJson(CityNodes()[0])), PlaceholderPath(m)[1..])) == Some(JStr("Paris"));
  }

  /** A path that skips `data` names a key the node object lacks, so the
      placeholder stays verbatim. */
  lemma CitySkippingData()
    ensures var t := ApiPrefix + PlaceholderFor(["start-node", "fields", "city"]);
      ResolveString(t, CityNodes()) == t
  {
    var parts := ["start-node", "fields", "city"];
    var m := PlaceholderFor(parts);
    PlaceholderForPath(parts);
    CityNodeFound();
    assert parts[1..] == ["fields", "city"];
    CityWalkSkippingData();
    assert Substitution(m, CityNodes()) == None;
    ApiPrefixHasNoBrace();
    SinglePlaceholder(ApiPrefix, m, "", CityNodes());
    assert ApiPrefix + m + "" == ApiPrefix + m;
  }
}
