/** JSON-like values as the flow editor handles them: node data, request
    configuration, responses and results. An object is a list of fields in
    insertion order (JavaScript lists integer-like keys first, which is not
    modelled); JavaScript's `undefined` is
    `Option.None` wherever a value may be missing. Numbers are integers. */
module Json {
  import opened Wrappers
  import opened Text

  datatype Json =
    | JNull
    | JBool(b: bool)
    | JNum(n: int)
    | JStr(s: string)
    | JArr(items: seq<Json>)
    | JObj(fields: seq<Field>)

  datatype Field = Field(key: string, value: Json)

  function Keys(fields: seq<Field>): (ks: seq<string>)
    ensures |ks| == |fields|
  {
    if fields == [] then [] else [fields[0].key] + Keys(fields[1..])
  }

  lemma {:induction false} KeysAt(fields: seq<Field>, i: nat)
    requires i < |fields|
    ensures Keys(fields)[i] == fields[i].key
  {
    if i > 0 { KeysAt(fields[1..], i - 1); }
  }

  /** A JavaScript object never holds the same key twice. */
  predicate DistinctKeys(fields: seq<Field>)
  {
    forall i, j :: 0 <= i < j < |fields| ==> fields[i].key != fields[j].key
  }

  /** `obj[key]` for an own property of an object. */
  function Lookup(fields: seq<Field>, key: string): (r: Option<Json>)
    ensures r.Some? <==> key in Keys(fields)
  {
    if fields == [] then None
    else if fields[0].key == key then Some(fields[0].value)
    else
      assert Keys(fields) == [fields[0].key] + Keys(fields[1..]);
      Lookup(fields[1..], key)
  }

  /** The field `{key: v}` of an object literal. A property whose value is
      undefined reads like an absent one, so it is left out. */
  function Present(key: string, v: Option<Json>): (r: seq<Field>)
    ensures Lookup(r, key) == v
  {
    if v.Some? then [Field(key, v.value)] else []
  }

  /** The literal `{k1, k2}` built from two possibly undefined values reads
      each of them back. */
  lemma PresentPair(k1: string, v1: Option<Json>, k2: string, v2: Option<Json>)
    requires k1 != k2
    ensures Lookup(Present(k1, v1) + Present(k2, v2), k1) == v1
    ensures Lookup(Present(k1, v1) + Present(k2, v2), k2) == v2
  {
    if v1.Some? {
      assert (Present(k1, v1) + Present(k2, v2))[1..] == Present(k2, v2);
    }
  }

  /** `obj[key] = value`: overwrite the key where it stands, or append it. */
  function SetKey(fields: seq<Field>, key: string, value: Json): (r: seq<Field>)
    ensures Lookup(r, key) == Some(value)
    ensures forall k :: k != key ==> Lookup(r, k) == Lookup(fields, k)
  {
    if fields == [] then [Field(key, value)]
    else if fields[0].key == key then [Field(key, value)] + fields[1..]
    else [fields[0]] + SetKey(fields[1..], key, value)
  }

  /** Writing a key keeps every existing key where it stands and appends
      the key only when it is new. */
  lemma {:induction false} SetKeyKeys(fields: seq<Field>, key: string, value: Json)
    ensures key in Keys(fields) ==> Keys(SetKey(fields, key, value)) == Keys(fields)
    ensures key !in Keys(fields) ==> Keys(SetKey(fields, key, value)) == Keys(fields) + [key]
  {
    if fields != [] && fields[0].key != key {
      var rest := SetKey(fields[1..], key, value);
      SetKeyKeys(fields[1..], key, value);
      var ks := Keys(fields[1..]);
      assert Keys(fields) == [fields[0].key] + ks;
      assert Keys(SetKey(fields, key, value)) == [fields[0].key] + Keys(rest);
      if key in ks {
        assert Keys(rest) == ks;
      } else {
        assert Keys(rest) == ks + [key];
        assert [fields[0].key] + (ks + [key]) == ([fields[0].key] + ks) + [key];
      }
    } else if fields != [] {
      assert Keys(SetKey(fields, key, value)) == Keys(fields);
    }
  }

  lemma DistinctKeysCons(f: Field, rest: seq<Field>)
    requires DistinctKeys(rest) && f.key !in Keys(rest)
    ensures DistinctKeys([f] + rest)
  {
    var r := [f] + rest;
    forall i, j | 0 <= i < j < |r| ensures r[i].key != r[j].key {
      if i == 0 {
        KeysAt(rest, j - 1);
      }
    }
  }

  lemma DistinctKeysTail(fields: seq<Field>)
    requires fields != [] && DistinctKeys(fields)
    ensures DistinctKeys(fields[1..]) && fields[0].key !in Keys(fields[1..])
  {
    forall j | 0 <= j < |fields| - 1 ensures Keys(fields[1..])[j] != fields[0].key {
      KeysAt(fields[1..], j);
    }
  }

  /** In an object with distinct keys, each field's key reads its value. */
  lemma {:induction false} LookupAt(fields: seq<Field>, i: nat)
    requires DistinctKeys(fields) && i < |fields|
    ensures Lookup(fields, fields[i].key) == Some(fields[i].value)
  {
    if i > 0 {
      DistinctKeysTail(fields);
      assert fields[0].key != fields[i].key;
      assert fields[1..][i - 1] == fields[i];
      LookupAt(fields[1..], i - 1);
    }
  }

  /** Two field lists with the same keys in the same order are alike in
      having distinct keys. */
  lemma SameKeysDistinct(a: seq<Field>, b: seq<Field>)
    requires Keys(a) == Keys(b) && DistinctKeys(a)
    ensures DistinctKeys(b)
  {
    forall i, j | 0 <= i < j < |b| ensures b[i].key != b[j].key {
      KeysAt(a, i);
      KeysAt(a, j);
      KeysAt(b, i);
      KeysAt(b, j);
    }
  }

  /** Writing a key keeps the keys of an object distinct. */
  lemma {:induction false} SetKeyDistinct(fields: seq<Field>, key: string, value: Json)
    requires DistinctKeys(fields)
    ensures DistinctKeys(SetKey(fields, key, value))
  {
    if fields != [] && fields[0].key != key {
      SetKeyDistinct(fields[1..], key, value);
      SetKeyKeys(fields[1..], key, value);
      forall j | 0 <= j < |fields| - 1 ensures Keys(fields[1..])[j] != fields[0].key {
        KeysAt(fields[1..], j);
      }
      DistinctKeysCons(fields[0], SetKey(fields[1..], key, value));
    } else if fields != [] {
      forall j | 0 <= j < |fields| - 1 ensures Keys(fields[1..])[j] != key {
        KeysAt(fields[1..], j);
      }
      DistinctKeysCons(Field(key, value), fields[1..]);
    }
  }

  /** `{...a, ...b}`: the fields of `b`, in order, written over those of `a`. */
  function Merge(a: seq<Field>, b: seq<Field>): seq<Field>
    decreases |b|
  {
    if b == [] then a else Merge(SetKey(a, b[0].key, b[0].value), b[1..])
  }

  /** After a shallow merge a key reads from the patch when the patch has
      it and from the original otherwise. */
  lemma {:induction false} MergeLookup(a: seq<Field>, b: seq<Field>, k: string)
    requires DistinctKeys(b)
    ensures Lookup(Merge(a, b), k) == if k in Keys(b) then Lookup(b, k) else Lookup(a, k)
    decreases |b|
  {
    if b != [] {
      DistinctKeysTail(b);
      MergeLookup(SetKey(a, b[0].key, b[0].value), b[1..], k);
    }
  }

  /** A shallow merge keeps the original keys in place, adds only keys of
      the patch, and keeps keys distinct. */
  lemma {:induction false} MergeKeys(a: seq<Field>, b: seq<Field>)
    ensures Keys(a) <= Keys(Merge(a, b))
    ensures forall k :: k in Keys(Merge(a, b)) <==> k in Keys(a) || k in Keys(b)
    ensures DistinctKeys(a) ==> DistinctKeys(Merge(a, b))
    decreases |b|
  {
    if b != [] {
      assert Keys(b) == [b[0].key] + Keys(b[1..]);
      SetKeyKeys(a, b[0].key, b[0].value);
      if DistinctKeys(a) { SetKeyDistinct(a, b[0].key, b[0].value); }
      MergeKeys(SetKey(a, b[0].key, b[0].value), b[1..]);
    }
  }

  /** JavaScript truthiness; `None` is `undefined`. */
  predicate Truthy(v: Option<Json>)
  {
    match v
    case None => false
    case Some(JNull) => false
    case Some(JBool(b)) => b
    case Some(JNum(n)) => n != 0
    case Some(JStr(s)) => s != ""
    case Some(_) => true
  }

  /** `typeof v === 'object' && v !== null`: arrays count as objects. */
  predicate IsObject(v: Json)
  {
    v.JObj? || v.JArr?
  }

  /** The fields of an array viewed as an object: keys "0", "1", ... */
  function IndexedFields(items: seq<Json>): (r: seq<Field>)
    ensures |r| == |items|
    ensures forall i :: 0 <= i < |items| ==> r[i] == Field(NatToString(i), items[i])
  {
    seq(|items|, i requires 0 <= i < |items| => Field(NatToString(i), items[i]))
  }

  /** `Object.entries(v)` and object spread `{...v}`: own enumerable
      properties; a string contributes its characters, other scalars nothing. */
  function OwnEntries(v: Option<Json>): (r: seq<Field>)
    ensures v.Some? && v.value.JObj? ==> r == v.value.fields
    ensures !(v.Some? && (v.value.JObj? || v.value.JArr? || v.value.JStr?)) ==> r == []
  {
    match v
    case Some(JObj(fields)) => fields
    case Some(JArr(items)) => IndexedFields(items)
    case Some(JStr(s)) => seq(|s|, i requires 0 <= i < |s| => Field(NatToString(i), JStr([s[i]])))
    case _ => []
  }

  /** `String(v)`. */
  function JsString(v: Option<Json>): string
  {
    match v
    case None => "undefined"
    case Some(j) => ScalarString(j)
  }

  function ScalarString(j: Json): string
  {
    match j
    case JNull => "null"
    case JBool(b) => if b then "true" else "false"
    case JNum(n) => IntToString(n)
    case JStr(s) => s
    case JArr(items) => JoinElements(items)
    case JObj(_) => "[object Object]"
  }

  /** `Array.prototype.toString`: elements joined by commas, null as empty. */
  function JoinElements(items: seq<Json>): string
    decreases items, 0
  {
    if items == [] then ""
    else
      var first := if items[0] == JNull then "" else ScalarString(items[0]);
      if |items| == 1 then first else first + "," + JoinElements(items[1..])
  }

  function HexDigit(d: nat): char
    requires d < 16
  {
    "0123456789abcdef"[d]
  }

  /** How `JSON.stringify` writes one character inside a string literal. */
  function EscapeChar(c: char): string
  {
    if c == '"' then "\\\""
    else if c == '\\' then "\\\\"
    else if c == '\U{8}' then "\\b"
    else if c == '\U{C}' then "\\f"
    else if c == '\n' then "\\n"
    else if c == '\r' then "\\r"
    else if c == '\t' then "\\t"
    else if (c as int) < 0x20 then "\\u00" + [HexDigit((c as int) / 16), HexDigit((c as int) % 16)]
    else [c]
  }

  function EscapeString(s: string): string
  {
    if s == [] then "" else EscapeChar(s[0]) + EscapeString(s[1..])
  }

  function Quote(s: string): string
  {
    "\"" + EscapeString(s) + "\""
  }

  /** `JSON.stringify(v)` without indentation. */
  function Stringify(v: Json): string
  {
    match v
    case JNull => "null"
    case JBool(b) => if b then "true" else "false"
    case JNum(n) => IntToString(n)
    case JStr(s) => Quote(s)
    case JArr(items) => "[" + StringifyItems(items) + "]"
    case JObj(fields) => "{" + StringifyFields(fields) + "}"
  }

  function StringifyItems(items: seq<Json>): string
    decreases items, 0
  {
    if items == [] then ""
    else if |items| == 1 then Stringify(items[0])
    else Stringify(items[0]) + "," + StringifyItems(items[1..])
  }

  function StringifyFields(fields: seq<Field>): string
    decreases fields, 0
  {
    if fields == [] then ""
    else
      var first := Quote(fields[0].key) + ":" + Stringify(fields[0].value);
      if |fields| == 1 then first else first + "," + StringifyFields(fields[1..])
  }
}
