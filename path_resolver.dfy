/** The path resolver: `lodash/get` along dot-separated segments, and the
    property access `value[segment]` it repeats. Absence is a value
    (`None`), never a failure. */
module PathResolver {
  import opened Wrappers
  import opened Text
  import opened Json

  /** `v[key]` for a value that is neither null nor undefined: an own
      property of an object; an element of an array or a character of a
      string named by its canonical decimal index; the `length` of an
      array or a string. Numbers and booleans have no such properties. */
  function Property(v: Json, key: string): (r: Option<Json>)
    ensures v.JObj? ==> r == Lookup(v.fields, key)
    ensures v.JArr? && key == "length" ==> r == Some(JNum(|v.items|))
    ensures v.JArr? && key != "length" && r.Some? ==> exists i :: 0 <= i < |v.items| && key == NatToString(i) && r.value == v.items[i]
    ensures !v.JObj? && !v.JArr? && !v.JStr? ==> r.None?
  {
    match v
    case JObj(fields) => Lookup(fields, key)
    case JArr(items) =>
      if key == "length" then Some(JNum(|items|))
      else
        (match CanonicalIndex(key)
         case Some(i) => if i < |items| then Some(items[i]) else None
         case None => None)
    case JStr(s) =>
      if key == "length" then Some(JNum(|s|))
      else
        (match CanonicalIndex(key)
         case Some(i) => if i < |s| then Some(JStr([s[i]])) else None
         case None => None)
    case _ => None
  }

  /** Follows `segs` from `v`; reaching null or undefined before the last
      segment gives undefined. */
  function Walk(v: Option<Json>, segs: seq<string>): Option<Json>
    decreases |segs|
  {
    if segs == [] then v
    else if v.None? || v.value.JNull? then None
    else Walk(Property(v.value, segs[0]), segs[1..])
  }

  /** `get(root, path)`: a path the value holds as a key (`path in
      Object(root)`) is read whole, dots and all; any other path is split
      at its dots and walked segment by segment. A path without a dot is
      one segment either way, and an undefined or null root reads as
      undefined. */
  function Get(root: Option<Json>, path: string): (r: Option<Json>)
    ensures '.' !in path ==> r == Walk(root, [path])
    ensures root.None? || root.value.JNull? ==> r.None?
  {
    if root.Some? && !root.value.JNull? && Property(root.value, path).Some? then Property(root.value, path)
    else Walk(root, Split(path, '.'))
  }

  /** An object whose own key is the dotted path "a.b" is read through
      that key, although walking the segments "a", "b" finds nothing. */
  lemma GetDottedKey()
    ensures var root := Some(JObj([Field("a.b", JNum(1))]));
      && Get(root, "a.b") == Some(JNum(1))
      && Walk(root, ["a", "b"]) == None
  {
    var root := Some(JObj([Field("a.b", JNum(1))]));
    assert Property(root.value, "a.b") == Some(JNum(1));
    assert Property(root.value, "a") == None by {
      assert "a" != "a.b";
    }
    assert Walk(None, ["b"]) == None;
  }

  /** Walking a concatenated path is walking its two parts in turn. */
  lemma {:induction false} WalkAppend(v: Option<Json>, a: seq<string>, b: seq<string>)
    ensures Walk(v, a + b) == Walk(Walk(v, a), b)
    decreases |a|
  {
    if a == [] {
      assert a + b == b;
    } else if v.None? || v.value.JNull? {
      assert Walk(v, a) == None;
      assert Walk(None, b) == None by {
        if b != [] { assert Walk(None, b) == None; }
      }
    } else {
      assert (a + b)[1..] == a[1..] + b;
      WalkAppend(Property(v.value, a[0]), a[1..], b);
    }
  }

  /** A path written with dots resolves segment by segment, provided no
      segment itself contains a dot and the value does not hold the whole
      dotted path as a key; a single segment always does. */
  lemma GetJoinedPath(root: Option<Json>, segs: seq<string>)
    requires |segs| >= 1
    requires forall k :: 0 <= k < |segs| ==> '.' !in segs[k]
    ensures |segs| == 1 || root.None? || root.value.JNull? || Property(root.value, Join(segs, '.')).None? ==>
      Get(root, Join(segs, '.')) == Walk(root, segs)
  {
    SplitJoin(segs, '.');
  }

  /** Walking through objects that hold each key in turn reaches the
      innermost value; a missing key anywhere gives undefined. */
  lemma {:induction false} WalkThroughObjects(key: string, inner: Json, rest: seq<string>, outer: seq<Field>)
    requires DistinctKeys(outer) && Lookup(outer, key) == Some(inner)
    ensures Walk(Some(JObj(outer)), [key] + rest) == Walk(Some(inner), rest)
  {
    assert ([key] + rest)[1..] == rest;
  }

  lemma {:induction false} WalkMissingKey(fields: seq<Field>, key: string, rest: seq<string>)
    requires key !in Keys(fields)
    ensures Walk(Some(JObj(fields)), [key] + rest) == None
  {
    assert ([key] + rest)[1..] == rest;
    if rest != [] {
      assert Walk(None, rest) == None;
    }
  }
}
