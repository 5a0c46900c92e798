/**
 * The parsed YAML configuration and `getNestedValue`, the lookup of a
 * setting along a path of keys that falls back to a default.
 */
module Config {
  import opened Wrappers

  /** A YAML document as `yaml.safe_load` returns it (mapping keys are strings). */
  datatype Yaml =
    | YStr(s: string)
    | YNum(n: real)
    | YBool(b: bool)
    | YNull
    | YList(items: seq<Yaml>)
    | YMap(fields: map<string, Yaml>)

  /** One subscript `obj[index]`: a mapping key or a list/string position. */
  datatype Key = Field(name: string) | Index(i: int)

  /** Python's position rule: `-len <= i < len`, negative positions count from the end. */
  function Position(i: int, len: nat): (r: Option<nat>)
    ensures r.Some? <==> 0 <= i + len && i < len
    ensures r.Some? ==> r.value < len && (r.value == i || r.value == i + len)
  {
    if 0 <= i < len then Some(i) else if 0 <= i + len && i < 0 then Some(i + len) else None
  }

  /**
   * `obj[index]`, or None where Python raises (missing key, position out
   * of range, or a value that cannot be subscripted that way).
   */
  function Step(obj: Yaml, k: Key): (r: Option<Yaml>)
    ensures r.Some? <==>
      (obj.YMap? && k.Field? && k.name in obj.fields) ||
      (obj.YList? && k.Index? && -|obj.items| <= k.i < |obj.items|) ||
      (obj.YStr? && k.Index? && -|obj.s| <= k.i < |obj.s|)
    ensures r.Some? && obj.YMap? ==> r.value == obj.fields[k.name]
    ensures r.Some? && obj.YList? ==> r.value == obj.items[Position(k.i, |obj.items|).value]
    ensures r.Some? && obj.YStr? ==> r.value == YStr([obj.s[Position(k.i, |obj.s|).value]])
  {
    match (obj, k)
    case (YMap(fields), Field(name)) =>
      if name in fields then Some(fields[name]) else None
    case (YList(items), Index(i)) =>
      (match Position(i, |items|)
       case Some(p) => Some(items[p])
       case None => None)
    case (YStr(s), Index(i)) =>
      (match Position(i, |s|)
       case Some(p) => Some(YStr([s[p]]))
       case None => None)
    case _ => None
  }

  /** The node reached by subscripting through every key of `path`, if every step succeeds. */
  function Lookup(obj: Yaml, path: seq<Key>): Option<Yaml>
    decreases |path|
  {
    if path == [] then Some(obj)
    else match Step(obj, path[0])
      case None => None
      case Some(next) => Lookup(next, path[1..])
  }

  /** A two-key path is two subscripts in a row. */
  lemma LookupPair(obj: Yaml, a: Key, b: Key)
    ensures Lookup(obj, [a, b]) ==
      match Step(obj, a)
      case None => None
      case Some(mid) => Step(mid, b)
  {
    assert [a, b][1..] == [b];
    assert [b][1..] == [];
    match Step(obj, a)
    case None =>
    case Some(mid) =>
      assert Lookup(mid, [b]) == (match Step(mid, b) case None => None case Some(v) => Lookup(v, []));
  }

  /** `getNestedValue(obj, *path, default=default)`. */
  method GetNestedValue(obj: Yaml, path: seq<Key>, default: Yaml) returns (r: Yaml)
    ensures path == [] ==> r == obj
    ensures Lookup(obj, path).Some? ==> r == Lookup(obj, path).value
    ensures Lookup(obj, path).None? ==> r == default
  {
    var cur := obj;
    for i := 0 to |path|
      invariant Lookup(obj, path) == Lookup(cur, path[i..])
    {
      var next := Step(cur, path[i]);
      if next.None? {
        return default;
      }
      assert path[i..][1..] == path[i + 1..];
      cur := next.value;
    }
    r := cur;
  }

  /** A path of two parts is looked up by looking up the first, then the second from there. */
  lemma {:induction false} LookupAppend(obj: Yaml, p: seq<Key>, q: seq<Key>)
    ensures Lookup(obj, p + q) ==
      match Lookup(obj, p)
      case None => None
      case Some(mid) => Lookup(mid, q)
    decreases |p|
  {
    if p == [] {
      assert p + q == q;
    } else {
      assert (p + q)[0] == p[0];
      assert (p + q)[1..] == p[1..] + q;
      match Step(obj, p[0])
      case None =>
      case Some(next) => LookupAppend(next, p[1..], q);
    }
  }

  /** As soon as one step fails, the whole lookup fails, whatever keys follow. */
  lemma LookupStopsAtFailedStep(obj: Yaml, path: seq<Key>, i: nat, mid: Yaml)
    requires i < |path|
    requires Lookup(obj, path[..i]) == Some(mid)
    requires Step(mid, path[i]) == None
    ensures Lookup(obj, path) == None
  {
    assert path == path[..i] + path[i..];
    LookupAppend(obj, path[..i], path[i..]);
  }

  /** A lookup that succeeds passes through a node at every prefix of the path. */
  lemma LookupPrefixSucceeds(obj: Yaml, path: seq<Key>, i: nat)
    requires i <= |path|
    requires Lookup(obj, path).Some?
    ensures Lookup(obj, path[..i]).Some?
    ensures Lookup(Lookup(obj, path[..i]).value, path[i..]) == Lookup(obj, path)
  {
    assert path == path[..i] + path[i..];
    LookupAppend(obj, path[..i], path[i..]);
  }
}
