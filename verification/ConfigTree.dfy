/** YAML configuration trees and `flatten`, which turns a tree into a table from paths to leaves. */
module ConfigTree {
  import opened Wrappers
  import opened Decimals
  import opened StringOrder

  datatype Scalar = Null | Bool(flag: bool) | Int(n: int) | Float(r: real) | Text(text: string)

  datatype Yaml =
    | Scalar(scalar: Scalar)
    | List(items: seq<Yaml>)
    | Map(entries: map<string, Yaml>)

  type Table = map<string, Yaml>

  // ---------- Python equality ----------

  function NumericValue(s: Scalar): Option<real> {
    match s
    case Bool(b) => Some(if b then 1.0 else 0.0)
    case Int(n) => Some(n as real)
    case Float(r) => Some(r)
    case _ => None
  }

  /** `==` on scalars: numbers and booleans compare by value. */
  predicate ScalarEq(x: Scalar, y: Scalar) {
    x == y || (NumericValue(x).Some? && NumericValue(x) == NumericValue(y))
  }

  /** `==` on trees. */
  predicate PyEq(a: Yaml, b: Yaml) {
    match (a, b)
    case (Scalar(x), Scalar(y)) => ScalarEq(x, y)
    case (List(xs), List(ys)) => |xs| == |ys| && forall i :: 0 <= i < |xs| ==> PyEq(xs[i], ys[i])
    case (Map(m), Map(n)) => m.Keys == n.Keys && forall k :: k in m ==> k in n && PyEq(m[k], n[k])
    case _ => false
  }

  // ---------- flatten ----------

  function KeyPath(prefix: string, key: string): string {
    if prefix != "" then prefix + "." + key else key
  }

  function IndexPath(prefix: string, i: nat): string {
    prefix + "[" + Decimal(i) + "]"
  }

  predicate IsLeaf(v: Yaml) {
    v.Scalar? || (v.List? && v.items == []) || (v.Map? && v.entries == map[])
  }

  function Flatten(v: Yaml, prefix: string): Table
    decreases v, 1, 0
  {
    if IsLeaf(v) then map[prefix := v]
    else if v.Map? then FlattenEntries(v, Sorted(v.entries.Keys), prefix)
    else FlattenItems(v, |v.items|, prefix)
  }

  /** The entries named by `keys`, later ones overriding earlier ones. */
  function FlattenEntries(v: Yaml, keys: seq<string>, prefix: string): Table
    requires v.Map? && forall k :: k in keys ==> k in v.entries
    decreases v, 0, |keys|
  {
    if keys == [] then map[]
    else
      var last := keys[|keys| - 1];
      FlattenEntries(v, keys[..|keys| - 1], prefix) + Flatten(v.entries[last], KeyPath(prefix, last))
  }

  /** The first `n` items. */
  function FlattenItems(v: Yaml, n: nat, prefix: string): Table
    requires v.List? && n <= |v.items|
    decreases v, 0, n
  {
    if n == 0 then map[]
    else FlattenItems(v, n - 1, prefix) + Flatten(v.items[n - 1], IndexPath(prefix, n - 1))
  }

  lemma FlattenEntriesStep(v: Yaml, keys: seq<string>, i: nat, prefix: string)
    requires v.Map? && i < |keys| && forall k :: k in keys ==> k in v.entries
    ensures FlattenEntries(v, keys[..i + 1], prefix) ==
            FlattenEntries(v, keys[..i], prefix) + Flatten(v.entries[keys[i]], KeyPath(prefix, keys[i]))
  {
    assert keys[..i + 1][..i] == keys[..i];
  }

  method FlattenTree(v: Yaml, prefix: string) returns (out: Table)
    ensures out == Flatten(v, prefix)
    decreases v
  {
    match v
    case Map(entries) =>
      if entries == map[] {
        return map[prefix := v];
      }
      out := map[];
      var keys := Sorted(entries.Keys);
      assert keys[..|keys|] == keys;
      for i := 0 to |keys|
        invariant out == FlattenEntries(v, keys[..i], prefix)
      {
        FlattenEntriesStep(v, keys, i, prefix);
        var child := FlattenTree(entries[keys[i]], KeyPath(prefix, keys[i]));
        out := out + child;
      }
    case List(items) =>
      if items == [] {
        return map[prefix := v];
      }
      out := map[];
      for i := 0 to |items|
        invariant out == FlattenItems(v, i, prefix)
      {
        var child := FlattenTree(items[i], IndexPath(prefix, i));
        out := out + child;
      }
    case Scalar(_) =>
      out := map[prefix := v];
  }
}
