/** JSON values and the strict schema subset of `JSONSchemaValidator`, as the validator reads them. */
module JsonSchema {
  import opened Wrappers
  import opened StringOrder

  datatype Json =
    | Object(members: map<string, Json>)
    | Array(items: seq<Json>)
    | Str(text: string)
    | Int(n: int)
    | Double(d: real)
    | Bool(b: bool)
    | Null

  /**
   The floating-point facts the validator relies on, left open: conversion of an
   integer, the `multipleOf` test with its tolerance, and the least supported factor.
   */
  datatype Numerics = Numerics(toDouble: int -> real, isMultiple: (Json, real) -> bool, leastFactor: real)

  const MAX_DEPTH := 32

  const ALLOWED_KEYWORDS: set<string> := {
    "type", "properties", "required", "items", "enum", "const", "additionalProperties",
    "title", "description", "minimum", "maximum", "multipleOf"
  }

  const TYPES: set<string> := {"object", "array", "string", "number", "integer", "boolean", "null"}

  function Get(m: map<string, Json>, key: string): Option<Json> {
    if key in m then Some(m[key]) else None
  }

  // ---------- scalars ----------

  predicate Conforms(v: Json, t: string) {
    match v
    case Object(_) => t == "object"
    case Array(_) => t == "array"
    case Str(_) => t == "string"
    case Int(_) => t == "integer" || t == "number"
    case Double(_) => t == "number"
    case Bool(_) => t == "boolean"
    case Null => t == "null"
  }

  predicate IsScalar(v: Json) {
    !v.Object? && !v.Array?
  }

  /** `jsonValueEqualsRaw`. */
  predicate RawEquals(nums: Numerics, x: Json, y: Json) {
    match (x, y)
    case (Str(s), Str(t)) => s == t
    case (Int(i), Int(j)) => i == j
    case (Double(c), Double(d)) => c == d
    case (Int(i), Double(d)) => nums.toDouble(i) == d
    case (Double(c), Int(j)) => c == nums.toDouble(j)
    case (Bool(b), Bool(c)) => b == c
    case (Null, Null) => true
    case (Array(xs), Array(ys)) => |xs| == |ys| && forall i :: 0 <= i < |xs| ==> RawEquals(nums, xs[i], ys[i])
    case (Object(m), Object(n)) => |m| == |n| && forall k :: k in m ==> k in n && RawEquals(nums, m[k], n[k])
    case _ => false
  }

  lemma EqualKeys(m: map<string, Json>, n: map<string, Json>)
    requires |m| == |n| && forall k :: k in m ==> k in n
    ensures m.Keys == n.Keys
  {
    assert n.Keys == m.Keys + (n.Keys - m.Keys);
    assert |n.Keys| == |m.Keys| + |n.Keys - m.Keys|;
  }

  /** The comparison checks the keys of one side only, yet it is symmetric. */
  lemma {:induction false} RawEqualsSymmetric(nums: Numerics, x: Json, y: Json)
    requires RawEquals(nums, x, y)
    ensures RawEquals(nums, y, x)
  {
    match (x, y)
    case (Array(xs), Array(ys)) =>
      forall i | 0 <= i < |xs|
        ensures RawEquals(nums, ys[i], xs[i])
      {
        RawEqualsSymmetric(nums, xs[i], ys[i]);
      }
    case (Object(m), Object(n)) =>
      EqualKeys(m, n);
      forall k | k in n
        ensures k in m && RawEquals(nums, n[k], m[k])
      {
        RawEqualsSymmetric(nums, m[k], n[k]);
      }
    case _ =>
  }

  // ---------- depth ----------

  function Max(x: nat, y: nat): nat {
    if x < y then y else x
  }

  function JsonDepth(v: Json): nat
    decreases v, 1, 0
  {
    match v
    case Object(members) => 1 + MembersDepth(v, Sorted(members.Keys))
    case Array(items) => 1 + ItemsDepth(v, |items|)
    case _ => 1
  }

  function MembersDepth(v: Json, keys: seq<string>): nat
    requires v.Object? && forall i :: 0 <= i < |keys| ==> keys[i] in v.members
    decreases v, 0, |keys|
  {
    if keys == [] then 0 else Max(JsonDepth(v.members[keys[0]]), MembersDepth(v, keys[1..]))
  }

  function ItemsDepth(v: Json, n: nat): nat
    requires v.Array? && n <= |v.items|
    decreases v, 0, n
  {
    if n == 0 then 0 else Max(JsonDepth(v.items[n - 1]), ItemsDepth(v, n - 1))
  }

  lemma {:induction false} MembersDepthBound(v: Json, keys: seq<string>, bound: nat)
    requires v.Object? && forall i :: 0 <= i < |keys| ==> keys[i] in v.members
    ensures MembersDepth(v, keys) <= bound <==> forall i :: 0 <= i < |keys| ==> JsonDepth(v.members[keys[i]]) <= bound
    decreases |keys|
  {
    if keys != [] {
      MembersDepthBound(v, keys[1..], bound);
      assert forall i :: 0 <= i < |keys| - 1 ==> keys[1..][i] == keys[i + 1];
      assert forall i :: 0 < i < |keys| ==> keys[i] == keys[1..][i - 1];
    }
  }

  lemma {:induction false} ItemBelowDeepest(v: Json, n: nat, i: nat)
    requires v.Array? && i < n <= |v.items|
    ensures JsonDepth(v.items[i]) <= ItemsDepth(v, n)
    decreases n
  {
    if i < n - 1 {
      ItemBelowDeepest(v, n - 1, i);
    }
  }

  lemma {:induction false} DeepestIsAnItem(v: Json, n: nat) returns (i: nat)
    requires v.Array? && 0 < n <= |v.items|
    ensures i < n && JsonDepth(v.items[i]) == ItemsDepth(v, n)
    decreases n
  {
    i := n - 1;
    if JsonDepth(v.items[n - 1]) < ItemsDepth(v, n - 1) {
      i := DeepestIsAnItem(v, n - 1);
    }
  }

  lemma ItemsDepthBound(v: Json, n: nat, bound: nat)
    requires v.Array? && n <= |v.items|
    ensures ItemsDepth(v, n) <= bound <==> forall i :: 0 <= i < n ==> JsonDepth(v.items[i]) <= bound
  {
    if ItemsDepth(v, n) <= bound {
      forall i | 0 <= i < n
        ensures JsonDepth(v.items[i]) <= bound
      {
        ItemBelowDeepest(v, n, i);
      }
    } else {
      var i := DeepestIsAnItem(v, n);
    }
  }

  /** What the depth of a container says about its children, and the other way round. */
  lemma DepthBound(v: Json, bound: nat)
    ensures v.Object? ==> (JsonDepth(v) <= bound + 1 <==> forall k :: k in v.members ==> JsonDepth(v.members[k]) <= bound)
    ensures v.Array? ==> (JsonDepth(v) <= bound + 1 <==> forall i :: 0 <= i < |v.items| ==> JsonDepth(v.items[i]) <= bound)
  {
    if v.Object? {
      var keys := Sorted(v.members.Keys);
      assert forall i :: 0 <= i < |keys| ==> keys[i] in keys;
      MembersDepthBound(v, keys, bound);
      assert forall k :: k in v.members ==> k in keys;
    }
    if v.Array? {
      ItemsDepthBound(v, |v.items|, bound);
    }
  }

  // ---------- what the two checks accept ----------

  function NumericValue(nums: Numerics, v: Json): Option<real> {
    match v
    case Int(n) => Some(nums.toDouble(n))
    case Double(d) => Some(d)
    case _ => None
  }

  predicate NumericType(t: string) {
    t == "number" || t == "integer"
  }

  /** A bound that is present is a number. */
  predicate BoundIsNumber(o: map<string, Json>, keyword: string) {
    keyword in o ==> o[keyword].Int? || o[keyword].Double?
  }

  predicate HasBound(o: map<string, Json>) {
    "minimum" in o || "maximum" in o || "multipleOf" in o
  }

  predicate BoundsAreNumbers(o: map<string, Json>) {
    BoundIsNumber(o, "minimum") && BoundIsNumber(o, "maximum") && BoundIsNumber(o, "multipleOf")
  }

  function BoundValue(nums: Numerics, o: map<string, Json>, keyword: string): Option<real> {
    if keyword in o then NumericValue(nums, o[keyword]) else None
  }

  predicate NumericBoundsOk(nums: Numerics, o: map<string, Json>, t: string) {
    HasBound(o) ==>
      && NumericType(t) && BoundsAreNumbers(o)
      && (var factor := BoundValue(nums, o, "multipleOf"); factor.Some? ==> factor.value > 0.0 && factor.value > nums.leastFactor)
      && (var lo, hi := BoundValue(nums, o, "minimum"), BoundValue(nums, o, "maximum");
          lo.Some? && hi.Some? ==> lo.value <= hi.value)
  }

  predicate ScalarOfType(v: Json, t: string) {
    IsScalar(v) && Conforms(v, t)
  }

  predicate ConstAndEnumOk(o: map<string, Json>, t: string) {
    && ("const" in o ==> ScalarOfType(o["const"], t))
    && ("enum" in o ==> o["enum"].Array? && forall i :: 0 <= i < |o["enum"].items| ==> ScalarOfType(o["enum"].items[i], t))
  }

  /** The properties of an object schema: none if the keyword is absent. */
  function Properties(o: map<string, Json>): map<string, Json> {
    if "properties" in o && o["properties"].Object? then o["properties"].members else map[]
  }

  /** Each required entry is a string, names a property, and appears once. */
  predicate RequiredOk(required: seq<Json>, properties: map<string, Json>) {
    && (forall i :: 0 <= i < |required| ==> required[i].Str? && required[i].text in properties)
    && (forall i, j :: 0 <= i < j < |required| ==> required[i] != required[j])
  }

  function RequiredList(o: map<string, Json>): seq<Json> {
    if "required" in o && o["required"].Array? then o["required"].items else []
  }

  predicate ObjectKeywordsOk(o: map<string, Json>) {
    && "additionalProperties" in o && o["additionalProperties"] == Bool(false)
    && "items" !in o
    && ("properties" in o ==> o["properties"].Object?)
    && ("required" in o ==> o["required"].Array?)
    && RequiredOk(RequiredList(o), Properties(o))
    && forall k :: k in Properties(o) ==> Str(k) in RequiredList(o)
  }

  predicate ArrayKeywordsOk(o: map<string, Json>) {
    && "items" in o && o["items"].Object?
    && "properties" !in o && "required" !in o && "additionalProperties" !in o
  }

  predicate LeafKeywordsOk(o: map<string, Json>) {
    "properties" !in o && "required" !in o && "items" !in o && "additionalProperties" !in o
  }

  predicate KeywordsAllowed(o: map<string, Json>, root: bool) {
    forall k :: k in o ==> k in ALLOWED_KEYWORDS || (root && k == "$schema")
  }

  /** The type of a schema node, if it declares a string. */
  function DeclaredType(schema: Json): Option<string> {
    if schema.Object? && "type" in schema.members && schema.members["type"].Str? then Some(schema.members["type"].text) else None
  }

  /** Everything `validateSchemaNode` checks of a node except its children. */
  predicate NodeShapeOk(nums: Numerics, schema: Json, root: bool) {
    && schema.Object? && KeywordsAllowed(schema.members, root)
    && DeclaredType(schema).Some? && DeclaredType(schema).value in TYPES
    && ConstAndEnumOk(schema.members, DeclaredType(schema).value)
    && NumericBoundsOk(nums, schema.members, DeclaredType(schema).value)
    && (if DeclaredType(schema).value == "object" then ObjectKeywordsOk(schema.members)
        else if DeclaredType(schema).value == "array" then ArrayKeywordsOk(schema.members)
        else LeafKeywordsOk(schema.members))
  }

  /** `validateSchemaNode` accepts. */
  predicate SchemaOk(nums: Numerics, schema: Json, root: bool, depth: int)
    decreases schema
  {
    && depth <= MAX_DEPTH && NodeShapeOk(nums, schema, root)
    && (DeclaredType(schema).value == "object" ==>
          forall k :: k in Properties(schema.members) ==> SchemaOk(nums, Properties(schema.members)[k], false, depth + 1))
    && (DeclaredType(schema).value == "array" ==> SchemaOk(nums, schema.members["items"], false, depth + 1))
  }

  predicate InBounds(nums: Numerics, v: Json, o: map<string, Json>, t: string) {
    var x := NumericValue(nums, v);
    NumericType(t) && x.Some? ==>
      && BoundsAreNumbers(o)
      && (var lo := BoundValue(nums, o, "minimum"); lo.Some? ==> lo.value <= x.value)
      && (var hi := BoundValue(nums, o, "maximum"); hi.Some? ==> x.value <= hi.value)
      && (var factor := BoundValue(nums, o, "multipleOf"); factor.Some? ==> nums.isMultiple(v, factor.value))
  }

  predicate EnumOk(nums: Numerics, v: Json, o: map<string, Json>) {
    "enum" in o && o["enum"].Array? ==> exists i :: 0 <= i < |o["enum"].items| && RawEquals(nums, v, o["enum"].items[i])
  }

  /** The checks on a node that do not look at its children. */
  predicate LeafTestOk(nums: Numerics, v: Json, o: map<string, Json>, t: string) {
    && Conforms(v, t)
    && ("const" in o ==> RawEquals(nums, v, o["const"]))
    && EnumOk(nums, v, o)
    && InBounds(nums, v, o, t)
  }

  predicate RequiredPresent(required: seq<Json>, v: Json)
    requires v.Object?
  {
    forall i :: 0 <= i < |required| ==> required[i].Str? && required[i].text in v.members
  }

  predicate NoForeignKeys(properties: map<string, Json>, v: Json)
    requires v.Object?
  {
    forall k :: k in v.members ==> k in properties
  }

  /** `validateInstanceNode` accepts. */
  predicate InstanceOk(nums: Numerics, v: Json, schema: Json)
    decreases schema, v
  {
    && DeclaredType(schema).Some?
    && LeafTestOk(nums, v, schema.members, DeclaredType(schema).value)
    && (v.Object? ==>
          var properties := Properties(schema.members);
          && RequiredPresent(RequiredList(schema.members), v)
          && NoForeignKeys(properties, v)
          && forall k :: k in properties && k in v.members ==> InstanceOk(nums, v.members[k], properties[k]))
    && (v.Array? && "items" in schema.members ==>
          forall i :: 0 <= i < |v.items| ==> InstanceOk(nums, v.items[i], schema.members["items"]))
  }
}
