/**
 What an accepted schema means: a closed record type. A record value has exactly the
 keys of the record, without any list of required keys being consulted, and a leaf value
 is of one kind of JSON value. The meaning shares no test with the validator.
 */
module SchemaMeaning {
  import opened Wrappers
  import opened JsonSchema

  datatype Kind = AnyText | AnyInteger | AnyNumber | AnyBoolean | OnlyNull

  datatype Shape =
    | Nothing
    | Record(fields: map<string, Shape>)
    | ListOf(item: Shape)
    | Leaf(kind: Kind, only: Option<Json>, choices: Option<seq<Json>>, lo: Option<Json>, hi: Option<Json>, factor: Option<Json>)

  function KindOf(t: string): Option<Kind> {
    if t == "string" then Some(AnyText)
    else if t == "integer" then Some(AnyInteger)
    else if t == "number" then Some(AnyNumber)
    else if t == "boolean" then Some(AnyBoolean)
    else if t == "null" then Some(OnlyNull)
    else None
  }

  /** The closed-record reading of an accepted schema. A container type with an `enum` can only have the empty one. */
  function ShapeOf(schema: Json): Shape
    requires DeclaredType(schema).Some?
    decreases schema
  {
    var o := schema.members;
    var t := DeclaredType(schema).value;
    if t == "object" then
      if "enum" in o then Nothing
      else Record(map k | k in Properties(o) :: if DeclaredType(Properties(o)[k]).Some? then ShapeOf(Properties(o)[k]) else Nothing)
    else if t == "array" then
      if "enum" in o then Nothing
      else ListOf(if "items" in o && DeclaredType(o["items"]).Some? then ShapeOf(o["items"]) else Nothing)
    else if KindOf(t).None? then Nothing
    else
      Leaf(KindOf(t).value, Get(o, "const"),
           if "enum" in o && o["enum"].Array? then Some(o["enum"].items) else None,
           Get(o, "minimum"), Get(o, "maximum"), Get(o, "multipleOf"))
  }

  // ---------- values of a shape ----------

  predicate OfKind(v: Json, kind: Kind) {
    match kind
    case AnyText => v.Str?
    case AnyInteger => v.Int?
    case AnyNumber => v.Int? || v.Double?
    case AnyBoolean => v.Bool?
    case OnlyNull => v.Null?
  }

  predicate IsNumber(v: Json) {
    v.Int? || v.Double?
  }

  function Amount(nums: Numerics, v: Json): real
    requires IsNumber(v)
  {
    if v.Int? then nums.toDouble(v.n) else v.d
  }

  /** Equal scalars; an integer and a double are compared as doubles. */
  predicate SameScalar(nums: Numerics, v: Json, w: Json) {
    if v.Int? && w.Int? then v.n == w.n
    else if IsNumber(v) && IsNumber(w) then Amount(nums, v) == Amount(nums, w)
    else v == w && !v.Object? && !v.Array?
  }

  predicate Within(nums: Numerics, v: Json, lo: Option<Json>, hi: Option<Json>, factor: Option<Json>) {
    IsNumber(v) ==>
      && (lo.Some? && IsNumber(lo.value) ==> Amount(nums, lo.value) <= Amount(nums, v))
      && (hi.Some? && IsNumber(hi.value) ==> Amount(nums, v) <= Amount(nums, hi.value))
      && (factor.Some? && IsNumber(factor.value) ==> nums.isMultiple(v, Amount(nums, factor.value)))
  }

  predicate Belongs(nums: Numerics, v: Json, shape: Shape)
    decreases shape
  {
    match shape
    case Nothing => false
    case Record(fields) =>
      v.Object? && v.members.Keys == fields.Keys && forall k :: k in fields ==> k in v.members && Belongs(nums, v.members[k], fields[k])
    case ListOf(item) => v.Array? && forall i :: 0 <= i < |v.items| ==> Belongs(nums, v.items[i], item)
    case Leaf(kind, only, choices, lo, hi, factor) =>
      && OfKind(v, kind)
      && (only.Some? ==> SameScalar(nums, v, only.value))
      && (choices.Some? ==> exists i :: 0 <= i < |choices.value| && SameScalar(nums, v, choices.value[i]))
      && Within(nums, v, lo, hi, factor)
  }

  /** In an accepted container schema `const` is absent and `enum`, if present, is empty. */
  lemma ContainersHaveNoConst(nums: Numerics, schema: Json, root: bool)
    requires NodeShapeOk(nums, schema, root)
    requires DeclaredType(schema).value == "object" || DeclaredType(schema).value == "array"
    ensures "const" !in schema.members
    ensures "enum" in schema.members ==> schema.members["enum"] == Array([])
    ensures !HasBound(schema.members)
  {
    if "enum" in schema.members {
      var values := schema.members["enum"].items;
      var first := if values == [] then Null else values[0];
      assert !ScalarOfType(first, DeclaredType(schema).value);
    }
  }

  lemma RawEqualsOnScalars(nums: Numerics, v: Json, w: Json)
    requires IsScalar(v) && IsScalar(w)
    ensures RawEquals(nums, v, w) <==> SameScalar(nums, v, w)
  {
  }

  lemma KindIsType(v: Json, t: string)
    requires KindOf(t).Some?
    ensures Conforms(v, t) <==> OfKind(v, KindOf(t).value)
  {
  }

  /** The bounds of an accepted leaf schema are numbers, and only numeric types have any. */
  lemma BoundsAgree(nums: Numerics, v: Json, o: map<string, Json>, t: string)
    requires NumericBoundsOk(nums, o, t) && Conforms(v, t) && KindOf(t).Some?
    ensures InBounds(nums, v, o, t) <==> Within(nums, v, Get(o, "minimum"), Get(o, "maximum"), Get(o, "multipleOf"))
  {
  }

  lemma ChoicesAgree(nums: Numerics, v: Json, values: seq<Json>, t: string)
    requires IsScalar(v) && forall i :: 0 <= i < |values| ==> ScalarOfType(values[i], t)
    ensures (exists i :: 0 <= i < |values| && RawEquals(nums, v, values[i])) <==>
            (exists i :: 0 <= i < |values| && SameScalar(nums, v, values[i]))
  {
    forall i | 0 <= i < |values|
      ensures RawEquals(nums, v, values[i]) <==> SameScalar(nums, v, values[i])
    {
      RawEqualsOnScalars(nums, v, values[i]);
    }
  }

  /** A leaf type has no value that is a container, so its instance check looks at no children. */
  lemma LeafInstance(nums: Numerics, v: Json, schema: Json)
    requires DeclaredType(schema).Some? && KindOf(DeclaredType(schema).value).Some?
    ensures InstanceOk(nums, v, schema) <==> LeafTestOk(nums, v, schema.members, DeclaredType(schema).value)
    ensures Conforms(v, DeclaredType(schema).value) <==> OfKind(v, KindOf(DeclaredType(schema).value).value)
  {
    KindIsType(v, DeclaredType(schema).value);
  }

  lemma LeafTestAgrees(nums: Numerics, v: Json, o: map<string, Json>, t: string)
    requires ConstAndEnumOk(o, t) && NumericBoundsOk(nums, o, t) && KindOf(t).Some? && Conforms(v, t)
    ensures LeafTestOk(nums, v, o, t) <==>
              && ("const" in o ==> SameScalar(nums, v, o["const"]))
              && ("enum" in o ==> exists i :: 0 <= i < |o["enum"].items| && SameScalar(nums, v, o["enum"].items[i]))
              && Within(nums, v, Get(o, "minimum"), Get(o, "maximum"), Get(o, "multipleOf"))
  {
    BoundsAgree(nums, v, o, t);
    if "const" in o {
      RawEqualsOnScalars(nums, v, o["const"]);
    }
    if "enum" in o {
      ChoicesAgree(nums, v, o["enum"].items, t);
    }
  }

  lemma LeafAgrees(nums: Numerics, v: Json, schema: Json, root: bool)
    requires NodeShapeOk(nums, schema, root)
    requires DeclaredType(schema).value != "object" && DeclaredType(schema).value != "array"
    ensures InstanceOk(nums, v, schema) <==> Belongs(nums, v, ShapeOf(schema))
  {
    var t := DeclaredType(schema).value;
    LeafInstance(nums, v, schema);
    if Conforms(v, t) {
      LeafTestAgrees(nums, v, schema.members, t);
    }
  }

  lemma {:induction false} RecordAgrees(nums: Numerics, v: Json, schema: Json, root: bool, depth: int)
    requires SchemaOk(nums, schema, root, depth) && DeclaredType(schema).value == "object"
    ensures InstanceOk(nums, v, schema) <==> Belongs(nums, v, ShapeOf(schema))
    decreases schema, 0
  {
    var o := schema.members;
    var properties := Properties(o);
    ContainersHaveNoConst(nums, schema, root);
    if v.Object? && "enum" !in o {
      var fields := ShapeOf(schema).fields;
      assert RequiredPresent(RequiredList(o), v) && NoForeignKeys(properties, v) <==> v.members.Keys == fields.Keys by {
        KeysExact(o, v);
      }
      forall k | k in properties && k in v.members
        ensures InstanceOk(nums, v.members[k], properties[k]) <==> Belongs(nums, v.members[k], fields[k])
      {
        InstanceIsMeaning(nums, v.members[k], properties[k], false, depth + 1);
      }
    }
  }

  /** The required list of an accepted object schema adds nothing to its properties. */
  lemma KeysExact(o: map<string, Json>, v: Json)
    requires ObjectKeywordsOk(o) && v.Object?
    ensures RequiredPresent(RequiredList(o), v) && NoForeignKeys(Properties(o), v) <==> v.members.Keys == Properties(o).Keys
  {
    var required := RequiredList(o);
    if RequiredPresent(required, v) {
      forall k | k in Properties(o)
        ensures k in v.members
      {
        var i :| 0 <= i < |required| && required[i] == Str(k);
      }
    }
  }

  lemma {:induction false} ListAgrees(nums: Numerics, v: Json, schema: Json, root: bool, depth: int)
    requires SchemaOk(nums, schema, root, depth) && DeclaredType(schema).value == "array"
    ensures InstanceOk(nums, v, schema) <==> Belongs(nums, v, ShapeOf(schema))
    decreases schema, 0
  {
    var o := schema.members;
    ContainersHaveNoConst(nums, schema, root);
    if v.Array? && "enum" !in o {
      forall i | 0 <= i < |v.items|
        ensures InstanceOk(nums, v.items[i], o["items"]) <==> Belongs(nums, v.items[i], ShapeOf(schema).item)
      {
        InstanceIsMeaning(nums, v.items[i], o["items"], false, depth + 1);
      }
    }
  }

  /** For every accepted schema the instance check decides membership in its closed-record meaning. */
  lemma {:induction false} InstanceIsMeaning(nums: Numerics, v: Json, schema: Json, root: bool, depth: int)
    requires SchemaOk(nums, schema, root, depth)
    ensures InstanceOk(nums, v, schema) <==> Belongs(nums, v, ShapeOf(schema))
    decreases schema, 1
  {
    if DeclaredType(schema).value == "object" {
      RecordAgrees(nums, v, schema, root, depth);
    } else if DeclaredType(schema).value == "array" {
      ListAgrees(nums, v, schema, root, depth);
    } else {
      LeafAgrees(nums, v, schema, root);
    }
  }

  /** What the bare leaf types accept. */
  lemma LeafTypesMean(nums: Numerics, v: Json, schema: Json)
    requires SchemaOk(nums, schema, true, 1) && DeclaredType(schema).value != "object" && DeclaredType(schema).value != "array"
    requires forall k :: k in {"const", "enum", "minimum", "maximum", "multipleOf"} ==> k !in schema.members
    ensures var t := DeclaredType(schema).value;
            InstanceOk(nums, v, schema) <==>
              || (t == "string" && v.Str?)
              || (t == "boolean" && v.Bool?)
              || (t == "integer" && v.Int?)
              || (t == "number" && (v.Int? || v.Double?))
              || (t == "null" && v.Null?)
  {
    LeafAgrees(nums, v, schema, true);
  }

  /** The shape nests no deeper than so many levels. */
  predicate Nests(shape: Shape, levels: int)
    decreases shape
  {
    && levels >= 1
    && match shape
       case Record(fields) => forall k :: k in fields ==> Nests(fields[k], levels - 1)
       case ListOf(item) => Nests(item, levels - 1)
       case _ => true
  }

  /** What the nesting of a shape depends on: the declared types and the depth of the nodes. */
  predicate Structured(schema: Json, depth: int)
    decreases schema
  {
    && depth <= MAX_DEPTH && DeclaredType(schema).Some?
    && (DeclaredType(schema).value == "object" ==>
          forall k :: k in Properties(schema.members) ==> Structured(Properties(schema.members)[k], depth + 1))
    && (DeclaredType(schema).value == "array" ==> "items" in schema.members && Structured(schema.members["items"], depth + 1))
  }

  lemma {:induction false} AcceptedIsStructured(nums: Numerics, schema: Json, root: bool, depth: int)
    requires SchemaOk(nums, schema, root, depth)
    ensures Structured(schema, depth)
    decreases schema
  {
    var o := schema.members;
    if DeclaredType(schema).value == "object" {
      forall k | k in Properties(o)
        ensures Structured(Properties(o)[k], depth + 1)
      {
        AcceptedIsStructured(nums, Properties(o)[k], false, depth + 1);
      }
    } else if DeclaredType(schema).value == "array" {
      AcceptedIsStructured(nums, o["items"], false, depth + 1);
    }
  }

  lemma {:induction false} StructuredNests(schema: Json, depth: int)
    requires Structured(schema, depth)
    ensures Nests(ShapeOf(schema), MAX_DEPTH - depth + 1)
    decreases schema
  {
    var o, shape := schema.members, ShapeOf(schema);
    if shape.Record? {
      forall k | k in shape.fields
        ensures Nests(shape.fields[k], MAX_DEPTH - depth)
      {
        StructuredNests(Properties(o)[k], depth + 1);
      }
    } else if shape.ListOf? {
      StructuredNests(o["items"], depth + 1);
    }
  }

  /** The shape check bounds the nesting of the shape by the levels left at its depth. */
  lemma AcceptedNests(nums: Numerics, schema: Json, root: bool, depth: int)
    requires SchemaOk(nums, schema, root, depth)
    ensures Nests(ShapeOf(schema), MAX_DEPTH - depth + 1)
  {
    AcceptedIsStructured(nums, schema, root, depth);
    StructuredNests(schema, depth);
  }

  /** A member of a shape is no deeper than the shape nests. */
  lemma {:induction false} DepthFollowsShape(nums: Numerics, v: Json, shape: Shape, levels: nat)
    requires Belongs(nums, v, shape) && Nests(shape, levels)
    ensures JsonDepth(v) <= levels
    decreases shape
  {
    if shape.Record? {
      forall k | k in v.members
        ensures JsonDepth(v.members[k]) <= levels - 1
      {
        DepthFollowsShape(nums, v.members[k], shape.fields[k], levels - 1);
      }
      DepthBound(v, levels - 1);
    } else if shape.ListOf? {
      forall i | 0 <= i < |v.items|
        ensures JsonDepth(v.items[i]) <= levels - 1
      {
        DepthFollowsShape(nums, v.items[i], shape.item, levels - 1);
      }
      DepthBound(v, levels - 1);
    }
  }

  /** The depth guard never rejects what the node check accepts, so the validator decides the meaning alone. */
  lemma ValidatorIsMeaning(nums: Numerics, v: Json, schema: Json)
    requires SchemaOk(nums, schema, true, 1)
    ensures JsonDepth(v) <= MAX_DEPTH && InstanceOk(nums, v, schema) <==> Belongs(nums, v, ShapeOf(schema))
  {
    InstanceIsMeaning(nums, v, schema, true, 1);
    if Belongs(nums, v, ShapeOf(schema)) {
      AcceptedNests(nums, schema, true, 1);
      DepthFollowsShape(nums, v, ShapeOf(schema), MAX_DEPTH);
    }
  }
}
