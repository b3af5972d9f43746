/**
 Accepted schemas as a notation for types: every type that nests at most 32 levels has an accepted
 schema that reads back as that type, and every accepted schema reads as such a type.
 */
module SchemaNotation {
  import opened Wrappers
  import opened StringOrder
  import opened JsonSchema
  import opened SchemaMeaning

  // ---------- types that can be written ----------

  predicate LimitsFit(nums: Numerics, kind: Kind, lo: Option<Json>, hi: Option<Json>, factor: Option<Json>) {
    && (lo.Some? || hi.Some? || factor.Some? ==> kind.AnyInteger? || kind.AnyNumber?)
    && (lo.Some? ==> IsNumber(lo.value)) && (hi.Some? ==> IsNumber(hi.value)) && (factor.Some? ==> IsNumber(factor.value))
    && (lo.Some? && hi.Some? ==> Amount(nums, lo.value) <= Amount(nums, hi.value))
    && (factor.Some? ==> Amount(nums, factor.value) > 0.0 && Amount(nums, factor.value) > nums.leastFactor)
  }

  /** Constants and choices are of the leaf's own kind, and limits are those of numbers. */
  predicate Fits(nums: Numerics, shape: Shape)
    decreases shape
  {
    match shape
    case Nothing => true
    case Record(fields) => forall k :: k in fields ==> Fits(nums, fields[k])
    case ListOf(item) => Fits(nums, item)
    case Leaf(kind, only, choices, lo, hi, factor) =>
      && (only.Some? ==> OfKind(only.value, kind))
      && (choices.Some? ==> forall i :: 0 <= i < |choices.value| ==> OfKind(choices.value[i], kind))
      && LimitsFit(nums, kind, lo, hi, factor)
  }

  // ---------- writing a type ----------

  function TypeName(kind: Kind): string {
    match kind
    case AnyText => "string"
    case AnyInteger => "integer"
    case AnyNumber => "number"
    case AnyBoolean => "boolean"
    case OnlyNull => "null"
  }

  function Strings(keys: seq<string>): (r: seq<Json>)
    ensures |r| == |keys| && forall i :: 0 <= i < |keys| ==> r[i] == Str(keys[i])
  {
    seq(|keys|, i requires 0 <= i < |keys| => Str(keys[i]))
  }

  function ArrayOf(values: Option<seq<Json>>): Option<Json> {
    if values.None? then None else Some(Array(values.value))
  }

  /** What a leaf says under a keyword, if anything. */
  function Given(leaf: Shape, keyword: string): Option<Json>
    requires leaf.Leaf?
  {
    if keyword == "type" then Some(Str(TypeName(leaf.kind)))
    else if keyword == "const" then leaf.only
    else if keyword == "enum" then ArrayOf(leaf.choices)
    else if keyword == "minimum" then leaf.lo
    else if keyword == "maximum" then leaf.hi
    else if keyword == "multipleOf" then leaf.factor
    else None
  }

  function LeafNode(leaf: Shape): map<string, Json>
    requires leaf.Leaf?
  {
    map k | k in {"type", "const", "enum", "minimum", "maximum", "multipleOf"} && Given(leaf, k).Some? :: Given(leaf, k).value
  }

  function RecordNode(properties: map<string, Json>): map<string, Json> {
    map["type" := Str("object"), "properties" := Object(properties),
        "required" := Array(Strings(Sorted(properties.Keys))), "additionalProperties" := Bool(false)]
  }

  function ListNode(item: Json): map<string, Json> {
    map["type" := Str("array"), "items" := item]
  }

  const NOTHING_NODE: map<string, Json> :=
    map["type" := Str("object"), "enum" := Array([]), "additionalProperties" := Bool(false)]

  function SchemaFor(shape: Shape): (schema: Json)
    ensures schema.Object?
    decreases shape, 1
  {
    match shape
    case Nothing => Object(NOTHING_NODE)
    case Record(_) => Object(RecordNode(Written(shape)))
    case ListOf(item) => Object(ListNode(SchemaFor(item)))
    case Leaf(_, _, _, _, _, _) => Object(LeafNode(shape))
  }

  function Written(shape: Shape): (r: map<string, Json>)
    requires shape.Record?
    ensures r.Keys == shape.fields.Keys
    decreases shape, 0
  {
    map k | k in shape.fields :: SchemaFor(shape.fields[k])
  }

  // ---------- schemas of a type ----------

  /** What a record node holds. */
  predicate RecordFacts(o: map<string, Json>, properties: map<string, Json>) {
    && o.Keys == {"type", "properties", "required", "additionalProperties"}
    && DeclaredType(Object(o)) == Some("object") && Properties(o) == properties && o["properties"].Object?
    && o["required"].Array? && RequiredList(o) == Strings(Sorted(properties.Keys))
    && o["additionalProperties"] == Bool(false)
  }

  lemma RecordNodeHolds(properties: map<string, Json>)
    ensures RecordFacts(RecordNode(properties), properties)
  {
  }

  lemma RecordReadsBack(o: map<string, Json>, properties: map<string, Json>)
    requires RecordFacts(o, properties) && forall k :: k in properties ==> DeclaredType(properties[k]).Some?
    ensures ShapeOf(Object(o)) == Record(map k | k in properties :: ShapeOf(properties[k]))
  {
    assert "enum" !in o;
    var shape := ShapeOf(Object(o));
    assert shape.Record? && shape.fields.Keys == properties.Keys;
    assert forall k :: k in properties ==> shape.fields[k] == ShapeOf(properties[k]);
  }

  /** The schema is written for this type. */
  predicate Notes(schema: Json, shape: Shape)
    decreases shape
  {
    && schema.Object?
    && match shape
       case Nothing => schema.members == NOTHING_NODE
       case Leaf(_, _, _, _, _, _) => schema.members == LeafNode(shape)
       case ListOf(item) =>
         "items" in schema.members && schema.members == ListNode(schema.members["items"]) && Notes(schema.members["items"], item)
       case Record(fields) =>
         var properties := Properties(schema.members);
         && RecordFacts(schema.members, properties) && properties.Keys == fields.Keys
         && forall k :: k in fields ==> k in properties && Notes(properties[k], fields[k])
  }

  lemma {:induction false} SchemaForNotes(shape: Shape)
    ensures Notes(SchemaFor(shape), shape)
    decreases shape
  {
    match shape
    case Nothing =>
    case Leaf(_, _, _, _, _, _) =>
    case ListOf(item) => SchemaForNotes(item);
    case Record(fields) =>
      var properties := Written(shape);
      RecordNodeHolds(properties);
      forall k | k in fields
        ensures Notes(properties[k], fields[k])
      {
        SchemaForNotes(fields[k]);
      }
  }

  // ---------- reading it back ----------

  lemma LeafNodeHolds(leaf: Shape, keyword: string)
    requires leaf.Leaf?
    ensures Get(LeafNode(leaf), keyword) == Given(leaf, keyword)
  {
  }

  lemma LeafReadsBack(leaf: Shape)
    requires leaf.Leaf?
    ensures DeclaredType(Object(LeafNode(leaf))) == Some(TypeName(leaf.kind)) && ShapeOf(Object(LeafNode(leaf))) == leaf
  {
    LeafNodeHolds(leaf, "type");
    LeafNodeHolds(leaf, "const");
    LeafNodeHolds(leaf, "enum");
    LeafNodeHolds(leaf, "minimum");
    LeafNodeHolds(leaf, "maximum");
    LeafNodeHolds(leaf, "multipleOf");
  }

  lemma NothingReadsBack()
    ensures DeclaredType(Object(NOTHING_NODE)).Some? && ShapeOf(Object(NOTHING_NODE)) == Nothing
  {
  }

  lemma ListReadsBack(item: Json)
    requires DeclaredType(item).Some?
    ensures DeclaredType(Object(ListNode(item))).Some? && ShapeOf(Object(ListNode(item))) == ListOf(ShapeOf(item))
  {
  }

  lemma FieldsRead(properties: map<string, Json>, fields: map<string, Shape>)
    requires properties.Keys == fields.Keys
    requires forall k :: k in properties ==> DeclaredType(properties[k]).Some? && ShapeOf(properties[k]) == fields[k]
    ensures (map k | k in properties :: ShapeOf(properties[k])) == fields
  {
  }

  lemma {:induction false} NotesRead(schema: Json, shape: Shape)
    requires Notes(schema, shape)
    ensures DeclaredType(schema).Some? && ShapeOf(schema) == shape
    decreases shape
  {
    var o := schema.members;
    match shape
    case Nothing => NothingReadsBack();
    case Leaf(_, _, _, _, _, _) => LeafReadsBack(shape);
    case ListOf(item) =>
      NotesRead(o["items"], item);
      ListReadsBack(o["items"]);
    case Record(fields) =>
      var properties := Properties(o);
      forall k | k in properties
        ensures DeclaredType(properties[k]).Some? && ShapeOf(properties[k]) == fields[k]
      {
        NotesRead(properties[k], fields[k]);
      }
      RecordReadsBack(o, properties);
      FieldsRead(properties, fields);
  }

  /** The schema written for a type reads as that type. */
  lemma NotationReadsBack(shape: Shape)
    ensures DeclaredType(SchemaFor(shape)).Some? && ShapeOf(SchemaFor(shape)) == shape
  {
    SchemaForNotes(shape);
    NotesRead(SchemaFor(shape), shape);
  }

  // ---------- it is accepted ----------

  lemma LeafConstants(nums: Numerics, leaf: Shape)
    requires leaf.Leaf? && Fits(nums, leaf)
    ensures ConstAndEnumOk(LeafNode(leaf), TypeName(leaf.kind))
  {
    LeafNodeHolds(leaf, "const");
    LeafNodeHolds(leaf, "enum");
    forall v | OfKind(v, leaf.kind)
      ensures ScalarOfType(v, TypeName(leaf.kind))
    {
      KindIsType(v, TypeName(leaf.kind));
    }
  }

  lemma LeafLimits(nums: Numerics, leaf: Shape)
    requires leaf.Leaf? && Fits(nums, leaf)
    ensures NumericBoundsOk(nums, LeafNode(leaf), TypeName(leaf.kind))
  {
    LeafNodeHolds(leaf, "minimum");
    LeafNodeHolds(leaf, "maximum");
    LeafNodeHolds(leaf, "multipleOf");
  }

  lemma LeafKeywords(leaf: Shape, root: bool)
    requires leaf.Leaf?
    ensures LeafKeywordsOk(LeafNode(leaf)) && KeywordsAllowed(LeafNode(leaf), root)
  {
  }

  lemma LeafIsAccepted(nums: Numerics, leaf: Shape, root: bool, depth: int)
    requires leaf.Leaf? && Fits(nums, leaf) && depth <= MAX_DEPTH
    ensures SchemaOk(nums, Object(LeafNode(leaf)), root, depth)
  {
    LeafNodeHolds(leaf, "type");
    LeafConstants(nums, leaf);
    LeafLimits(nums, leaf);
    LeafKeywords(leaf, root);
  }

  lemma RequiredNames(properties: map<string, Json>)
    ensures RequiredOk(Strings(Sorted(properties.Keys)), properties)
    ensures forall k :: k in properties ==> Str(k) in Strings(Sorted(properties.Keys))
  {
    var keys := Sorted(properties.Keys);
    SortedDistinct(properties.Keys);
    assert forall i :: 0 <= i < |keys| ==> keys[i] in keys;
    forall k | k in properties
      ensures Str(k) in Strings(keys)
    {
      assert k in keys;
      var i :| 0 <= i < |keys| && keys[i] == k;
      assert Strings(keys)[i] == Str(k);
    }
  }

  lemma RecordKeywords(o: map<string, Json>, properties: map<string, Json>)
    requires RecordFacts(o, properties)
    ensures ObjectKeywordsOk(o) && ConstAndEnumOk(o, "object") && !HasBound(o)
  {
    RequiredNames(properties);
    assert "items" !in o && "const" !in o && "enum" !in o && "minimum" !in o && "maximum" !in o && "multipleOf" !in o;
  }

  lemma RecordNodeIsAccepted(nums: Numerics, o: map<string, Json>, properties: map<string, Json>, root: bool, depth: int)
    requires RecordFacts(o, properties) && depth <= MAX_DEPTH
    requires forall k :: k in properties ==> SchemaOk(nums, properties[k], false, depth + 1)
    ensures SchemaOk(nums, Object(o), root, depth)
  {
    RecordKeywords(o, properties);
    assert KeywordsAllowed(o, root);
    assert NodeShapeOk(nums, Object(o), root);
  }

  lemma ListNodeIsAccepted(nums: Numerics, item: Json, root: bool, depth: int)
    requires item.Object? && depth <= MAX_DEPTH && SchemaOk(nums, item, false, depth + 1)
    ensures SchemaOk(nums, Object(ListNode(item)), root, depth)
  {
    assert NodeShapeOk(nums, Object(ListNode(item)), root);
  }

  lemma NothingIsAccepted(nums: Numerics, root: bool, depth: int)
    requires depth <= MAX_DEPTH
    ensures SchemaOk(nums, Object(NOTHING_NODE), root, depth)
  {
    assert Properties(NOTHING_NODE) == map[];
    assert NodeShapeOk(nums, Object(NOTHING_NODE), root);
  }

  predicate Ready(nums: Numerics, schema: Json, shape: Shape, depth: int) {
    Notes(schema, shape) && Fits(nums, shape) && Nests(shape, MAX_DEPTH - depth + 1)
  }

  /** Accepted at this depth, as the root or not. */
  ghost predicate AcceptedAt(nums: Numerics, schema: Json, depth: int) {
    forall root :: SchemaOk(nums, schema, root, depth)
  }

  lemma FieldsReady(nums: Numerics, schema: Json, shape: Shape, depth: int)
    requires Ready(nums, schema, shape, depth) && shape.Record?
    ensures RecordFacts(schema.members, Properties(schema.members)) && Properties(schema.members).Keys == shape.fields.Keys
    ensures forall k :: k in shape.fields ==> Ready(nums, Properties(schema.members)[k], shape.fields[k], depth + 1)
  {
  }

  lemma ItemReady(nums: Numerics, schema: Json, shape: Shape, depth: int)
    requires Ready(nums, schema, shape, depth) && shape.ListOf?
    ensures "items" in schema.members && schema == Object(ListNode(schema.members["items"]))
    ensures Ready(nums, schema.members["items"], shape.item, depth + 1)
  {
  }

  lemma {:induction false} FieldsAccepted(nums: Numerics, properties: map<string, Json>, shape: Shape, depth: int)
    requires shape.Record? && properties.Keys == shape.fields.Keys
    requires forall k :: k in shape.fields ==> Ready(nums, properties[k], shape.fields[k], depth + 1)
    ensures forall k :: k in properties ==> AcceptedAt(nums, properties[k], depth + 1)
    decreases shape, 0
  {
    forall k | k in properties
      ensures AcceptedAt(nums, properties[k], depth + 1)
    {
      NotesAccepted(nums, properties[k], shape.fields[k], depth + 1);
    }
  }

  lemma RecordAccepted(nums: Numerics, o: map<string, Json>, properties: map<string, Json>, depth: int)
    requires RecordFacts(o, properties) && depth <= MAX_DEPTH
    requires forall k :: k in properties ==> AcceptedAt(nums, properties[k], depth + 1)
    ensures AcceptedAt(nums, Object(o), depth)
  {
    forall root
      ensures SchemaOk(nums, Object(o), root, depth)
    {
      RecordNodeIsAccepted(nums, o, properties, root, depth);
    }
  }

  lemma ListAccepted(nums: Numerics, item: Json, depth: int)
    requires item.Object? && depth <= MAX_DEPTH && AcceptedAt(nums, item, depth + 1)
    ensures AcceptedAt(nums, Object(ListNode(item)), depth)
  {
    forall root
      ensures SchemaOk(nums, Object(ListNode(item)), root, depth)
    {
      ListNodeIsAccepted(nums, item, root, depth);
    }
  }

  lemma LeafAccepted(nums: Numerics, schema: Json, shape: Shape, depth: int)
    requires Ready(nums, schema, shape, depth) && (shape.Nothing? || shape.Leaf?)
    ensures AcceptedAt(nums, schema, depth)
  {
    forall root
      ensures SchemaOk(nums, schema, root, depth)
    {
      if shape.Nothing? {
        NothingIsAccepted(nums, root, depth);
      } else {
        LeafIsAccepted(nums, shape, root, depth);
      }
    }
  }

  lemma {:induction false} NotesAccepted(nums: Numerics, schema: Json, shape: Shape, depth: int)
    requires Ready(nums, schema, shape, depth)
    ensures AcceptedAt(nums, schema, depth)
    decreases shape, 1
  {
    if shape.Record? {
      FieldsReady(nums, schema, shape, depth);
      FieldsAccepted(nums, Properties(schema.members), shape, depth);
      RecordAccepted(nums, schema.members, Properties(schema.members), depth);
    } else if shape.ListOf? {
      ItemReady(nums, schema, shape, depth);
      NotesAccepted(nums, schema.members["items"], shape.item, depth + 1);
      ListAccepted(nums, schema.members["items"], depth);
    } else {
      LeafAccepted(nums, schema, shape, depth);
    }
  }

  /** A type within the nesting that is left at a depth has an accepted schema there. */
  lemma NotationIsAccepted(nums: Numerics, shape: Shape, root: bool, depth: int)
    requires Fits(nums, shape) && Nests(shape, MAX_DEPTH - depth + 1)
    ensures SchemaOk(nums, SchemaFor(shape), root, depth)
  {
    SchemaForNotes(shape);
    NotesAccepted(nums, SchemaFor(shape), shape, depth);
  }

  // ---------- accepted schemas are such types ----------

  lemma LeafFits(nums: Numerics, schema: Json, root: bool)
    requires NodeShapeOk(nums, schema, root) && KindOf(DeclaredType(schema).value).Some?
    ensures Fits(nums, ShapeOf(schema))
  {
    var kind := KindOf(DeclaredType(schema).value).value;
    assert forall v :: ScalarOfType(v, DeclaredType(schema).value) ==> OfKind(v, kind);
  }

  lemma {:induction false} AcceptedFits(nums: Numerics, schema: Json, root: bool, depth: int)
    requires SchemaOk(nums, schema, root, depth)
    ensures Fits(nums, ShapeOf(schema))
    decreases schema
  {
    var o, shape := schema.members, ShapeOf(schema);
    if shape.Record? {
      forall k | k in shape.fields
        ensures Fits(nums, shape.fields[k])
      {
        AcceptedFits(nums, Properties(o)[k], false, depth + 1);
      }
    } else if shape.ListOf? {
      AcceptedFits(nums, o["items"], false, depth + 1);
    } else if shape.Leaf? {
      LeafFits(nums, schema, root);
    }
  }

  /** A type can be written as an accepted schema exactly when it fits and nests at most 32 levels. */
  lemma NotationIsExact(nums: Numerics, shape: Shape)
    ensures (exists schema :: SchemaOk(nums, schema, true, 1) && ShapeOf(schema) == shape) <==> Fits(nums, shape) && Nests(shape, 32)
  {
    if Fits(nums, shape) && Nests(shape, 32) {
      NotationIsAccepted(nums, shape, true, 1);
      NotationReadsBack(shape);
    }
    forall schema | SchemaOk(nums, schema, true, 1) && ShapeOf(schema) == shape
      ensures Fits(nums, shape) && Nests(shape, 32)
    {
      AcceptedFits(nums, schema, true, 1);
      AcceptedNests(nums, schema, true, 1);
    }
  }

  /** An accepted schema has no keyword but these twelve; only its root may name the dialect. */
  lemma AcceptedKeywords(nums: Numerics, schema: Json, root: bool, depth: int, keyword: string)
    requires SchemaOk(nums, schema, root, depth) && keyword in schema.members
    ensures || keyword in {"type", "properties", "required", "items", "additionalProperties", "enum", "const"}
            || keyword in {"minimum", "maximum", "multipleOf", "title", "description"}
            || (root && keyword == "$schema")
  {
  }
}
