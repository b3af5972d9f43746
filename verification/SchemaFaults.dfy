/** What an error of the schema validator says: which node it points at and what is wrong with that node. */
module SchemaFaults {
  import opened Wrappers
  import opened Decimals
  import opened JsonSchema

  datatype Error =
    | TooDeep | UnsupportedKeyword | AdditionalPropertiesNotFalse | RequiredIncomplete | ConstOrEnumType
    | Aborted | TypeMismatch | ConstMismatch | EnumMismatch | BelowMinimum | AboveMaximum | NotAMultiple
    | MissingRequired | ForeignProperty

  /** An error and the tokens that its pointer appends to the pointer of the node being checked. */
  datatype Fault = Fault(error: Error, at: seq<string>)

  const BOUNDS: set<string> := {"minimum", "maximum", "multipleOf"}

  const STRUCTURE: set<string> := {"properties", "required", "items", "additionalProperties"}

  predicate HasType(schema: Json, t: string) {
    DeclaredType(schema) == Some(t)
  }

  // ---------- schemas ----------

  /** A bound that is misplaced, no number, too small a factor, or above the other bound. */
  predicate BoundFault(nums: Numerics, o: map<string, Json>, t: string, keyword: string) {
    && keyword in BOUNDS && keyword in o
    && (|| !NumericType(t)
        || !BoundIsNumber(o, keyword)
        || (keyword == "multipleOf" && BoundValue(nums, o, keyword).Some?
            && !(BoundValue(nums, o, keyword).value > 0.0 && BoundValue(nums, o, keyword).value > nums.leastFactor))
        || (keyword == "minimum" && BoundValue(nums, o, "minimum").Some? && BoundValue(nums, o, "maximum").Some?
            && BoundValue(nums, o, "minimum").value > BoundValue(nums, o, "maximum").value))
  }

  /** A structural keyword that the type forbids, or whose value has the wrong form. */
  predicate StructureFault(o: map<string, Json>, t: string, keyword: string) {
    if t == "object" then
      || (keyword == "items" && keyword in o)
      || (keyword == "properties" && keyword in o && !o[keyword].Object?)
      || (keyword == "required" && keyword in o && !o[keyword].Array?)
    else if t == "array" then keyword == "items" && !(keyword in o && o[keyword].Object?)
    else keyword in STRUCTURE && keyword in o
  }

  predicate KeywordFault(nums: Numerics, schema: Json, root: bool, keyword: string) {
    && schema.Object?
    && var o := schema.members;
       || (keyword in o && keyword !in ALLOWED_KEYWORDS && !(root && keyword == "$schema"))
       || (keyword == "type" && (DeclaredType(schema).None? || DeclaredType(schema).value !in TYPES))
       || (DeclaredType(schema).Some? && BoundFault(nums, o, DeclaredType(schema).value, keyword))
       || (DeclaredType(schema).Some? && StructureFault(o, DeclaredType(schema).value, keyword))
  }

  predicate EnumFault(o: map<string, Json>, t: string, at: seq<string>) {
    || (at == ["const"] && "const" in o && !ScalarOfType(o["const"], t))
    || (at == ["enum"] && "enum" in o && !o["enum"].Array?)
    || ("enum" in o && o["enum"].Array? &&
        exists i :: 0 <= i < |o["enum"].items| && at == ["enum", Decimal(i)] && !ScalarOfType(o["enum"].items[i], t))
  }

  /** The node itself breaks the rule that the error names, at the place that the tokens name. */
  predicate NodeFault(nums: Numerics, schema: Json, root: bool, error: Error, at: seq<string>) {
    match error
    case UnsupportedKeyword =>
      || (at == [] && !schema.Object?)
      || (at == [] && HasType(schema, "array") && exists k :: k in STRUCTURE && k != "items" && k in schema.members)
      || (|at| == 1 && KeywordFault(nums, schema, root, at[0]))
    case AdditionalPropertiesNotFalse =>
      at == [] && HasType(schema, "object") && Get(schema.members, "additionalProperties") != Some(Bool(false))
    case RequiredIncomplete =>
      && at == [] && HasType(schema, "object")
      && (|| !RequiredOk(RequiredList(schema.members), Properties(schema.members))
          || exists k :: k in Properties(schema.members) && Str(k) !in RequiredList(schema.members))
    case ConstOrEnumType => DeclaredType(schema).Some? && EnumFault(schema.members, DeclaredType(schema).value, at)
    case _ => false
  }

  predicate EntersProperty(schema: Json, path: seq<string>) {
    HasType(schema, "object") && |path| >= 2 && path[0] == "properties" && path[1] in Properties(schema.members)
  }

  predicate EntersItems(schema: Json, path: seq<string>) {
    HasType(schema, "array") && |path| >= 1 && path[0] == "items" && "items" in schema.members
  }

  /** The path leads down through properties and items to a node, and on to the place where that node is at fault. */
  predicate SchemaFault(nums: Numerics, schema: Json, root: bool, depth: int, error: Error, path: seq<string>)
    decreases schema
  {
    || (depth > MAX_DEPTH && error == TooDeep && path == [])
    || (depth <= MAX_DEPTH && NodeFault(nums, schema, root, error, path))
    || (EntersProperty(schema, path)
        && SchemaFault(nums, Properties(schema.members)[path[1]], false, depth + 1, error, path[2..]))
    || (EntersItems(schema, path)
        && SchemaFault(nums, schema.members["items"], false, depth + 1, error, path[1..]))
  }

  lemma BoundFaultIsReal(nums: Numerics, o: map<string, Json>, t: string, keyword: string)
    requires BoundFault(nums, o, t, keyword)
    ensures !NumericBoundsOk(nums, o, t)
  {
  }

  lemma StructureFaultIsReal(o: map<string, Json>, t: string, keyword: string)
    requires StructureFault(o, t, keyword)
    ensures t == "object" ==> !ObjectKeywordsOk(o)
    ensures t == "array" ==> !ArrayKeywordsOk(o)
    ensures t != "object" && t != "array" ==> !LeafKeywordsOk(o)
  {
  }

  lemma KeywordFaultIsReal(nums: Numerics, schema: Json, root: bool, keyword: string)
    requires KeywordFault(nums, schema, root, keyword)
    ensures !NodeShapeOk(nums, schema, root)
  {
    if DeclaredType(schema).Some? {
      var o, t := schema.members, DeclaredType(schema).value;
      if BoundFault(nums, o, t, keyword) {
        BoundFaultIsReal(nums, o, t, keyword);
      }
      if StructureFault(o, t, keyword) {
        StructureFaultIsReal(o, t, keyword);
      }
    }
  }

  lemma NodeFaultIsReal(nums: Numerics, schema: Json, root: bool, error: Error, at: seq<string>)
    requires NodeFault(nums, schema, root, error, at)
    ensures !NodeShapeOk(nums, schema, root)
  {
    if error.UnsupportedKeyword? && |at| == 1 {
      KeywordFaultIsReal(nums, schema, root, at[0]);
    }
  }

  lemma ChildSpoils(nums: Numerics, schema: Json, root: bool, depth: int, path: seq<string>)
    requires || (EntersProperty(schema, path) && !SchemaOk(nums, Properties(schema.members)[path[1]], false, depth + 1))
             || (EntersItems(schema, path) && !SchemaOk(nums, schema.members["items"], false, depth + 1))
    ensures !SchemaOk(nums, schema, root, depth)
  {
  }

  /** A fault anywhere on the way keeps the schema from being accepted. */
  lemma {:induction false} SchemaFaultIsReal(nums: Numerics, schema: Json, root: bool, depth: int, error: Error, path: seq<string>)
    requires SchemaFault(nums, schema, root, depth, error, path)
    ensures !SchemaOk(nums, schema, root, depth)
    decreases schema
  {
    if NodeFault(nums, schema, root, error, path) {
      NodeFaultIsReal(nums, schema, root, error, path);
    } else if EntersProperty(schema, path) {
      var child := Properties(schema.members)[path[1]];
      if SchemaFault(nums, child, false, depth + 1, error, path[2..]) {
        SchemaFaultIsReal(nums, child, false, depth + 1, error, path[2..]);
        ChildSpoils(nums, schema, root, depth, path);
      }
    } else if EntersItems(schema, path) {
      SchemaFaultIsReal(nums, schema.members["items"], false, depth + 1, error, path[1..]);
      ChildSpoils(nums, schema, root, depth, path);
    }
  }

  // ---------- instances ----------

  /** A number against a bound of its schema node. */
  predicate NumberFault(nums: Numerics, v: Json, o: map<string, Json>, t: string, error: Error, at: seq<string>) {
    var x := NumericValue(nums, v);
    && NumericType(t) && x.Some?
    && match error
       case UnsupportedKeyword => |at| == 1 && at[0] in BOUNDS && !BoundIsNumber(o, at[0])
       case BelowMinimum => at == [] && BoundValue(nums, o, "minimum").Some? && x.value < BoundValue(nums, o, "minimum").value
       case AboveMaximum => at == [] && BoundValue(nums, o, "maximum").Some? && x.value > BoundValue(nums, o, "maximum").value
       case NotAMultiple =>
         at == [] && BoundValue(nums, o, "multipleOf").Some? && !nums.isMultiple(v, BoundValue(nums, o, "multipleOf").value)
       case _ => false
  }

  /** The value at a node fails the test that the error names, against the schema node it is checked with. */
  predicate ValueFault(nums: Numerics, v: Json, o: map<string, Json>, t: string, error: Error, at: seq<string>) {
    match error
    case TypeMismatch => at == [] && !Conforms(v, t)
    case ConstMismatch => at == [] && "const" in o && !RawEquals(nums, v, o["const"])
    case EnumMismatch => at == [] && !EnumOk(nums, v, o)
    case MissingRequired => at == [] && v.Object? && !RequiredPresent(RequiredList(o), v)
    case ForeignProperty => v.Object? && |at| == 1 && at[0] in v.members && at[0] !in Properties(o)
    case _ => NumberFault(nums, v, o, t, error, at)
  }

  /** The path leads down the instance, and the schema along with it, to the value at fault. */
  ghost predicate InstanceFault(nums: Numerics, v: Json, schema: Json, error: Error, path: seq<string>)
    decreases schema, v
  {
    && DeclaredType(schema).Some?
    && (|| ValueFault(nums, v, schema.members, DeclaredType(schema).value, error, path)
        || (v.Object? && path != [] && path[0] in Properties(schema.members) && path[0] in v.members
            && InstanceFault(nums, v.members[path[0]], Properties(schema.members)[path[0]], error, path[1..]))
        || (v.Array? && path != [] && "items" in schema.members
            && exists i :: 0 <= i < |v.items| && path[0] == Decimal(i)
                           && InstanceFault(nums, v.items[i], schema.members["items"], error, path[1..])))
  }

  lemma ValueFaultIsReal(nums: Numerics, v: Json, o: map<string, Json>, t: string, error: Error, at: seq<string>)
    requires ValueFault(nums, v, o, t, error, at)
    ensures !LeafTestOk(nums, v, o, t) || (v.Object? && !(RequiredPresent(RequiredList(o), v) && NoForeignKeys(Properties(o), v)))
  {
  }

  /** A fault anywhere on the way keeps the instance from being accepted. */
  lemma {:induction false} InstanceFaultIsReal(nums: Numerics, v: Json, schema: Json, error: Error, path: seq<string>)
    requires InstanceFault(nums, v, schema, error, path)
    ensures !InstanceOk(nums, v, schema)
    decreases schema, v
  {
    var o, t := schema.members, DeclaredType(schema).value;
    if ValueFault(nums, v, o, t, error, path) {
      ValueFaultIsReal(nums, v, o, t, error, path);
    } else if v.Object? {
      InstanceFaultIsReal(nums, v.members[path[0]], Properties(o)[path[0]], error, path[1..]);
    } else {
      var i :| 0 <= i < |v.items| && path[0] == Decimal(i) && InstanceFault(nums, v.items[i], o["items"], error, path[1..]);
      InstanceFaultIsReal(nums, v.items[i], o["items"], error, path[1..]);
    }
  }

  /** Depth is checked for the whole instance, not at a node. */
  lemma {:induction false} DepthIsNoFault(nums: Numerics, v: Json, schema: Json, error: Error, path: seq<string>)
    requires InstanceFault(nums, v, schema, error, path)
    ensures error != TooDeep
    decreases schema, v
  {
    var o := schema.members;
    if !ValueFault(nums, v, o, DeclaredType(schema).value, error, path) {
      if v.Object? {
        DepthIsNoFault(nums, v.members[path[0]], Properties(o)[path[0]], error, path[1..]);
      } else {
        var i :| 0 <= i < |v.items| && path[0] == Decimal(i) && InstanceFault(nums, v.items[i], o["items"], error, path[1..]);
        DepthIsNoFault(nums, v.items[i], o["items"], error, path[1..]);
      }
    }
  }

  /** On an accepted schema no instance error blames a keyword of the schema. */
  lemma {:induction false} KeywordNeverBlamed(nums: Numerics, v: Json, schema: Json, root: bool, depth: int, path: seq<string>)
    requires SchemaOk(nums, schema, root, depth)
    ensures !InstanceFault(nums, v, schema, UnsupportedKeyword, path)
    decreases schema, v
  {
    var o := schema.members;
    if v.Object? && path != [] && path[0] in Properties(o) && path[0] in v.members && HasType(schema, "object") {
      KeywordNeverBlamed(nums, v.members[path[0]], Properties(o)[path[0]], false, depth + 1, path[1..]);
    } else if v.Array? && path != [] && "items" in o && HasType(schema, "array") {
      forall i | 0 <= i < |v.items|
        ensures !InstanceFault(nums, v.items[i], o["items"], UnsupportedKeyword, path[1..])
      {
        KeywordNeverBlamed(nums, v.items[i], o["items"], false, depth + 1, path[1..]);
      }
    }
  }
}
