/**
 `JSONSchemaValidator`: the checks as they run, with the error each one throws.
 Dictionaries are visited in an arbitrary order, so which of several errors is reported
 is left open; whichever it is, it is a fault of the node it points at.
 */
module SchemaValidator {
  import opened Wrappers
  import opened Decimals
  import opened JsonPointer
  import opened JsonSchema
  import opened SchemaFaults
  import SchemaMeaning

  datatype Verdict = Accepted | Rejected(error: Error, pointer: string)

  // ---------- what a rejection reports ----------

  ghost predicate PointsAtSchemaFault(nums: Numerics, schema: Json, root: bool, depth: int, pointer: string, r: Verdict, path: seq<string>)
    requires r.Rejected?
  {
    r.pointer == AppendAll(pointer, path) && SchemaFault(nums, schema, root, depth, r.error, path)
  }

  /** The rejection's pointer extends `pointer` by a path to a fault of the kind its error names. */
  ghost predicate BlamesSchema(nums: Numerics, schema: Json, root: bool, depth: int, pointer: string, r: Verdict) {
    r.Rejected? ==> exists path :: PointsAtSchemaFault(nums, schema, root, depth, pointer, r, path)
  }

  ghost predicate PointsAtInstanceFault(nums: Numerics, v: Json, schema: Json, pointer: string, r: Verdict, path: seq<string>)
    requires r.Rejected?
  {
    r.pointer == AppendAll(pointer, path) && InstanceFault(nums, v, schema, r.error, path)
  }

  ghost predicate BlamesInstance(nums: Numerics, v: Json, schema: Json, pointer: string, r: Verdict) {
    r.Rejected? && r.error != Aborted ==> exists path :: PointsAtInstanceFault(nums, v, schema, pointer, r, path)
  }

  lemma AppendOne(pointer: string, token: string, path: seq<string>)
    ensures AppendAll(Append(pointer, token), path) == AppendAll(pointer, [token] + path)
  {
    assert [token][..0] == [];
    assert AppendAll(pointer, [token]) == Append(pointer, token);
    AppendAllConcat(pointer, [token], path);
  }

  lemma AppendTwo(pointer: string, token: string, next: string, path: seq<string>)
    ensures AppendAll(Append(Append(pointer, token), next), path) == AppendAll(pointer, [token] + ([next] + path))
  {
    AppendOne(Append(pointer, token), next, path);
    AppendOne(pointer, token, [next] + path);
  }

  lemma FaultInProperty(nums: Numerics, schema: Json, root: bool, depth: int, name: string, error: Error,
                        path: seq<string>, whole: seq<string>)
    requires HasType(schema, "object") && name in Properties(schema.members)
    requires SchemaFault(nums, Properties(schema.members)[name], false, depth + 1, error, path)
    requires |whole| >= 2 && whole[0] == "properties" && whole[1] == name && whole[2..] == path
    ensures SchemaFault(nums, schema, root, depth, error, whole)
  {
  }

  /** `at` is the pointer of the property, relative to that of its schema. */
  ghost predicate PropertyAt(pointer: string, name: string, at: string) {
    forall path :: AppendAll(at, path) == AppendAll(pointer, ["properties"] + ([name] + path))
  }

  method PropertyPointer(pointer: string, name: string) returns (at: string)
    ensures PropertyAt(pointer, name, at) && at != ""
  {
    at := Append(Append(pointer, "properties"), name);
    forall path {
      AppendTwo(pointer, "properties", name, path);
    }
  }

  lemma PropertyPath(pointer: string, name: string, at: string, path: seq<string>) returns (whole: seq<string>)
    requires PropertyAt(pointer, name, at)
    ensures |whole| >= 2 && whole[0] == "properties" && whole[1] == name && whole[2..] == path
    ensures AppendAll(at, path) == AppendAll(pointer, whole)
  {
    whole := ["properties"] + ([name] + path);
  }

  lemma BlamedProperty(nums: Numerics, schema: Json, root: bool, depth: int, pointer: string, name: string, at: string, r: Verdict)
    requires HasType(schema, "object") && name in Properties(schema.members) && PropertyAt(pointer, name, at)
    requires BlamesSchema(nums, Properties(schema.members)[name], false, depth + 1, at, r)
    ensures BlamesSchema(nums, schema, root, depth, pointer, r)
  {
    var child := Properties(schema.members)[name];
    if r.Rejected? {
      var path :| PointsAtSchemaFault(nums, child, false, depth + 1, at, r, path);
      var whole := PropertyPath(pointer, name, at, path);
      FaultInProperty(nums, schema, root, depth, name, r.error, path, whole);
      assert PointsAtSchemaFault(nums, schema, root, depth, pointer, r, whole);
    }
  }

  lemma FaultInItems(nums: Numerics, schema: Json, root: bool, depth: int, pointer: string, r: Verdict, path: seq<string>)
    requires r.Rejected? && HasType(schema, "array") && "items" in schema.members
    requires PointsAtSchemaFault(nums, schema.members["items"], false, depth + 1, Append(pointer, "items"), r, path)
    ensures PointsAtSchemaFault(nums, schema, root, depth, pointer, r, ["items"] + path)
  {
    AppendOne(pointer, "items", path);
    assert (["items"] + path)[1..] == path;
  }

  lemma BlamedItems(nums: Numerics, schema: Json, root: bool, depth: int, pointer: string, r: Verdict)
    requires HasType(schema, "array") && "items" in schema.members
    requires BlamesSchema(nums, schema.members["items"], false, depth + 1, Append(pointer, "items"), r)
    ensures BlamesSchema(nums, schema, root, depth, pointer, r)
  {
    if r.Rejected? {
      var path :| PointsAtSchemaFault(nums, schema.members["items"], false, depth + 1, Append(pointer, "items"), r, path);
      FaultInItems(nums, schema, root, depth, pointer, r, path);
    }
  }

  lemma FaultInMember(nums: Numerics, v: Json, schema: Json, pointer: string, key: string, r: Verdict, path: seq<string>)
    requires r.Rejected? && DeclaredType(schema).Some? && v.Object? && key in v.members && key in Properties(schema.members)
    requires PointsAtInstanceFault(nums, v.members[key], Properties(schema.members)[key], Append(pointer, key), r, path)
    ensures PointsAtInstanceFault(nums, v, schema, pointer, r, [key] + path)
  {
    AppendOne(pointer, key, path);
    assert ([key] + path)[1..] == path;
  }

  lemma BlamedMember(nums: Numerics, v: Json, schema: Json, pointer: string, key: string, r: Verdict)
    requires DeclaredType(schema).Some? && v.Object? && key in v.members && key in Properties(schema.members)
    requires BlamesInstance(nums, v.members[key], Properties(schema.members)[key], Append(pointer, key), r)
    ensures BlamesInstance(nums, v, schema, pointer, r)
  {
    if r.Rejected? && r.error != Aborted {
      var path :| PointsAtInstanceFault(nums, v.members[key], Properties(schema.members)[key], Append(pointer, key), r, path);
      FaultInMember(nums, v, schema, pointer, key, r, path);
    }
  }

  lemma FaultInItem(nums: Numerics, v: Json, schema: Json, pointer: string, i: nat, r: Verdict, path: seq<string>)
    requires r.Rejected? && DeclaredType(schema).Some? && v.Array? && i < |v.items| && "items" in schema.members
    requires PointsAtInstanceFault(nums, v.items[i], schema.members["items"], Append(pointer, Decimal(i)), r, path)
    ensures PointsAtInstanceFault(nums, v, schema, pointer, r, [Decimal(i)] + path)
  {
    AppendOne(pointer, Decimal(i), path);
    assert ([Decimal(i)] + path)[1..] == path;
  }

  lemma BlamedItem(nums: Numerics, v: Json, schema: Json, pointer: string, i: nat, r: Verdict)
    requires DeclaredType(schema).Some? && v.Array? && i < |v.items| && "items" in schema.members
    requires BlamesInstance(nums, v.items[i], schema.members["items"], Append(pointer, Decimal(i)), r)
    ensures BlamesInstance(nums, v, schema, pointer, r)
  {
    if r.Rejected? && r.error != Aborted {
      var path :| PointsAtInstanceFault(nums, v.items[i], schema.members["items"], Append(pointer, Decimal(i)), r, path);
      FaultInItem(nums, v, schema, pointer, i, r, path);
    }
  }

  // ---------- the schema check ----------

  method CheckKeywords(schema: Json, root: bool) returns (f: Option<Fault>)
    requires schema.Object?
    ensures f.None? <==> KeywordsAllowed(schema.members, root)
    ensures f.Some? ==> forall nums :: NodeFault(nums, schema, root, f.value.error, f.value.at)
  {
    var rest := schema.members.Keys;
    while rest != {}
      invariant rest <= schema.members.Keys
      invariant forall k :: k in schema.members && k !in rest ==> k in ALLOWED_KEYWORDS || (root && k == "$schema")
      decreases |rest|
    {
      var key :| key in rest;
      if key !in ALLOWED_KEYWORDS && !(root && key == "$schema") {
        return Some(Fault(UnsupportedKeyword, [key]));
      }
      rest := rest - {key};
    }
    return None;
  }

  method CheckScalars(values: seq<Json>, t: string) returns (bad: nat)
    ensures bad <= |values|
    ensures bad < |values| ==> !ScalarOfType(values[bad], t)
    ensures forall k :: 0 <= k < bad ==> ScalarOfType(values[k], t)
  {
    bad := 0;
    while bad < |values| && IsScalar(values[bad]) && Conforms(values[bad], t)
      invariant bad <= |values|
      invariant forall k :: 0 <= k < bad ==> ScalarOfType(values[k], t)
    {
      bad := bad + 1;
    }
  }

  method CheckConstAndEnum(schema: Json, t: string) returns (f: Option<Fault>)
    requires schema.Object?
    ensures f.None? <==> ConstAndEnumOk(schema.members, t)
    ensures f.Some? ==> f.value.error == ConstOrEnumType && EnumFault(schema.members, t, f.value.at)
  {
    var o := schema.members;
    if "const" in o && (!IsScalar(o["const"]) || !Conforms(o["const"], t)) {
      return Some(Fault(ConstOrEnumType, ["const"]));
    }
    if "enum" in o {
      if !o["enum"].Array? {
        return Some(Fault(ConstOrEnumType, ["enum"]));
      }
      var bad := CheckScalars(o["enum"].items, t);
      if bad < |o["enum"].items| {
        return Some(Fault(ConstOrEnumType, ["enum", Decimal(bad)]));
      }
    }
    return None;
  }

  /** The keyword that is at fault, if any. */
  method CheckNumericBounds(nums: Numerics, o: map<string, Json>, t: string) returns (keyword: Option<string>)
    ensures keyword.None? <==> NumericBoundsOk(nums, o, t)
    ensures keyword.Some? ==> BoundFault(nums, o, t, keyword.value)
  {
    if !HasBound(o) {
      return None;
    }
    if !NumericType(t) {
      return Some(if "minimum" in o then "minimum" else if "maximum" in o then "maximum" else "multipleOf");
    }
    if !BoundIsNumber(o, "minimum") {
      return Some("minimum");
    }
    if !BoundIsNumber(o, "maximum") {
      return Some("maximum");
    }
    if !BoundIsNumber(o, "multipleOf") {
      return Some("multipleOf");
    }
    var factor := BoundValue(nums, o, "multipleOf");
    if factor.Some? && !(factor.value > 0.0 && factor.value > nums.leastFactor) {
      return Some("multipleOf");
    }
    var lo, hi := BoundValue(nums, o, "minimum"), BoundValue(nums, o, "maximum");
    if lo.Some? && hi.Some? && lo.value > hi.value {
      return Some("minimum");
    }
    return None;
  }

  /** The loop that collects the required names; `None` if an entry is not a string, names no property or repeats. */
  method CollectRequired(required: seq<Json>, properties: map<string, Json>) returns (names: Option<set<string>>)
    ensures names.Some? <==> RequiredOk(required, properties)
    ensures names.Some? ==> forall k :: k in names.value <==> Str(k) in required
  {
    var seen: set<string> := {};
    for i := 0 to |required|
      invariant RequiredOk(required[..i], properties)
      invariant forall k :: k in seen <==> Str(k) in required[..i]
    {
      var value := required[i];
      if !value.Str? || value.text !in properties || value.text in seen {
        if value.Str? && value.text in seen {
          var j :| 0 <= j < i && required[..i][j] == Str(value.text);
          assert required[j] == required[i];
        }
        return None;
      }
      assert required[..i + 1] == required[..i] + [value];
      seen := seen + {value.text};
    }
    assert required[..|required|] == required;
    return Some(seen);
  }

  method CheckObjectKeywords(nums: Numerics, schema: Json, root: bool) returns (f: Option<Fault>)
    requires HasType(schema, "object")
    ensures f.None? <==> ObjectKeywordsOk(schema.members)
    ensures f.Some? ==> NodeFault(nums, schema, root, f.value.error, f.value.at)
  {
    var o := schema.members;
    if "additionalProperties" !in o || o["additionalProperties"] != Bool(false) {
      return Some(Fault(AdditionalPropertiesNotFalse, []));
    }
    if "items" in o {
      return Some(Fault(UnsupportedKeyword, ["items"]));
    }
    if "properties" in o && !o["properties"].Object? {
      return Some(Fault(UnsupportedKeyword, ["properties"]));
    }
    if "required" in o && !o["required"].Array? {
      return Some(Fault(UnsupportedKeyword, ["required"]));
    }
    var names := CollectRequired(RequiredList(o), Properties(o));
    if names.None? || !(forall k :: k in Properties(o) ==> k in names.value) {
      return Some(Fault(RequiredIncomplete, []));
    }
    return None;
  }

  method CheckOtherKeywords(nums: Numerics, schema: Json, t: string, root: bool) returns (f: Option<Fault>)
    requires HasType(schema, t) && t != "object"
    ensures f.None? <==> if t == "array" then ArrayKeywordsOk(schema.members) else LeafKeywordsOk(schema.members)
    ensures f.Some? ==> NodeFault(nums, schema, root, f.value.error, f.value.at)
  {
    var o := schema.members;
    if t == "array" {
      if "items" !in o || !o["items"].Object? {
        return Some(Fault(UnsupportedKeyword, ["items"]));
      }
      if "properties" in o || "required" in o || "additionalProperties" in o {
        return Some(Fault(UnsupportedKeyword, []));
      }
      return None;
    }
    var keyword := if "properties" in o then "properties"
                   else if "required" in o then "required"
                   else if "items" in o then "items"
                   else "additionalProperties";
    if keyword in o {
      return Some(Fault(UnsupportedKeyword, [keyword]));
    }
    return None;
  }

  /** The checks on a node before its children are visited. */
  method CheckNodeShape(nums: Numerics, schema: Json, root: bool) returns (f: Option<Fault>)
    ensures f.None? <==> NodeShapeOk(nums, schema, root)
    ensures f.Some? ==> NodeFault(nums, schema, root, f.value.error, f.value.at)
  {
    if !schema.Object? {
      return Some(Fault(UnsupportedKeyword, []));
    }
    f := CheckKeywords(schema, root);
    if f.Some? {
      return;
    }
    var t := DeclaredType(schema);
    if t.None? || t.value !in TYPES {
      return Some(Fault(UnsupportedKeyword, ["type"]));
    }
    f := CheckConstAndEnum(schema, t.value);
    if f.Some? {
      return;
    }
    var keyword := CheckNumericBounds(nums, schema.members, t.value);
    if keyword.Some? {
      return Some(Fault(UnsupportedKeyword, [keyword.value]));
    }
    if t.value == "object" {
      f := CheckObjectKeywords(nums, schema, root);
    } else {
      f := CheckOtherKeywords(nums, schema, t.value, root);
    }
  }

  method ValidateSchemaNode(nums: Numerics, schema: Json, pointer: string, depth: int) returns (r: Verdict)
    ensures r.Accepted? <==> SchemaOk(nums, schema, pointer == "", depth)
    ensures BlamesSchema(nums, schema, pointer == "", depth, pointer, r)
    decreases schema
  {
    var root := pointer == "";
    if depth > MAX_DEPTH {
      r := Rejected(TooDeep, pointer);
      assert PointsAtSchemaFault(nums, schema, root, depth, pointer, r, []);
      return;
    }
    var f := CheckNodeShape(nums, schema, root);
    if f.Some? {
      r := Rejected(f.value.error, AppendAll(pointer, f.value.at));
      assert PointsAtSchemaFault(nums, schema, root, depth, pointer, r, f.value.at);
      return;
    }
    var t := DeclaredType(schema).value;
    if t == "object" {
      r := ValidateProperties(nums, schema, pointer, depth);
    } else if t == "array" {
      r := ValidateSchemaNode(nums, schema.members["items"], Append(pointer, "items"), depth + 1);
      BlamedItems(nums, schema, root, depth, pointer, r);
    } else {
      r := Accepted;
    }
  }

  method ValidateProperties(nums: Numerics, schema: Json, pointer: string, depth: int) returns (r: Verdict)
    requires HasType(schema, "object")
    ensures r.Accepted? <==>
            forall k :: k in Properties(schema.members) ==> SchemaOk(nums, Properties(schema.members)[k], false, depth + 1)
    ensures BlamesSchema(nums, schema, pointer == "", depth, pointer, r)
    decreases schema, 0
  {
    var properties := Properties(schema.members);
    var rest := properties.Keys;
    while rest != {}
      invariant rest <= properties.Keys
      invariant forall k :: k in properties && k !in rest ==> SchemaOk(nums, properties[k], false, depth + 1)
      decreases |rest|
    {
      var name :| name in rest;
      var at := PropertyPointer(pointer, name);
      r := ValidateSchemaNode(nums, properties[name], at, depth + 1);
      if r.Rejected? {
        BlamedProperty(nums, schema, pointer == "", depth, pointer, name, at, r);
        return;
      }
      rest := rest - {name};
    }
    return Accepted;
  }

  /**
   `validateSchemaShape`: a rejection's pointer decodes to a path to a node of the schema, and on to the keyword at
   fault, if one is; and that node breaks the rule that the error names.
   */
  method ValidateSchemaShape(nums: Numerics, schema: Json) returns (r: Verdict)
    ensures r.Accepted? <==> SchemaOk(nums, schema, true, 1)
    ensures r.Rejected? ==> Decode(r.pointer).Some? && SchemaFault(nums, schema, true, 1, r.error, Decode(r.pointer).value)
  {
    r := ValidateSchemaNode(nums, schema, "", 1);
    if r.Rejected? {
      ghost var path :| PointsAtSchemaFault(nums, schema, true, 1, "", r, path);
      PointerRoundTrip(path);
    }
  }

  // ---------- the instance check ----------

  method CheckEnum(nums: Numerics, v: Json, allowed: seq<Json>) returns (found: bool)
    ensures found <==> exists i :: 0 <= i < |allowed| && RawEquals(nums, v, allowed[i])
  {
    for i := 0 to |allowed|
      invariant forall k :: 0 <= k < i ==> !RawEquals(nums, v, allowed[k])
    {
      if RawEquals(nums, v, allowed[i]) {
        return true;
      }
    }
    return false;
  }

  /** `validateNumericInstance`. */
  method CheckNumber(nums: Numerics, v: Json, o: map<string, Json>, t: string) returns (f: Option<Fault>)
    ensures f.None? <==> InBounds(nums, v, o, t)
    ensures f.Some? ==> NumberFault(nums, v, o, t, f.value.error, f.value.at)
  {
    var x := NumericValue(nums, v);
    if !NumericType(t) || x.None? {
      return None;
    }
    if !BoundIsNumber(o, "minimum") {
      return Some(Fault(UnsupportedKeyword, ["minimum"]));
    }
    var lo := BoundValue(nums, o, "minimum");
    if lo.Some? && x.value < lo.value {
      return Some(Fault(BelowMinimum, []));
    }
    if !BoundIsNumber(o, "maximum") {
      return Some(Fault(UnsupportedKeyword, ["maximum"]));
    }
    var hi := BoundValue(nums, o, "maximum");
    if hi.Some? && x.value > hi.value {
      return Some(Fault(AboveMaximum, []));
    }
    if !BoundIsNumber(o, "multipleOf") {
      return Some(Fault(UnsupportedKeyword, ["multipleOf"]));
    }
    var factor := BoundValue(nums, o, "multipleOf");
    if factor.Some? && !nums.isMultiple(v, factor.value) {
      return Some(Fault(NotAMultiple, []));
    }
    return None;
  }

  /** The checks on a node that do not look at its children. */
  method CheckLeaf(nums: Numerics, v: Json, o: map<string, Json>, t: string) returns (f: Option<Fault>)
    ensures f.None? <==> LeafTestOk(nums, v, o, t)
    ensures f.Some? ==> f.value.error != Aborted && ValueFault(nums, v, o, t, f.value.error, f.value.at)
  {
    if !Conforms(v, t) {
      return Some(Fault(TypeMismatch, []));
    }
    if "const" in o && !RawEquals(nums, v, o["const"]) {
      return Some(Fault(ConstMismatch, []));
    }
    if "enum" in o && o["enum"].Array? {
      var found := CheckEnum(nums, v, o["enum"].items);
      if !found {
        return Some(Fault(EnumMismatch, []));
      }
    }
    f := CheckNumber(nums, v, o, t);
  }

  /** The keys of an object instance against its schema. */
  method CheckKeys(nums: Numerics, v: Json, o: map<string, Json>, t: string) returns (f: Option<Fault>)
    requires v.Object?
    ensures f.None? <==> RequiredPresent(RequiredList(o), v) && NoForeignKeys(Properties(o), v)
    ensures f.Some? ==> f.value.error != Aborted && ValueFault(nums, v, o, t, f.value.error, f.value.at)
  {
    var required := RequiredList(o);
    for i := 0 to |required|
      invariant forall k :: 0 <= k < i ==> required[k].Str? && required[k].text in v.members
    {
      if !required[i].Str? || required[i].text !in v.members {
        return Some(Fault(MissingRequired, []));
      }
    }
    var rest := v.members.Keys;
    while rest != {}
      invariant rest <= v.members.Keys
      invariant forall k :: k in v.members && k !in rest ==> k in Properties(o)
      decreases |rest|
    {
      var key :| key in rest;
      if key !in Properties(o) {
        return Some(Fault(ForeignProperty, [key]));
      }
      rest := rest - {key};
    }
    return None;
  }

  method ValidateInstanceNode(nums: Numerics, v: Json, schema: Json, pointer: string) returns (r: Verdict)
    ensures r.Accepted? <==> InstanceOk(nums, v, schema)
    ensures BlamesInstance(nums, v, schema, pointer, r)
    ensures r.Rejected? && r.error == Aborted ==> r.pointer == "" && !EveryNodeTyped(schema)
    decreases schema, v, 1
  {
    var t := DeclaredType(schema);
    if t.None? {
      return Rejected(Aborted, "");
    }
    var f := CheckLeaf(nums, v, schema.members, t.value);
    if f.Some? {
      r := Rejected(f.value.error, AppendAll(pointer, f.value.at));
      assert PointsAtInstanceFault(nums, v, schema, pointer, r, f.value.at);
      return;
    }
    if v.Object? {
      r := ValidateMembers(nums, v, schema, pointer);
    } else if v.Array? && "items" in schema.members {
      r := ValidateItems(nums, v, schema, pointer);
    } else {
      r := Accepted;
    }
  }

  /** Every schema node that the instance check can reach declares a type. */
  ghost predicate EveryNodeTyped(schema: Json)
    decreases schema
  {
    && DeclaredType(schema).Some?
    && (forall k :: k in Properties(schema.members) ==> EveryNodeTyped(Properties(schema.members)[k]))
    && ("items" in schema.members ==> EveryNodeTyped(schema.members["items"]))
  }

  method ValidateMembers(nums: Numerics, v: Json, schema: Json, pointer: string) returns (r: Verdict)
    requires v.Object? && DeclaredType(schema).Some?
    ensures r.Accepted? <==>
            var properties := Properties(schema.members);
            && RequiredPresent(RequiredList(schema.members), v)
            && NoForeignKeys(properties, v)
            && forall k :: k in properties && k in v.members ==> InstanceOk(nums, v.members[k], properties[k])
    ensures BlamesInstance(nums, v, schema, pointer, r)
    ensures r.Rejected? && r.error == Aborted ==> r.pointer == "" && !EveryNodeTyped(schema)
    decreases schema, v, 0
  {
    var f := CheckKeys(nums, v, schema.members, DeclaredType(schema).value);
    if f.Some? {
      r := Rejected(f.value.error, AppendAll(pointer, f.value.at));
      assert PointsAtInstanceFault(nums, v, schema, pointer, r, f.value.at);
      return;
    }
    var properties := Properties(schema.members);
    var rest := properties.Keys;
    while rest != {}
      invariant rest <= properties.Keys
      invariant forall k :: k in properties && k !in rest && k in v.members ==> InstanceOk(nums, v.members[k], properties[k])
      decreases |rest|
    {
      var key :| key in rest;
      if key in v.members {
        r := ValidateInstanceNode(nums, v.members[key], properties[key], Append(pointer, key));
        if r.Rejected? {
          BlamedMember(nums, v, schema, pointer, key, r);
          return;
        }
      }
      rest := rest - {key};
    }
    return Accepted;
  }

  method ValidateItems(nums: Numerics, v: Json, schema: Json, pointer: string) returns (r: Verdict)
    requires v.Array? && DeclaredType(schema).Some? && "items" in schema.members
    ensures r.Accepted? <==> forall i :: 0 <= i < |v.items| ==> InstanceOk(nums, v.items[i], schema.members["items"])
    ensures BlamesInstance(nums, v, schema, pointer, r)
    ensures r.Rejected? && r.error == Aborted ==> r.pointer == "" && !EveryNodeTyped(schema)
    decreases schema, v, 0
  {
    for i := 0 to |v.items|
      invariant forall k :: 0 <= k < i ==> InstanceOk(nums, v.items[k], schema.members["items"])
    {
      r := ValidateInstanceNode(nums, v.items[i], schema.members["items"], Append(pointer, Decimal(i)));
      if r.Rejected? {
        BlamedItem(nums, v, schema, pointer, i, r);
        return;
      }
    }
    return Accepted;
  }

  lemma {:induction false} AcceptedIsTyped(nums: Numerics, schema: Json, root: bool, depth: int)
    requires SchemaOk(nums, schema, root, depth)
    ensures EveryNodeTyped(schema)
    decreases schema
  {
    var o := schema.members;
    if DeclaredType(schema).value == "object" {
      forall k | k in Properties(o)
        ensures EveryNodeTyped(Properties(o)[k])
      {
        AcceptedIsTyped(nums, Properties(o)[k], false, depth + 1);
      }
    } else if DeclaredType(schema).value == "array" {
      AcceptedIsTyped(nums, o["items"], false, depth + 1);
    }
  }

  /** What a rejection of an instance reports. */
  ghost predicate Reported(nums: Numerics, v: Json, schema: Json, error: Error, pointer: string) {
    match error
    case TooDeep => pointer == "" && JsonDepth(v) > MAX_DEPTH
    case _ => Decode(pointer).Some? && InstanceFault(nums, v, schema, error, Decode(pointer).value)
  }

  /**
   `validateInstance`: it accepts exactly what conforms and is not too deep. A rejection names the depth, aborts on a
   schema with an untyped node, or points at a value that fails the named test against the schema node it is checked with.
   On an accepted schema it accepts exactly the members of the closed-record meaning, and never blames the schema.
   */
  method ValidateInstance(nums: Numerics, v: Json, schema: Json) returns (r: Verdict)
    ensures r.Accepted? <==> JsonDepth(v) <= MAX_DEPTH && InstanceOk(nums, v, schema)
    ensures r.Rejected? && r.error == Aborted ==> r.pointer == "" && !EveryNodeTyped(schema)
    ensures r.Rejected? && r.error != Aborted ==> Reported(nums, v, schema, r.error, r.pointer)
    ensures SchemaOk(nums, schema, true, 1) ==> (r.Accepted? <==> SchemaMeaning.Belongs(nums, v, SchemaMeaning.ShapeOf(schema)))
    ensures SchemaOk(nums, schema, true, 1) && r.Rejected? ==> r.error != Aborted && r.error != UnsupportedKeyword
  {
    AcceptedSchema(nums, v, schema);
    if JsonDepth(v) > MAX_DEPTH {
      return Rejected(TooDeep, "");
    }
    r := ValidateInstanceNode(nums, v, schema, "");
    if r.Rejected? && r.error != Aborted {
      InstanceReported(nums, v, schema, r);
    }
  }

  lemma AcceptedSchema(nums: Numerics, v: Json, schema: Json)
    ensures SchemaOk(nums, schema, true, 1) ==>
              && (JsonDepth(v) <= MAX_DEPTH && InstanceOk(nums, v, schema) <==> SchemaMeaning.Belongs(nums, v, SchemaMeaning.ShapeOf(schema)))
              && EveryNodeTyped(schema)
  {
    if SchemaOk(nums, schema, true, 1) {
      SchemaMeaning.ValidatorIsMeaning(nums, v, schema);
      AcceptedIsTyped(nums, schema, true, 1);
    }
  }

  lemma InstanceReported(nums: Numerics, v: Json, schema: Json, r: Verdict)
    requires r.Rejected? && r.error != Aborted && BlamesInstance(nums, v, schema, "", r)
    ensures r.error != TooDeep && Reported(nums, v, schema, r.error, r.pointer)
    ensures SchemaOk(nums, schema, true, 1) ==> r.error != UnsupportedKeyword
  {
    var path :| PointsAtInstanceFault(nums, v, schema, "", r, path);
    PointerRoundTrip(path);
    DepthIsNoFault(nums, v, schema, r.error, path);
    if SchemaOk(nums, schema, true, 1) {
      KeywordNeverBlamed(nums, v, schema, true, 1, path);
    }
  }
}
