/** How deeply the containers of a JSON value nest, and the bound the tool definitions of a request must meet. */
module ContainerDepth {
  import opened Wrappers
  import opened StringOrder
  import opened JsonSchema

  /** The values directly inside a container. */
  function Children(v: Json): seq<Json> {
    if v.Object? then Values(v.members, Sorted(v.members.Keys))
    else if v.Array? then v.items
    else []
  }

  function Values(members: map<string, Json>, keys: seq<string>): seq<Json>
    requires forall k :: k in keys ==> k in members
  {
    if keys == [] then [] else [members[keys[0]]] + Values(members, keys[1..])
  }

  lemma {:induction false} ValuesAt(members: map<string, Json>, keys: seq<string>)
    requires forall k :: k in keys ==> k in members
    ensures |Values(members, keys)| == |keys|
    ensures forall i :: 0 <= i < |keys| ==> Values(members, keys)[i] == members[keys[i]]
    decreases |keys|
  {
    if keys != [] {
      ValuesAt(members, keys[1..]);
    }
  }

  lemma ChildIsSmaller(v: Json, i: nat)
    requires i < |Children(v)|
    ensures Children(v)[i] < v
  {
    if v.Object? {
      var keys := Sorted(v.members.Keys);
      ValuesAt(v.members, keys);
      assert keys[i] in keys;
      assert v.members[keys[i]] < v;
    }
  }

  /** The number of nested container levels; a scalar has none. */
  function Depth(v: Json): nat
    decreases v, 1, 0
  {
    if IsScalar(v) then 0 else 1 + DeepestChild(v, |Children(v)|)
  }

  function DeepestChild(v: Json, n: nat): nat
    requires n <= |Children(v)|
    decreases v, 0, n
  {
    if n == 0 then 0
    else
      ChildIsSmaller(v, n - 1);
      Max(Depth(Children(v)[n - 1]), DeepestChild(v, n - 1))
  }

  function Size(v: Json): nat
    decreases v, 1, 0
  {
    1 + ChildrenSize(v, |Children(v)|)
  }

  function ChildrenSize(v: Json, n: nat): nat
    requires n <= |Children(v)|
    decreases v, 0, n
  {
    if n == 0 then 0
    else
      ChildIsSmaller(v, n - 1);
      Size(Children(v)[n - 1]) + ChildrenSize(v, n - 1)
  }

  /** The first `n` nodes are no deeper than the bound. */
  predicate AllWithin(nodes: seq<Json>, n: nat, bound: int)
    requires n <= |nodes|
  {
    forall i :: 0 <= i < n ==> Depth(nodes[i]) <= bound
  }

  function TotalSize(nodes: seq<Json>, n: nat): nat
    requires n <= |nodes|
  {
    if n == 0 then 0 else Size(nodes[n - 1]) + TotalSize(nodes, n - 1)
  }

  lemma {:induction false} ChildBelowDeepest(v: Json, n: nat, i: nat)
    requires i < n <= |Children(v)|
    ensures Depth(Children(v)[i]) <= DeepestChild(v, n)
    decreases n
  {
    var last, before := Depth(Children(v)[n - 1]), DeepestChild(v, n - 1);
    assert DeepestChild(v, n) == Max(last, before);
    if i < n - 1 {
      ChildBelowDeepest(v, n - 1, i);
    }
  }

  lemma {:induction false} DeepestIsAChild(v: Json, n: nat) returns (i: nat)
    requires 0 < n <= |Children(v)|
    ensures i < n && Depth(Children(v)[i]) == DeepestChild(v, n)
    decreases n
  {
    i := n - 1;
    if Depth(Children(v)[n - 1]) < DeepestChild(v, n - 1) {
      i := DeepestIsAChild(v, n - 1);
    }
  }

  /** What the depth of a container says about its children, and the other way round. */
  lemma DepthOfChildren(v: Json, bound: nat)
    requires !IsScalar(v)
    ensures Depth(v) <= bound + 1 <==> AllWithin(Children(v), |Children(v)|, bound)
  {
    var n := |Children(v)|;
    if DeepestChild(v, n) <= bound {
      forall i | 0 <= i < n
        ensures Depth(Children(v)[i]) <= bound
      {
        ChildBelowDeepest(v, n, i);
      }
    } else {
      var i := DeepestIsAChild(v, n);
    }
  }

  // ---------- nests ----------

  lemma DepthFromMembers(v: Json, bound: nat)
    requires v.Object? && forall k :: k in v.members ==> Depth(v.members[k]) <= bound
    ensures Depth(v) <= bound + 1
  {
    var keys := Sorted(v.members.Keys);
    ValuesAt(v.members, keys);
    assert forall i :: 0 <= i < |keys| ==> keys[i] in keys;
    DepthOfChildren(v, bound);
  }

  lemma DepthAboveMember(v: Json, key: string)
    requires v.Object? && key in v.members
    ensures Depth(v) > Depth(v.members[key])
  {
    var keys := Sorted(v.members.Keys);
    ValuesAt(v.members, keys);
    DepthOfChildren(v, Depth(v) - 1);
    assert key in keys;
    var i :| 0 <= i < |keys| && keys[i] == key;
    assert Depth(Children(v)[i]) <= Depth(v) - 1;
  }

  /** There are `n` containers, each directly inside the one before. */
  ghost predicate Nest(v: Json, n: nat)
    decreases n
  {
    || n == 0
    || (v.Object? && (n == 1 || exists k :: k in v.members && Nest(v.members[k], n - 1)))
    || (v.Array? && (n == 1 || exists i :: 0 <= i < |v.items| && Nest(v.items[i], n - 1)))
  }

  lemma ContainerBound(v: Json, bound: nat)
    ensures v.Object? ==> (Depth(v) <= bound + 1 <==>
                            forall k :: k in v.members ==> Depth(v.members[k]) <= bound)
    ensures v.Array? ==> (Depth(v) <= bound + 1 <==>
                            forall i :: 0 <= i < |v.items| ==> Depth(v.items[i]) <= bound)
  {
    if v.Object? {
      if Depth(v) <= bound + 1 {
        forall k | k in v.members
          ensures Depth(v.members[k]) <= bound
        {
          DepthAboveMember(v, k);
        }
      }
      if forall k :: k in v.members ==> Depth(v.members[k]) <= bound {
        DepthFromMembers(v, bound);
      }
    } else if v.Array? {
      DepthOfChildren(v, bound);
    }
  }

  /** The container depth is the length of the longest nest. */
  lemma {:induction false} DepthIsLongestNest(v: Json, n: nat)
    ensures Depth(v) >= n <==> Nest(v, n)
    decreases n
  {
    if n > 1 {
      ContainerBound(v, n - 2);
      if v.Object? {
        forall k | k in v.members
          ensures Depth(v.members[k]) >= n - 1 <==> Nest(v.members[k], n - 1)
        {
          DepthIsLongestNest(v.members[k], n - 1);
        }
      } else if v.Array? {
        forall i | 0 <= i < |v.items|
          ensures Depth(v.items[i]) >= n - 1 <==> Nest(v.items[i], n - 1)
        {
          DepthIsLongestNest(v.items[i], n - 1);
        }
      }
    }
  }

  // ---------- sizes ----------

  lemma {:induction false} ChildrenSizeIsTotal(v: Json, nodes: seq<Json>, n: nat)
    requires nodes == Children(v) && n <= |nodes|
    ensures ChildrenSize(v, n) == TotalSize(nodes, n)
    decreases n
  {
    if n > 0 {
      ChildrenSizeIsTotal(v, nodes, n - 1);
      assert ChildrenSize(v, n) == Size(nodes[n - 1]) + ChildrenSize(v, n - 1);
    }
  }

  lemma SizeIsTotal(v: Json)
    ensures Size(v) == 1 + TotalSize(Children(v), |Children(v)|)
  {
    ChildrenSizeIsTotal(v, Children(v), |Children(v)|);
  }

  // ---------- the probe ----------

  datatype Visit = Visit(node: Json, depth: int)

  /** Some container under the visited node lies deeper than the limit. */
  predicate TooDeep(visit: Visit, limit: int) {
    !IsScalar(visit.node) && visit.depth - 1 + Depth(visit.node) > limit
  }

  predicate AnyTooDeep(stack: seq<Visit>, limit: int) {
    exists i :: 0 <= i < |stack| && TooDeep(stack[i], limit)
  }

  lemma AnyTooDeepPush(stack: seq<Visit>, visit: Visit, limit: int)
    ensures AnyTooDeep(stack + [visit], limit) <==> AnyTooDeep(stack, limit) || TooDeep(visit, limit)
  {
    assert forall i :: 0 <= i < |stack| ==> (stack + [visit])[i] == stack[i];
    assert (stack + [visit])[|stack|] == visit;
  }

  function StackSize(stack: seq<Visit>): nat {
    if stack == [] then 0 else Size(stack[|stack| - 1].node) + StackSize(stack[..|stack| - 1])
  }

  lemma StackSizePush(stack: seq<Visit>, visit: Visit)
    ensures StackSize(stack + [visit]) == Size(visit.node) + StackSize(stack)
  {
    assert (stack + [visit])[..|stack|] == stack;
  }

  /** A container within the limit is too deep exactly when one of its children, one level down, is. */
  lemma TooDeepChildren(visit: Visit, limit: int)
    requires !IsScalar(visit.node) && visit.depth <= limit
    ensures TooDeep(visit, limit) <==> !AllWithin(Children(visit.node), |Children(visit.node)|, limit - visit.depth)
  {
    DepthOfChildren(visit.node, limit - visit.depth);
  }

  /** Nodes found at `depth` are too deep for the limit exactly when they are deeper than the `rest` of it. */
  method PushAll(stack: seq<Visit>, nodes: seq<Json>, depth: int, ghost rest: nat) returns (stack': seq<Visit>)
    ensures AnyTooDeep(stack', depth - 1 + rest) <==>
              AnyTooDeep(stack, depth - 1 + rest) || !AllWithin(nodes, |nodes|, rest)
    ensures StackSize(stack') == StackSize(stack) + TotalSize(nodes, |nodes|)
  {
    stack' := stack;
    for i := 0 to |nodes|
      invariant AnyTooDeep(stack', depth - 1 + rest) <==> AnyTooDeep(stack, depth - 1 + rest) || !AllWithin(nodes, i, rest)
      invariant StackSize(stack') == StackSize(stack) + TotalSize(nodes, i)
    {
      var visit := Visit(nodes[i], depth);
      AnyTooDeepPush(stack', visit, depth - 1 + rest);
      StackSizePush(stack', visit);
      WithinStep(nodes, i, depth, rest);
      stack' := stack' + [visit];
    }
  }

  lemma WithinStep(nodes: seq<Json>, i: nat, depth: int, rest: nat)
    requires i < |nodes|
    ensures AllWithin(nodes, i + 1, rest) <==> AllWithin(nodes, i, rest) && !TooDeep(Visit(nodes[i], depth), depth - 1 + rest)
  {
    assert Depth(nodes[i]) <= rest <==> !TooDeep(Visit(nodes[i], depth), depth - 1 + rest);
  }

  /** The explicit stack instead of recursion. */
  method Probe(root: Json, limit: int) returns (r: bool)
    ensures r <==> !IsScalar(root) && Depth(root) > limit
  {
    var stack := [Visit(root, 1)];
    AnyTooDeepPush([], Visit(root, 1), limit);
    assert [] + [Visit(root, 1)] == stack;
    while stack != []
      invariant AnyTooDeep(stack, limit) <==> !IsScalar(root) && Depth(root) > limit
      decreases StackSize(stack)
    {
      var visit, rest := stack[|stack| - 1], stack[..|stack| - 1];
      assert stack == rest + [visit];
      AnyTooDeepPush(rest, visit, limit);
      StackSizePush(rest, visit);
      SizeIsTotal(visit.node);
      stack := rest;
      if !IsScalar(visit.node) {
        if visit.depth > limit {
          return true;
        }
        TooDeepChildren(visit, limit);
        stack := PushAll(rest, Children(visit.node), visit.depth + 1, limit - visit.depth);
      }
    }
    return false;
  }

  /** `jsonContainerNestingExceeds`: whether more containers than the limit nest in each other. */
  method NestingExceeds(root: Json, limit: int) returns (r: bool)
    ensures r <==> !IsScalar(root) && Depth(root) > limit
    ensures limit >= 0 ==> (r <==> Nest(root, limit + 1))
    ensures limit < 0 ==> (r <==> root.Object? || root.Array?)
  {
    r := Probe(root, limit);
    if limit >= 0 {
      DepthIsLongestNest(root, limit + 1);
    }
  }

  // ---------- tool definitions ----------

  predicate Shallow(v: Json) {
    Depth(v) <= MAX_DEPTH
  }

  predicate AllShallow(members: map<string, Json>) {
    forall k :: k in members ==> Shallow(members[k])
  }

  predicate Described(function': Json) {
    && function'.Object?
    && "name" in function'.members && function'.members["name"].Str?
    && "parameters" in function'.members && function'.members["parameters"].Object?
  }

  predicate ToolOk(tool: Json) {
    && tool.Object?
    && Get(tool.members, "type") == Some(Str("function"))
    && "function" in tool.members && Described(tool.members["function"])
    && AllShallow(tool.members["function"].members)
    && AllShallow(tool.members - {"function"})
  }

  predicate ToolsOk(tools: Option<Json>) {
    tools.Some? && tools.value != Null ==>
      tools.value.Array? && forall i :: 0 <= i < |tools.value.items| ==> ToolOk(tools.value.items[i])
  }

  /** A function tool none of whose members nests more than 32 containers. */
  ghost predicate ProperTool(tool: Json) {
    && tool.Object? && "type" in tool.members && tool.members["type"] == Str("function")
    && "function" in tool.members && tool.members["function"].Object?
    && var f := tool.members["function"].members;
       && "name" in f && f["name"].Str?
       && "parameters" in f && f["parameters"].Object?
       && (forall k :: k in f ==> !Nest(f[k], 33))
       && (forall k :: k in tool.members && k != "function" ==> !Nest(tool.members[k], 33))
  }

  lemma ShallowIsNest(v: Json)
    ensures Shallow(v) <==> !Nest(v, 33)
  {
    DepthIsLongestNest(v, 33);
  }

  lemma AllShallowIsNest(members: map<string, Json>)
    ensures AllShallow(members) <==> forall k :: k in members ==> !Nest(members[k], 33)
  {
    forall k | k in members
      ensures Shallow(members[k]) <==> !Nest(members[k], 33)
    {
      ShallowIsNest(members[k]);
    }
  }

  /** The tool check accepts exactly the function tools none of whose members nests more than 32 containers. */
  lemma ToolOkMeans(tool: Json)
    ensures ToolOk(tool) <==> ProperTool(tool)
  {
    if tool.Object? && "function" in tool.members && tool.members["function"].Object? {
      AllShallowIsNest(tool.members["function"].members);
      var others := tool.members - {"function"};
      AllShallowIsNest(others);
      assert forall k :: k in others <==> k in tool.members && k != "function";
      assert forall k :: k in others ==> others[k] == tool.members[k];
    }
  }

  method CheckMember(v: Json) returns (ok: bool)
    ensures ok <==> Shallow(v)
  {
    var exceeds := NestingExceeds(v, MAX_DEPTH);
    return !exceeds;
  }

  method CheckKeys(members: map<string, Json>, keys: seq<string>) returns (ok: bool)
    requires forall j :: 0 <= j < |keys| ==> keys[j] in members
    ensures ok <==> forall j :: 0 <= j < |keys| ==> Shallow(members[keys[j]])
  {
    for i := 0 to |keys|
      invariant forall j :: 0 <= j < i ==> Shallow(members[keys[j]])
    {
      ok := CheckMember(members[keys[i]]);
      if !ok {
        return;
      }
    }
    return true;
  }

  method CheckMembers(members: map<string, Json>) returns (ok: bool)
    ensures ok <==> AllShallow(members)
  {
    var keys := Sorted(members.Keys);
    assert forall j :: 0 <= j < |keys| ==> keys[j] in keys;
    ok := CheckKeys(members, keys);
    assert forall k :: k in members ==> k in keys;
  }

  method ValidateTool(tool: Json) returns (ok: bool)
    ensures ok <==> ToolOk(tool)
    ensures ok <==> ProperTool(tool)
  {
    ToolOkMeans(tool);
    if !tool.Object? || Get(tool.members, "type") != Some(Str("function")) {
      return false;
    }
    if "function" !in tool.members || !Described(tool.members["function"]) {
      return false;
    }
    ok := CheckMembers(tool.members["function"].members);
    if ok {
      ok := CheckMembers(tool.members - {"function"});
    }
  }

  datatype ToolsVerdict = Accepted | NotAnArray | InvalidTool(index: nat)

  /** `validateTools`; a missing or null value is accepted, otherwise the first invalid tool is named. */
  method ValidateTools(tools: Option<Json>) returns (verdict: ToolsVerdict)
    ensures verdict.Accepted? <==> ToolsOk(tools)
    ensures verdict.Accepted? <==>
              (tools.Some? && !tools.value.Null? ==>
                 tools.value.Array? && forall i :: 0 <= i < |tools.value.items| ==> ProperTool(tools.value.items[i]))
    ensures verdict.InvalidTool? ==>
              && tools.Some? && tools.value.Array? && verdict.index < |tools.value.items|
              && !ToolOk(tools.value.items[verdict.index])
              && forall i :: 0 <= i < verdict.index ==> ToolOk(tools.value.items[i])
    ensures verdict.NotAnArray? <==> tools.Some? && tools.value != Null && !tools.value.Array?
  {
    if tools.None? || tools.value == Null {
      return Accepted;
    }
    if !tools.value.Array? {
      return NotAnArray;
    }
    var items := tools.value.items;
    for i := 0 to |items|
      invariant forall j :: 0 <= j < i ==> ToolOk(items[j]) && ProperTool(items[j])
    {
      var ok := ValidateTool(items[i]);
      if !ok {
        return InvalidTool(i);
      }
    }
    return Accepted;
  }

  /** Every walk of an accepted tool stays within two levels more than the limit. */
  lemma AcceptedToolIsBounded(tool: Json)
    requires ToolOk(tool)
    ensures Depth(tool) <= MAX_DEPTH + 2
  {
    DepthFromMembers(tool.members["function"], MAX_DEPTH);
    forall k | k in tool.members
      ensures Depth(tool.members[k]) <= MAX_DEPTH + 1
    {
      if k != "function" {
        assert Shallow((tool.members - {"function"})[k]);
      }
    }
    DepthFromMembers(tool, MAX_DEPTH + 1);
  }

  /** The whole list of accepted tools is one level more. */
  lemma AcceptedToolsAreBounded(tools: Option<Json>)
    requires ToolsOk(tools)
    ensures tools.Some? ==> Depth(tools.value) <= MAX_DEPTH + 3
  {
    if tools.Some? && tools.value.Array? {
      var items := tools.value.items;
      forall i | 0 <= i < |items|
        ensures Depth(items[i]) <= MAX_DEPTH + 2
      {
        AcceptedToolIsBounded(items[i]);
      }
      DepthOfChildren(tools.value, MAX_DEPTH + 2);
    }
  }

  function Nested(n: nat): Json {
    if n == 0 then Null else Array([Nested(n - 1)])
  }

  lemma {:induction false} NestedDepth(n: nat)
    ensures Depth(Nested(n)) == n
  {
    if n > 0 {
      NestedDepth(n - 1);
      var v := Nested(n);
      assert Children(v)[0] == Nested(n - 1);
      assert DeepestChild(v, 1) == Max(Depth(Children(v)[0]), DeepestChild(v, 0));
    }
  }

  function FunctionWith(description: Json): Json {
    Object(map["name" := Str("f"), "parameters" := Object(map[]), "description" := description])
  }

  function ToolWith(description: Json): Json {
    Object(map["type" := Str("function"), "function" := FunctionWith(description)])
  }

  lemma ToolWithIsOk(description: Json)
    requires Shallow(description)
    ensures ToolOk(ToolWith(description))
  {
    DepthFromMembers(Object(map[]), 0);
    assert AllShallow(FunctionWith(description).members);
    assert ToolWith(description).members - {"function"} == map["type" := Str("function")];
  }

  /** The bound on an accepted tool cannot be lowered. */
  lemma BoundIsReached() returns (tool: Json)
    ensures ToolOk(tool) && Depth(tool) == MAX_DEPTH + 2
  {
    var levels := MAX_DEPTH;
    var description := Nested(levels);
    NestedDepth(levels);
    ToolWithIsOk(description);
    tool := ToolWith(description);
    AcceptedToolIsBounded(tool);
    DepthAboveMember(FunctionWith(description), "description");
    DepthAboveMember(tool, "function");
  }
}
