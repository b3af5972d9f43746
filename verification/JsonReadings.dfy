/** Depth and raw equality of JSON values, read without the recursions that compute them. */
module JsonReadings {
  import opened JsonSchema

  // ---------- depth ----------

  /** One can step down `n` times, each time into a member or an item. */
  ghost predicate Descends(v: Json, n: nat)
    decreases n
  {
    || n == 0
    || (v.Object? && exists k :: k in v.members && Descends(v.members[k], n - 1))
    || (v.Array? && exists i :: 0 <= i < |v.items| && Descends(v.items[i], n - 1))
  }

  lemma {:induction false} DepthIsDescent(v: Json, n: nat)
    ensures JsonDepth(v) > n <==> Descends(v, n)
    decreases n, 1
  {
    if n > 0 {
      if v.Object? {
        MembersDescend(v, n);
      } else if v.Array? {
        ItemsDescend(v, n);
      }
    }
  }

  lemma {:induction false} MembersDescend(v: Json, n: nat)
    requires v.Object? && n > 0
    ensures JsonDepth(v) > n <==> Descends(v, n)
    decreases n, 0
  {
    DepthBound(v, n - 1);
    forall k | k in v.members
      ensures JsonDepth(v.members[k]) > n - 1 <==> Descends(v.members[k], n - 1)
    {
      DepthIsDescent(v.members[k], n - 1);
    }
  }

  lemma {:induction false} ItemsDescend(v: Json, n: nat)
    requires v.Array? && n > 0
    ensures JsonDepth(v) > n <==> Descends(v, n)
    decreases n, 0
  {
    DepthBound(v, n - 1);
    forall i | 0 <= i < |v.items|
      ensures JsonDepth(v.items[i]) > n - 1 <==> Descends(v.items[i], n - 1)
    {
      DepthIsDescent(v.items[i], n - 1);
    }
  }

  // ---------- equality ----------

  predicate WithoutDoubles(v: Json) {
    match v
    case Object(members) => forall k :: k in members ==> WithoutDoubles(members[k])
    case Array(items) => forall i :: 0 <= i < |items| ==> WithoutDoubles(items[i])
    case Double(_) => false
    case _ => true
  }

  /** Without doubles, raw equality is equality. */
  lemma {:induction false} RawEqualsIsEquality(nums: Numerics, x: Json, y: Json)
    requires WithoutDoubles(x) && WithoutDoubles(y)
    ensures RawEquals(nums, x, y) <==> x == y
    decreases x
  {
    match (x, y)
    case (Array(xs), Array(ys)) =>
      if |xs| == |ys| {
        forall i | 0 <= i < |xs|
          ensures RawEquals(nums, xs[i], ys[i]) <==> xs[i] == ys[i]
        {
          RawEqualsIsEquality(nums, xs[i], ys[i]);
        }
      }
    case (Object(m), Object(n)) =>
      forall k | k in m && k in n
        ensures RawEquals(nums, m[k], n[k]) <==> m[k] == n[k]
      {
        RawEqualsIsEquality(nums, m[k], n[k]);
      }
      if RawEquals(nums, x, y) {
        EqualKeys(m, n);
        assert m == n;
      }
    case _ =>
  }
}
