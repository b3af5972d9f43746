/** What `==` decides on configuration values. */
module PythonEquality {
  import opened ConfigTree

  /** A tree whose scalars are texts and nulls. */
  predicate Textual(v: Yaml) {
    match v
    case Scalar(s) => s.Null? || s.Text?
    case List(items) => forall i :: 0 <= i < |items| ==> Textual(items[i])
    case Map(entries) => forall k :: k in entries ==> Textual(entries[k])
  }

  /** On trees without numbers and booleans, `==` is equality. */
  lemma {:induction false} TextualEquality(a: Yaml, b: Yaml)
    requires Textual(a) && Textual(b)
    ensures PyEq(a, b) <==> a == b
    decreases a
  {
    match (a, b)
    case (List(xs), List(ys)) =>
      if |xs| == |ys| {
        forall i | 0 <= i < |xs|
          ensures PyEq(xs[i], ys[i]) <==> xs[i] == ys[i]
        {
          TextualEquality(xs[i], ys[i]);
        }
      }
    case (Map(m), Map(n)) =>
      forall k | k in m && k in n
        ensures PyEq(m[k], n[k]) <==> m[k] == n[k]
      {
        TextualEquality(m[k], n[k]);
      }
      if PyEq(a, b) {
        assert m == n;
      }
    case _ =>
  }

  /** Numbers and booleans compare by value, across their types, and with nothing else. */
  lemma NumbersCompare(x: Scalar, y: Scalar)
    ensures PyEq(Scalar(x), Scalar(y)) <==>
              match (x, y)
              case (Null, Null) => true
              case (Text(s), Text(t)) => s == t
              case (Bool(p), Bool(q)) => p == q
              case (Int(m), Int(n)) => m == n
              case (Float(r), Float(s)) => r == s
              case (Bool(p), Int(n)) => n == (if p then 1 else 0)
              case (Int(n), Bool(p)) => n == (if p then 1 else 0)
              case (Bool(p), Float(r)) => r == (if p then 1.0 else 0.0)
              case (Float(r), Bool(p)) => r == (if p then 1.0 else 0.0)
              case (Int(n), Float(r)) => n as real == r
              case (Float(r), Int(n)) => n as real == r
              case _ => false
  {
  }

  lemma {:induction false} PyEqSymmetric(a: Yaml, b: Yaml)
    requires PyEq(a, b)
    ensures PyEq(b, a)
    decreases a
  {
    match (a, b)
    case (List(xs), List(ys)) =>
      forall i | 0 <= i < |xs|
        ensures PyEq(ys[i], xs[i])
      {
        PyEqSymmetric(xs[i], ys[i]);
      }
    case (Map(m), Map(n)) =>
      forall k | k in n
        ensures k in m && PyEq(n[k], m[k])
      {
        PyEqSymmetric(m[k], n[k]);
      }
    case _ =>
  }

  /** Containers of different kinds, and containers and scalars, never compare equal. */
  lemma ShapesCompare(a: Yaml, b: Yaml)
    requires PyEq(a, b)
    ensures a.Scalar? == b.Scalar? && a.List? == b.List? && a.Map? == b.Map?
    ensures a.List? ==> |a.items| == |b.items| && forall i :: 0 <= i < |a.items| ==> PyEq(a.items[i], b.items[i])
    ensures a.Map? ==> a.entries.Keys == b.entries.Keys && forall k :: k in a.entries ==> PyEq(a.entries[k], b.entries[k])
  {
  }
}
