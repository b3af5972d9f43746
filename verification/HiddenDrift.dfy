/** Exactly which keys let flattening hide a difference: the alphabets on which no drift means equal. */
module HiddenDrift {
  import opened Decimals
  import opened StringOrder
  import opened ConfigTree
  import opened FlattenLossless
  import opened ConfigDrift

  // ---------- equal trees ----------

  predicate TablesEqual(t: Table, u: Table) {
    t.Keys == u.Keys && forall path :: path in t && path in u ==> PyEq(t[path], u[path])
  }

  lemma {:induction false} EqualTreesFlattenAlike(a: Yaml, b: Yaml, prefix: string)
    requires PyEq(a, b)
    ensures TablesEqual(Flatten(a, prefix), Flatten(b, prefix))
    decreases a, 1, 0
  {
    assert IsLeaf(a) <==> IsLeaf(b);
    if !IsLeaf(a) {
      if a.Map? {
        EqualEntriesFlattenAlike(a, b, Sorted(a.entries.Keys), prefix);
      } else {
        EqualItemsFlattenAlike(a, b, |a.items|, prefix);
      }
    }
  }

  lemma {:induction false} EqualEntriesFlattenAlike(a: Yaml, b: Yaml, keys: seq<string>, prefix: string)
    requires PyEq(a, b) && a.Map? && b.Map? && forall k :: k in keys ==> k in a.entries && k in b.entries
    ensures TablesEqual(FlattenEntries(a, keys, prefix), FlattenEntries(b, keys, prefix))
    decreases a, 0, |keys|
  {
    if keys != [] {
      var last := keys[|keys| - 1];
      EqualEntriesFlattenAlike(a, b, keys[..|keys| - 1], prefix);
      EqualTreesFlattenAlike(a.entries[last], b.entries[last], KeyPath(prefix, last));
    }
  }

  lemma {:induction false} EqualItemsFlattenAlike(a: Yaml, b: Yaml, n: nat, prefix: string)
    requires PyEq(a, b) && a.List? && b.List? && n <= |a.items|
    ensures TablesEqual(FlattenItems(a, n, prefix), FlattenItems(b, n, prefix))
    decreases a, 0, n
  {
    if n > 0 {
      EqualItemsFlattenAlike(a, b, n - 1, prefix);
      EqualTreesFlattenAlike(a.items[n - 1], b.items[n - 1], IndexPath(prefix, n - 1));
    }
  }

  /** Equal trees never drift, whatever their keys are. */
  lemma EqualTreesNeverDrift(a: Yaml, b: Yaml)
    requires PyEq(a, b)
    ensures Drifts(Flatten(a, ""), Flatten(b, "")) == []
  {
    EqualTreesFlattenAlike(a, b, "");
    NoDriftsAgree(Flatten(a, ""), Flatten(b, ""));
  }

  lemma {:induction false} PyEqReflexive(v: Yaml)
    ensures PyEq(v, v)
    decreases v
  {
    match v
    case Scalar(_) =>
    case List(items) =>
      forall i | 0 <= i < |items|
        ensures PyEq(items[i], items[i])
      {
        PyEqReflexive(items[i]);
      }
    case Map(entries) =>
      forall k | k in entries
        ensures PyEq(entries[k], entries[k])
      {
        PyEqReflexive(entries[k]);
      }
  }

  lemma OneEntry(key: string, v: Yaml, prefix: string)
    ensures Flatten(Map(map[key := v]), prefix) == Flatten(v, KeyPath(prefix, key))
  {
    var m := Map(map[key := v]);
    assert key in m.entries;
    var keys := Sorted(m.entries.Keys);
    assert m.entries.Keys == {key};
    SortedSingleton(key);
    assert keys[..0] == [];
    assert FlattenEntries(m, keys, prefix) == FlattenEntries(m, [], prefix) + Flatten(v, KeyPath(prefix, key));
    assert !IsLeaf(m);
  }

  // ---------- trees that flatten alike ----------

  /** The trees differ and no drift is reported. */
  predicate Hidden(a: Yaml, b: Yaml) {
    !PyEq(a, b) && Drifts(Flatten(a, ""), Flatten(b, "")) == []
  }

  lemma SameTableHides(a: Yaml, b: Yaml)
    requires Flatten(a, "") == Flatten(b, "") && !PyEq(a, b)
    ensures Hidden(a, b)
  {
    var table := Flatten(a, "");
    forall path | path in table
      ensures PyEq(table[path], table[path])
    {
      PyEqReflexive(table[path]);
    }
    NoDriftsAgree(table, table);
  }

  /** An empty key hides its own level. */
  lemma EmptyKeyHidesDrift(leaf: Yaml)
    requires IsLeaf(leaf)
    ensures Hidden(Map(map["" := leaf]), leaf)
  {
    OneEntry("", leaf, "");
    assert "" in map["" := leaf].Keys;
    SameTableHides(Map(map["" := leaf]), leaf);
  }

  /** Every key with a dot behind its first character hides a nested entry. */
  lemma DottedKeyHidesDrift(x: string, y: string, leaf: Yaml)
    requires x != "" && IsLeaf(leaf)
    ensures Hidden(Map(map[x + "." + y := leaf]), Map(map[x := Map(map[y := leaf])]))
  {
    var key, inner := x + "." + y, Map(map[y := leaf]);
    OneEntry(key, leaf, "");
    OneEntry(x, inner, "");
    OneEntry(y, leaf, x);
    assert KeyPath(x, y) == key;
    assert x in map[x := inner].Keys && x !in map[key := leaf].Keys;
    SameTableHides(Map(map[key := leaf]), Map(map[x := inner]));
  }

  function Copies(leaf: Yaml, n: nat): Yaml {
    List(seq(n, _ => leaf))
  }

  /** The first `n` copies as a list and the last one under a key that looks like its index. */
  function LastUnderKey(x: string, n: nat, leaf: Yaml): Yaml {
    if n == 0 then Map(map[IndexPath(x, 0) := leaf])
    else Map(map[x := Copies(leaf, n), IndexPath(x, n) := leaf])
  }

  function IndexTable(x: string, n: nat, leaf: Yaml): Table {
    if n == 0 then map[] else IndexTable(x, n - 1, leaf)[IndexPath(x, n - 1) := leaf]
  }

  lemma {:induction false} IndexTableValues(x: string, n: nat, leaf: Yaml, path: string)
    requires path in IndexTable(x, n, leaf)
    ensures IndexTable(x, n, leaf)[path] == leaf
    decreases n
  {
    if path != IndexPath(x, n - 1) {
      IndexTableValues(x, n - 1, leaf, path);
    }
  }

  lemma {:induction false} CopiesFlatten(x: string, leaf: Yaml, m: nat, n: nat)
    requires IsLeaf(leaf) && n <= m
    ensures FlattenItems(Copies(leaf, m), n, x) == IndexTable(x, n, leaf)
    decreases n
  {
    if n > 0 {
      CopiesFlatten(x, leaf, m, n - 1);
      assert Copies(leaf, m).items[n - 1] == leaf;
    }
  }

  lemma TwoEntries(x: string, u: Yaml, y: string, w: Yaml)
    requires x != y
    ensures Flatten(Map(map[x := u, y := w]), "") == Flatten(u, x) + Flatten(w, y)
         || Flatten(Map(map[x := u, y := w]), "") == Flatten(w, y) + Flatten(u, x)
  {
    var m := Map(map[x := u, y := w]);
    assert m.entries.Keys == {x, y};
    SortedPair(x, y);
    TwoKeys(m, x, y);
    TwoKeys(m, y, x);
    assert x in m.entries && !IsLeaf(m);
  }

  lemma TwoKeys(m: Yaml, x: string, y: string)
    requires m.Map? && x in m.entries && y in m.entries
    ensures FlattenEntries(m, [x, y], "") == Flatten(m.entries[x], x) + Flatten(m.entries[y], y)
  {
    assert [x, y][..1] == [x] && [x][..0] == [];
    assert FlattenEntries(m, [x], "") == FlattenEntries(m, [], "") + Flatten(m.entries[x], x);
  }

  lemma MergeConstant(table: Table, key: string, leaf: Yaml)
    requires forall path :: path in table ==> table[path] == leaf
    ensures table + map[key := leaf] == table[key := leaf] == map[key := leaf] + table
  {
  }

  lemma ListTable(x: string, n: nat, leaf: Yaml)
    requires x != "" && IsLeaf(leaf) && n > 0
    ensures Flatten(Copies(leaf, n), x) == IndexTable(x, n, leaf)
  {
    CopiesFlatten(x, leaf, n, n);
  }

  lemma LastUnderKeyTable(x: string, n: nat, leaf: Yaml)
    requires x != "" && IsLeaf(leaf)
    ensures Flatten(LastUnderKey(x, n, leaf), "") == IndexTable(x, n, leaf)[IndexPath(x, n) := leaf]
  {
    var key := IndexPath(x, n);
    assert |key| > |x|;
    assert KeyPath("", key) == key;
    if n == 0 {
      OneEntry(key, leaf, "");
    } else {
      TwoEntries(x, Copies(leaf, n), key, leaf);
      ListTable(x, n, leaf);
      forall path | path in IndexTable(x, n, leaf)
        ensures IndexTable(x, n, leaf)[path] == leaf
      {
        IndexTableValues(x, n, leaf, path);
      }
      MergeConstant(IndexTable(x, n, leaf), key, leaf);
    }
  }

  lemma KeyTellsApart(x: string, n: nat, leaf: Yaml, list: Yaml)
    ensures !PyEq(LastUnderKey(x, n, leaf), Map(map[x := list]))
  {
    var key := IndexPath(x, n);
    assert |key| > |x|;
    assert key in LastUnderKey(x, n, leaf).entries.Keys && key !in map[x := list].Keys;
  }

  /** Every key that ends like an index hides the last item of a list. */
  lemma IndexedKeyHidesDrift(x: string, n: nat, leaf: Yaml)
    requires x != "" && IsLeaf(leaf)
    ensures Hidden(LastUnderKey(x, n, leaf), Map(map[x := Copies(leaf, n + 1)]))
  {
    OneEntry(x, Copies(leaf, n + 1), "");
    ListTable(x, n + 1, leaf);
    LastUnderKeyTable(x, n, leaf);
    KeyTellsApart(x, n, leaf, Copies(leaf, n + 1));
    SameTableHides(LastUnderKey(x, n, leaf), Map(map[x := Copies(leaf, n + 1)]));
  }

  // ---------- the exact condition ----------

  /** On trees with non-empty keys over these characters, no drift means equal. */
  ghost predicate DriftDecides(chars: set<char>) {
    forall a, b :: KeysOver(a, chars) && KeysOver(b, chars) ==> (Drifts(Flatten(a, ""), Flatten(b, "")) == [] <==> PyEq(a, b))
  }

  lemma DecimalDigit(c: char) returns (n: nat)
    requires IsDigit(c)
    ensures Decimal(n) == [c]
  {
    n := DigitValue(c);
    assert Decimal(n) == [Digit(n)];
  }

  predicate Mapping(v: Yaml, chars: set<char>) {
    KeysOver(v, chars) && v.Map? && "providers" !in v.entries
  }

  lemma OneKeyMapping(key: string, v: Yaml, chars: set<char>)
    requires KeyOver(key, chars) && KeysOver(v, chars) && |key| < 9
    ensures Mapping(Map(map[key := v]), chars)
  {
    assert |"providers"| == 9;
  }

  lemma DottedPair(chars: set<char>, leaf: Yaml) returns (a: Yaml, b: Yaml)
    requires '.' in chars && leaf == List([])
    ensures Mapping(a, chars) && Mapping(b, chars) && Hidden(a, b)
  {
    var dot := ".";
    var inner := Map(map[dot := leaf]);
    a, b := Map(map[dot + "." + dot := leaf]), Map(map[dot := inner]);
    OneKeyMapping(dot + "." + dot, leaf, chars);
    OneKeyMapping(dot, leaf, chars);
    OneKeyMapping(dot, inner, chars);
    DottedKeyHidesDrift(dot, dot, leaf);
  }

  lemma CopiesOver(leaf: Yaml, n: nat, chars: set<char>)
    requires KeysOver(leaf, chars)
    ensures KeysOver(Copies(leaf, n), chars)
  {
  }

  lemma LastUnderKeyMapping(x: string, n: nat, leaf: Yaml, chars: set<char>)
    requires KeyOver(x, chars) && KeyOver(IndexPath(x, n), chars) && |x| < 9 && |IndexPath(x, n)| < 9 && KeysOver(leaf, chars)
    ensures Mapping(LastUnderKey(x, n, leaf), chars)
  {
    CopiesOver(leaf, n, chars);
    assert |"providers"| == 9;
  }

  lemma IndexedPair(chars: set<char>, c: char, leaf: Yaml) returns (a: Yaml, b: Yaml)
    requires '[' in chars && ']' in chars && c in chars && IsDigit(c) && leaf == List([])
    ensures Mapping(a, chars) && Mapping(b, chars) && Hidden(a, b)
  {
    var n := DecimalDigit(c);
    var x := [c];
    assert IndexPath(x, n) == [c, '[', c, ']'];
    a, b := LastUnderKey(x, n, leaf), Map(map[x := Copies(leaf, n + 1)]);
    LastUnderKeyMapping(x, n, leaf, chars);
    CopiesOver(leaf, n + 1, chars);
    OneKeyMapping(x, Copies(leaf, n + 1), chars);
    IndexedKeyHidesDrift(x, n, leaf);
  }

  /** Whenever keys can be mistaken for paths, two mappings over those keys differ without drift. */
  lemma HiddenPair(chars: set<char>) returns (a: Yaml, b: Yaml)
    requires !Unambiguous(chars)
    ensures Mapping(a, chars) && Mapping(b, chars) && Hidden(a, b)
  {
    if '.' in chars {
      a, b := DottedPair(chars, List([]));
    } else {
      var c :| c in chars && IsDigit(c);
      a, b := IndexedPair(chars, c, List([]));
    }
  }

  /** No drift means equal exactly for alphabets without a dot and without brackets and digits together. */
  lemma DriftDecidesIff(chars: set<char>)
    ensures DriftDecides(chars) <==> Unambiguous(chars)
  {
    if Unambiguous(chars) {
      forall a, b | KeysOver(a, chars) && KeysOver(b, chars)
        ensures Drifts(Flatten(a, ""), Flatten(b, "")) == [] <==> PyEq(a, b)
      {
        NoDriftIffEqual(a, b, chars);
      }
    } else {
      var a, b := HiddenPair(chars);
    }
  }
}
