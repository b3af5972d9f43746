/** `compare_flattened`: the paths on which two tables differ, and how. */
module ConfigDrift {
  import opened Wrappers
  import opened StringOrder
  import opened ConfigTree
  import opened FlattenLossless

  datatype DriftKind = LiveOnly | TrackedOnly | ValueMismatch

  datatype Drift = Drift(path: string, kind: DriftKind, tracked: Option<Yaml>, live: Option<Yaml>)

  function Entry(table: Table, path: string): Option<Yaml> {
    if path in table then Some(table[path]) else None
  }

  /** Two entries, of which `None` is the absent marker, compare equal. */
  predicate Same(x: Option<Yaml>, y: Option<Yaml>) {
    if x.Some? && y.Some? then PyEq(x.value, y.value) else x.None? && y.None?
  }

  function DriftAt(tracked: Table, live: Table, path: string): Drift {
    var t, l := Entry(tracked, path), Entry(live, path);
    Drift(path, if t.None? then LiveOnly else if l.None? then TrackedOnly else ValueMismatch, t, l)
  }

  /** The drifts among `paths`, in their order. */
  function DriftsAmong(tracked: Table, live: Table, paths: seq<string>): seq<Drift> {
    if paths == [] then []
    else
      var last := paths[|paths| - 1];
      var before := DriftsAmong(tracked, live, paths[..|paths| - 1]);
      if Same(Entry(tracked, last), Entry(live, last)) then before else before + [DriftAt(tracked, live, last)]
  }

  function Drifts(tracked: Table, live: Table): seq<Drift> {
    DriftsAmong(tracked, live, Sorted(tracked.Keys + live.Keys))
  }

  lemma DriftsStep(tracked: Table, live: Table, paths: seq<string>, i: nat)
    requires i < |paths|
    ensures var before := DriftsAmong(tracked, live, paths[..i]);
            DriftsAmong(tracked, live, paths[..i + 1]) ==
            if Same(Entry(tracked, paths[i]), Entry(live, paths[i])) then before else before + [DriftAt(tracked, live, paths[i])]
  {
    assert paths[..i + 1][..i] == paths[..i];
  }

  method CompareAt(tracked: Table, live: Table, paths: seq<string>) returns (drifts: seq<Drift>)
    ensures drifts == DriftsAmong(tracked, live, paths)
  {
    drifts := [];
    assert paths[..|paths|] == paths;
    for i := 0 to |paths|
      invariant drifts == DriftsAmong(tracked, live, paths[..i])
    {
      DriftsStep(tracked, live, paths, i);
      if !Same(Entry(tracked, paths[i]), Entry(live, paths[i])) {
        drifts := drifts + [DriftAt(tracked, live, paths[i])];
      }
    }
  }

  method CompareFlattened(tracked: Table, live: Table) returns (drifts: seq<Drift>)
    ensures drifts == Drifts(tracked, live)
  {
    drifts := CompareAt(tracked, live, Sorted(tracked.Keys + live.Keys));
  }

  lemma {:induction false} DriftsAmongExact(tracked: Table, live: Table, paths: seq<string>, d: Drift)
    ensures d in DriftsAmong(tracked, live, paths) <==>
            d.path in paths && d == DriftAt(tracked, live, d.path) && !Same(d.tracked, d.live)
    decreases |paths|
  {
    if paths != [] {
      DriftsAmongExact(tracked, live, paths[..|paths| - 1], d);
      assert paths == paths[..|paths| - 1] + [paths[|paths| - 1]];
    }
  }

  /** A drift is reported for exactly the paths whose entries differ. */
  lemma DriftsExact(tracked: Table, live: Table, path: string)
    ensures !Same(Entry(tracked, path), Entry(live, path)) <==> exists d :: d in Drifts(tracked, live) && d.path == path
  {
    var d := DriftAt(tracked, live, path);
    var paths := Sorted(tracked.Keys + live.Keys);
    DriftsAmongExact(tracked, live, paths, d);
    forall e | e in Drifts(tracked, live) && e.path == path
      ensures e == d
    {
      DriftsAmongExact(tracked, live, paths, e);
    }
  }

  predicate DistinctPaths(ds: seq<Drift>) {
    forall i, j :: 0 <= i < j < |ds| ==> ds[i].path != ds[j].path
  }

  lemma DistinctPathsPush(ds: seq<Drift>, last: Drift)
    requires DistinctPaths(ds) && forall i :: 0 <= i < |ds| ==> ds[i].path != last.path
    ensures DistinctPaths(ds + [last])
  {
    var more := ds + [last];
    assert forall i :: 0 <= i < |ds| ==> more[i] == ds[i];
  }

  lemma {:induction false} DriftPathsDistinct(tracked: Table, live: Table, paths: seq<string>)
    requires Distinct(paths)
    ensures DistinctPaths(DriftsAmong(tracked, live, paths))
    decreases |paths|
  {
    if paths != [] {
      var init, last := paths[..|paths| - 1], paths[|paths| - 1];
      DriftPathsDistinct(tracked, live, init);
      var before := DriftsAmong(tracked, live, init);
      assert last !in init;
      forall i | 0 <= i < |before|
        ensures before[i].path in init
      {
        DriftsAmongExact(tracked, live, init, before[i]);
      }
      DistinctPathsPush(before, DriftAt(tracked, live, last));
    }
  }

  // ---------- drift and equality ----------

  ghost predicate LeavesAgree(a: Yaml, b: Yaml) {
    forall path :: Same(Leaf(a, path), Leaf(b, path))
  }

  lemma {:induction false} EqualLeaves(a: Yaml, b: Yaml, path: seq<Token>)
    requires PyEq(a, b)
    ensures Same(Leaf(a, path), Leaf(b, path))
    decreases |path|
  {
    if path == [] {
      assert IsLeaf(a) <==> IsLeaf(b);
    } else if HasChild(a, path[0]) {
      EqualLeaves(Child(a, path[0]), Child(b, path[0]), path[1..]);
    }
  }

  lemma ChildLeavesAgree(a: Yaml, b: Yaml, t: Token)
    requires LeavesAgree(a, b) && HasChild(a, t) && HasChild(b, t)
    ensures LeavesAgree(Child(a, t), Child(b, t))
  {
    forall path
      ensures Same(Leaf(Child(a, t), path), Leaf(Child(b, t), path))
    {
      assert ([t] + path)[1..] == path;
      assert Same(Leaf(a, [t] + path), Leaf(b, [t] + path));
    }
  }

  lemma SameChildren(a: Yaml, b: Yaml, t: Token)
    requires LeavesAgree(a, b)
    ensures HasChild(a, t) <==> HasChild(b, t)
  {
    if HasChild(a, t) {
      var path := SomeLeaf(Child(a, t));
      assert ([t] + path)[1..] == path;
      assert Same(Leaf(a, [t] + path), Leaf(b, [t] + path));
    }
    if HasChild(b, t) {
      var path := SomeLeaf(Child(b, t));
      assert ([t] + path)[1..] == path;
      assert Same(Leaf(a, [t] + path), Leaf(b, [t] + path));
    }
  }

  lemma {:induction false} LeavesDetermine(a: Yaml, b: Yaml)
    requires LeavesAgree(a, b)
    ensures PyEq(a, b)
  {
    assert Same(Leaf(a, []), Leaf(b, []));
    if !IsLeaf(a) {
      forall t
        ensures HasChild(a, t) <==> HasChild(b, t)
      {
        SameChildren(a, b, t);
      }
      if a.Map? {
        var k :| k in a.entries;
        assert HasChild(a, Key(k));
        forall j
          ensures j in a.entries <==> b.Map? && j in b.entries
        {
          assert HasChild(a, Key(j)) <==> HasChild(b, Key(j));
        }
        forall j | j in a.entries
          ensures PyEq(a.entries[j], b.entries[j])
        {
          ChildLeavesAgree(a, b, Key(j));
          LeavesDetermine(a.entries[j], b.entries[j]);
        }
      } else {
        SameLengths(a, b);
        forall i | 0 <= i < |a.items|
          ensures PyEq(a.items[i], b.items[i])
        {
          ChildLeavesAgree(a, b, Index(i));
          LeavesDetermine(a.items[i], b.items[i]);
        }
      }
    }
  }

  lemma SameLengths(a: Yaml, b: Yaml)
    requires a.List? && a.items != [] && forall t :: HasChild(a, t) <==> HasChild(b, t)
    ensures b.List? && |a.items| == |b.items|
  {
    assert HasChild(a, Index(0)) && HasChild(b, Index(0));
    assert HasChild(a, Index(|a.items| - 1)) && !HasChild(a, Index(|a.items|));
    assert HasChild(b, Index(|b.items| - 1));
  }

  lemma TablePath(v: Yaml, s: string, chars: set<char>) returns (path: seq<Token>)
    requires Unambiguous(chars) && KeysOver(v, chars) && s in Flatten(v, "")
    ensures PathOver(path, chars) && s == Render(path) && Leaf(v, path).Some?
  {
    FlattenHolds(v, [], chars);
    path := NamedPath(v, [], ALL, s);
    assert [] + path == path;
    LeafPathGood(v, path, chars);
  }

  lemma LeafInTable(v: Yaml, path: seq<Token>, chars: set<char>)
    requires Unambiguous(chars) && KeysOver(v, chars) && Leaf(v, path).Some?
    ensures Entry(Flatten(v, ""), Render(path)) == Leaf(v, path)
  {
    FlattenHolds(v, [], chars);
    assert Starts(path, ALL);
    assert [] + path == path;
    assert Covers(Flatten(v, ""), v, [], ALL);
  }

  lemma TableEntry(v: Yaml, path: seq<Token>, chars: set<char>)
    requires Unambiguous(chars) && KeysOver(v, chars) && PathOver(path, chars)
    ensures Entry(Flatten(v, ""), Render(path)) == Leaf(v, path)
  {
    if Leaf(v, path).Some? {
      LeafInTable(v, path, chars);
    } else if Render(path) in Flatten(v, "") {
      var named := TablePath(v, Render(path), chars);
      RenderInjective(path, named, chars);
    }
  }

  ghost predicate TablesAgree(tracked: Table, live: Table) {
    forall s :: Same(Entry(tracked, s), Entry(live, s))
  }

  lemma TablesAgreeIffLeavesAgree(a: Yaml, b: Yaml, chars: set<char>)
    requires Unambiguous(chars) && KeysOver(a, chars) && KeysOver(b, chars)
    ensures LeavesAgree(a, b) <==> TablesAgree(Flatten(a, ""), Flatten(b, ""))
  {
    if LeavesAgree(a, b) {
      forall s
        ensures Same(Entry(Flatten(a, ""), s), Entry(Flatten(b, ""), s))
      {
        if s in Flatten(a, "") || s in Flatten(b, "") {
          var path := TablePath(if s in Flatten(a, "") then a else b, s, chars);
          TableEntry(a, path, chars);
          TableEntry(b, path, chars);
        }
      }
    }
    if TablesAgree(Flatten(a, ""), Flatten(b, "")) {
      forall path
        ensures Same(Leaf(a, path), Leaf(b, path))
      {
        if Leaf(a, path).Some? || Leaf(b, path).Some? {
          LeafPathGood(if Leaf(a, path).Some? then a else b, path, chars);
          TableEntry(a, path, chars);
          TableEntry(b, path, chars);
        }
      }
    }
  }

  lemma NoDriftsAgree(tracked: Table, live: Table)
    ensures Drifts(tracked, live) == [] <==> TablesAgree(tracked, live)
  {
    forall s | Drifts(tracked, live) == []
      ensures Same(Entry(tracked, s), Entry(live, s))
    {
      DriftsExact(tracked, live, s);
    }
    if Drifts(tracked, live) != [] {
      var d := Drifts(tracked, live)[0];
      DriftsExact(tracked, live, d.path);
      assert !Same(Entry(tracked, d.path), Entry(live, d.path));
    }
  }

  /** No drift is reported exactly when the trees are equal. */
  lemma NoDriftIffEqual(a: Yaml, b: Yaml, chars: set<char>)
    requires Unambiguous(chars) && KeysOver(a, chars) && KeysOver(b, chars)
    ensures Drifts(Flatten(a, ""), Flatten(b, "")) == [] <==> PyEq(a, b)
  {
    var tracked, live := Flatten(a, ""), Flatten(b, "");
    TablesAgreeIffLeavesAgree(a, b, chars);
    if Drifts(tracked, live) == [] {
      NoDriftsAgree(tracked, live);
      LeavesDetermine(a, b);
    }
    if PyEq(a, b) {
      forall path
        ensures Same(Leaf(a, path), Leaf(b, path))
      {
        EqualLeaves(a, b, path);
      }
      NoDriftsAgree(tracked, live);
    }
  }
}
