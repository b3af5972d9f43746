/**
 The verdict of `reconcile` in terms of the two configurations: exit status 0 exactly when every
 difference between them is one that the manifest states. `Accounted` says so on the trees, the lists of
 rows and the rules themselves, without any of the tests that the classification uses.
 */
module ReconcileVerdict {
  import opened Wrappers
  import opened StringOrder
  import opened ConfigTree
  import opened FlattenLossless
  import opened ConfigDrift
  import opened HiddenDrift
  import opened ConfigReconcile

  // ---------- differences that a rule states ----------

  /** A configuration without its provider rows. */
  function Rest(config: Yaml): Yaml {
    if config.Map? then Map(map k | k in config.entries && k != "providers" :: config.entries[k]) else config
  }

  /** The two sides of a path are equal, or the rule for its text has the kind of the difference and states no other value. */
  predicate Stated(t: Option<Yaml>, l: Option<Yaml>, path: string, known: map<string, Rule>) {
    || (t.None? && l.None?)
    || (t.Some? && l.Some? && PyEq(t.value, l.value))
    || (&& path in known
        && (t.Some? && l.Some? ==> known[path].kind == ValueMismatch)
        && (t.Some? && l.None? ==> known[path].kind == TrackedOnly)
        && (t.None? && l.Some? ==> known[path].kind == LiveOnly)
        && (known[path].tracked.Some? ==> t.Some? && PyEq(known[path].tracked.value, t.value))
        && (known[path].live.Some? ==> l.Some? && PyEq(known[path].live.value, l.value)))
  }

  /** Every leaf that differs is stated. */
  ghost predicate LeavesStated(a: Yaml, b: Yaml, known: map<string, Rule>) {
    forall path :: Stated(Leaf(a, path), Leaf(b, path), Render(path), known)
  }

  /** Every path of the flat tables whose entries differ is stated. */
  ghost predicate PathsStated(a: Table, b: Table, known: map<string, Rule>) {
    forall path :: Stated(if path in a then Some(a[path]) else None, if path in b then Some(b[path]) else None, path, known)
  }

  // ---------- provider rows ----------

  /** The provider rows; nothing if the section is something else than a list. */
  function Rows(config: Yaml): Option<seq<Yaml>> {
    if config.Map? && "providers" in config.entries then
      if config.entries["providers"].List? then Some(config.entries["providers"].items) else None
    else Some([])
  }

  predicate HasId(row: Yaml, id: string) {
    id != "" && row.Map? && "provider_id" in row.entries && row.entries["provider_id"] == Scalar(Text(id))
  }

  ghost predicate Named(row: Yaml) {
    exists id :: HasId(row, id)
  }

  ghost predicate RowsProper(rows: seq<Yaml>) {
    && (forall i :: 0 <= i < |rows| ==> Named(rows[i]))
    && (forall i, j, id :: 0 <= i < j < |rows| ==> !(HasId(rows[i], id) && HasId(rows[j], id)))
  }

  predicate OfType(v: Yaml, t: FieldType) {
    || (t.StringField? && v.Scalar? && v.scalar.Text?)
    || (t.BooleanField? && v.Scalar? && v.scalar.Bool?)
    || (t.IntegerField? && v.Scalar? && v.scalar.Int?)
    || (t.NumberField? && v.Scalar? && (v.scalar.Int? || v.scalar.Float?))
    || (t.StringListField? && v.List? && forall i :: 0 <= i < |v.items| ==> v.items[i].Scalar? && v.items[i].scalar.Text?)
  }

  ghost predicate Lists(rows: seq<Yaml>, id: string) {
    exists i :: 0 <= i < |rows| && HasId(rows[i], id)
  }

  /** The live rows have a row equal to this one. */
  ghost predicate HasEqual(rows: seq<Yaml>, id: string, row: Yaml) {
    exists i :: 0 <= i < |rows| && HasId(rows[i], id) && PyEq(row, rows[i])
  }

  /** A row only the live side has is listed in the manifest, with listed fields of the listed types. */
  ghost predicate AdmittedRow(row: Yaml, id: string, manifest: Manifest)
    requires row.Map?
  {
    && id in manifest.pearlStatic
    && forall f :: f in row.entries ==> f in manifest.fieldTypes && OfType(row.entries[f], manifest.fieldTypes[f])
  }

  ghost predicate RowsStated(tracked: seq<Yaml>, live: seq<Yaml>, manifest: Manifest) {
    && (forall i, id :: 0 <= i < |tracked| && HasId(tracked[i], id) ==> HasEqual(live, id, tracked[i]))
    && (forall j, id :: 0 <= j < |live| && HasId(live[j], id) && !Lists(tracked, id) ==> AdmittedRow(live[j], id, manifest))
  }

  ghost predicate ProvidersAccounted(tracked: Yaml, live: Yaml, manifest: Manifest) {
    && Rows(tracked).Some? && RowsProper(Rows(tracked).value)
    && Rows(live).Some? && RowsProper(Rows(live).value)
    && RowsStated(Rows(tracked).value, Rows(live).value, manifest)
  }

  /** Every difference between the two configurations is one that the manifest states. */
  ghost predicate Accounted(tracked: Yaml, live: Yaml, manifest: Manifest) {
    LeavesStated(Rest(tracked), Rest(live), manifest.known) && ProvidersAccounted(tracked, live, manifest)
  }

  // ---------- drifts and stated differences ----------

  lemma RestIsStripped(config: Yaml)
    ensures Rest(config) == StripProviders(config)
  {
    if config.Map? {
      assert Rest(config).entries == config.entries - {"providers"};
    }
  }

  function LeafDrift(tracked: Yaml, live: Yaml, path: seq<Token>): Drift {
    var t, l := Leaf(tracked, path), Leaf(live, path);
    Drift(Render(path), if t.None? then LiveOnly else if l.None? then TrackedOnly else ValueMismatch, t, l)
  }

  lemma ExplainedMeans(tracked: Option<Yaml>, live: Option<Yaml>, path: string, known: map<string, Rule>)
    ensures Stated(tracked, live, path, known) <==>
              Same(tracked, live) ||
              Explained(Drift(path, if tracked.None? then LiveOnly else if live.None? then TrackedOnly else ValueMismatch,
                              tracked, live), known)
  {
  }

  lemma DriftIsLeafDrift(a: Yaml, b: Yaml, path: seq<Token>, chars: set<char>)
    requires Unambiguous(chars) && KeysOver(a, chars) && KeysOver(b, chars) && !Same(Leaf(a, path), Leaf(b, path))
    ensures LeafDrift(a, b, path) in Drifts(Flatten(a, ""), Flatten(b, ""))
  {
    LeafPathGood(if Leaf(a, path).Some? then a else b, path, chars);
    TableEntry(a, path, chars);
    TableEntry(b, path, chars);
    var tracked, live := Flatten(a, ""), Flatten(b, "");
    DriftsAmongExact(tracked, live, Sorted(tracked.Keys + live.Keys), LeafDrift(a, b, path));
  }

  lemma DriftHasPath(a: Yaml, b: Yaml, d: Drift, chars: set<char>) returns (path: seq<Token>)
    requires Unambiguous(chars) && KeysOver(a, chars) && KeysOver(b, chars) && d in Drifts(Flatten(a, ""), Flatten(b, ""))
    ensures d == LeafDrift(a, b, path) && !Same(Leaf(a, path), Leaf(b, path))
  {
    var tracked, live := Flatten(a, ""), Flatten(b, "");
    DriftsAmongExact(tracked, live, Sorted(tracked.Keys + live.Keys), d);
    path := TablePath(if d.path in tracked then a else b, d.path, chars);
    TableEntry(a, path, chars);
    TableEntry(b, path, chars);
  }

  lemma LeavesStatedMean(a: Yaml, b: Yaml, known: map<string, Rule>, chars: set<char>)
    requires Unambiguous(chars) && KeysOver(a, chars) && KeysOver(b, chars)
    ensures AllExplained(Drifts(Flatten(a, ""), Flatten(b, "")), known) <==> LeavesStated(a, b, known)
  {
    var drifts := Drifts(Flatten(a, ""), Flatten(b, ""));
    if AllExplained(drifts, known) {
      forall path
        ensures Stated(Leaf(a, path), Leaf(b, path), Render(path), known)
      {
        ExplainedMeans(Leaf(a, path), Leaf(b, path), Render(path), known);
        if !Same(Leaf(a, path), Leaf(b, path)) {
          DriftIsLeafDrift(a, b, path, chars);
          var i :| 0 <= i < |drifts| && drifts[i] == LeafDrift(a, b, path);
        }
      }
    }
    if LeavesStated(a, b, known) {
      forall i | 0 <= i < |drifts|
        ensures Explained(drifts[i], known)
      {
        var path := DriftHasPath(a, b, drifts[i], chars);
        ExplainedMeans(Leaf(a, path), Leaf(b, path), Render(path), known);
      }
    }
  }

  /** The same on the flat tables, whatever the keys are. */
  lemma PathsStatedMean(a: Table, b: Table, known: map<string, Rule>)
    ensures AllExplained(Drifts(a, b), known) <==> PathsStated(a, b, known)
  {
    var drifts := Drifts(a, b);
    var paths := Sorted(a.Keys + b.Keys);
    if AllExplained(drifts, known) {
      forall path
        ensures Stated(if path in a then Some(a[path]) else None, if path in b then Some(b[path]) else None, path, known)
      {
        ExplainedMeans(Entry(a, path), Entry(b, path), path, known);
        if !Same(Entry(a, path), Entry(b, path)) {
          DriftsAmongExact(a, b, paths, DriftAt(a, b, path));
          var i :| 0 <= i < |drifts| && drifts[i] == DriftAt(a, b, path);
        }
      }
    }
    if PathsStated(a, b, known) {
      forall i | 0 <= i < |drifts|
        ensures Explained(drifts[i], known)
      {
        DriftsAmongExact(a, b, paths, drifts[i]);
        ExplainedMeans(Entry(a, drifts[i].path), Entry(b, drifts[i].path), drifts[i].path, known);
      }
    }
  }

  /** The rule for the path of the drift has its kind and states no other value. */
  predicate StatedDrift(d: Drift, known: map<string, Rule>) {
    && d.path in known && known[d.path].kind == d.kind
    && (known[d.path].tracked.None? || (d.tracked.Some? && PyEq(known[d.path].tracked.value, d.tracked.value)))
    && (known[d.path].live.None? || (d.live.Some? && PyEq(known[d.path].live.value, d.live.value)))
  }

  predicate Lands(d: Drift, known: map<string, Rule>, c: Category) {
    match c
    case Unknown => !StatedDrift(d, known)
    case Inference => StatedDrift(d, known) && known[d.path].inference
    case Evidence => StatedDrift(d, known) && !known[d.path].inference
  }

  /** Which drifts each of the three lists reports. */
  lemma {:induction false} ListsMean(drifts: seq<Drift>, known: map<string, Rule>, c: Category, f: Finding)
    ensures f in FindingsOf(drifts, known, c) <==>
              exists i :: 0 <= i < |drifts| && f == Finding(c, drifts[i].path) && Lands(drifts[i], known, c)
    decreases |drifts|
  {
    if drifts != [] {
      var n := |drifts| - 1;
      ListsMean(drifts[..n], known, c, f);
      assert forall i :: 0 <= i < n ==> drifts[..n][i] == drifts[i];
      assert CategoryOf(drifts[n], known) == c <==> Lands(drifts[n], known, c);
    }
  }

  // ---------- provider rows and the table by id ----------

  lemma IdMeans(row: Yaml, id: string)
    ensures RowId(row) == Some(id) <==> HasId(row, id)
  {
  }

  lemma IdsMean(rows: seq<Yaml>)
    ensures forall i, id :: 0 <= i < |rows| ==> (RowId(rows[i]) == Some(id) <==> HasId(rows[i], id))
  {
    forall i, id | 0 <= i < |rows|
      ensures RowId(rows[i]) == Some(id) <==> HasId(rows[i], id)
    {
      IdMeans(rows[i], id);
    }
  }

  lemma CleanIsProper(rows: seq<Yaml>)
    requires RowsClean(rows)
    ensures RowsProper(rows)
  {
    IdsMean(rows);
    forall i | 0 <= i < |rows|
      ensures Named(rows[i])
    {
      assert HasId(rows[i], RowId(rows[i]).value);
    }
    forall i, j, id | 0 <= i < j < |rows|
      ensures !(HasId(rows[i], id) && HasId(rows[j], id))
    {
      assert RowId(rows[i]) != RowId(rows[j]);
    }
  }

  lemma ProperIsClean(rows: seq<Yaml>)
    requires RowsProper(rows)
    ensures RowsClean(rows)
  {
    forall i | 0 <= i < |rows|
      ensures RowId(rows[i]).Some?
    {
      assert Named(rows[i]);
      var id :| HasId(rows[i], id);
      IdMeans(rows[i], id);
    }
    forall i, j | 0 <= i < j < |rows|
      ensures RowId(rows[i]) != RowId(rows[j])
    {
      var id := RowId(rows[i]).value;
      IdMeans(rows[i], id);
      IdMeans(rows[j], id);
    }
  }

  lemma CleanMeans(config: Yaml)
    ensures CleanProviders(config) <==> Rows(config).Some? && RowsProper(Rows(config).value)
    ensures Rows(config) == ProviderList(config)
  {
    if Rows(config).Some? {
      var rows := Rows(config).value;
      if RowsClean(rows) {
        CleanIsProper(rows);
      }
      if RowsProper(rows) {
        ProperIsClean(rows);
      }
    }
  }

  lemma RowOfId(rows: seq<Yaml>, i: nat, id: string)
    requires RowsProper(rows) && i < |rows| && HasId(rows[i], id)
    ensures id in RowsById(rows) && RowsById(rows)[id] == rows[i]
  {
    forall j | 0 <= j < i
      ensures RowId(rows[j]) != RowId(rows[i])
    {
      IdMeans(rows[j], id);
      IdMeans(rows[i], id);
    }
    IdMeans(rows[i], id);
    FirstRowStays(rows, i);
  }

  lemma IdOfRow(rows: seq<Yaml>, id: string) returns (i: nat)
    requires id in RowsById(rows)
    ensures i < |rows| && HasId(rows[i], id) && RowsById(rows)[id] == rows[i]
  {
    RowsByIdExact(rows);
    i :| 0 <= i < |rows| && rows[i] == RowsById(rows)[id];
    IdMeans(rows[i], id);
  }

  lemma FieldsMean(row: Yaml, types: map<string, FieldType>)
    requires row.Map?
    ensures FieldsTyped(row, types) <==> forall f :: f in row.entries ==> f in types && OfType(row.entries[f], types[f])
  {
    forall f | f in row.entries && f in types
      ensures MatchesType(row.entries[f], types[f]) <==> OfType(row.entries[f], types[f])
    {
    }
  }

  /** Tracked rows are live and equal; rows that are only live are listed, with listed and typed fields. */
  ghost predicate TableAccounted(tracked: map<string, Yaml>, live: map<string, Yaml>, manifest: Manifest) {
    && (forall id :: id in tracked ==> id in live && PyEq(tracked[id], live[id]))
    && (forall id :: id in live && id !in tracked ==> id in manifest.pearlStatic && FieldsTyped(live[id], manifest.fieldTypes))
  }

  lemma TableReconciled(tracked: map<string, Yaml>, live: map<string, Yaml>, manifest: Manifest, chars: set<char>)
    requires Unambiguous(chars)
    requires forall id :: id in tracked ==> KeysOver(tracked[id], chars)
    requires forall id :: id in live ==> KeysOver(live[id], chars)
    ensures RowsReconciled(tracked, live, manifest) <==> TableAccounted(tracked, live, manifest)
  {
    forall id | id in tracked && id in live
      ensures PyEq(tracked[id], live[id]) <==> RowReconciled(id, tracked, live, manifest)
    {
      NoDriftIffEqual(tracked[id], live[id], chars);
    }
  }

  lemma ListedIffIndexed(rows: seq<Yaml>, id: string)
    requires RowsProper(rows)
    ensures Lists(rows, id) <==> id in RowsById(rows)
  {
    if Lists(rows, id) {
      var i :| 0 <= i < |rows| && HasId(rows[i], id);
      RowOfId(rows, i, id);
    }
    if id in RowsById(rows) {
      var i := IdOfRow(rows, id);
    }
  }

  lemma TableMeans(tracked: seq<Yaml>, live: seq<Yaml>, manifest: Manifest)
    requires RowsProper(tracked) && RowsProper(live) && TableAccounted(RowsById(tracked), RowsById(live), manifest)
    ensures RowsStated(tracked, live, manifest)
  {
    forall i, id | 0 <= i < |tracked| && HasId(tracked[i], id)
      ensures HasEqual(live, id, tracked[i])
    {
      RowOfId(tracked, i, id);
      var j := IdOfRow(live, id);
    }
    forall j, id | 0 <= j < |live| && HasId(live[j], id) && !Lists(tracked, id)
      ensures AdmittedRow(live[j], id, manifest)
    {
      RowOfId(live, j, id);
      ListedIffIndexed(tracked, id);
      FieldsMean(live[j], manifest.fieldTypes);
    }
  }

  lemma StatedMeansTable(tracked: seq<Yaml>, live: seq<Yaml>, manifest: Manifest)
    requires RowsProper(tracked) && RowsProper(live) && RowsStated(tracked, live, manifest)
    ensures TableAccounted(RowsById(tracked), RowsById(live), manifest)
  {
    forall id | id in RowsById(tracked)
      ensures id in RowsById(live) && PyEq(RowsById(tracked)[id], RowsById(live)[id])
    {
      var i := IdOfRow(tracked, id);
      var j :| 0 <= j < |live| && HasId(live[j], id) && PyEq(tracked[i], live[j]);
      RowOfId(live, j, id);
    }
    forall id | id in RowsById(live) && id !in RowsById(tracked)
      ensures id in manifest.pearlStatic && FieldsTyped(RowsById(live)[id], manifest.fieldTypes)
    {
      var j := IdOfRow(live, id);
      ListedIffIndexed(tracked, id);
      assert AdmittedRow(live[j], id, manifest);
      FieldsMean(live[j], manifest.fieldTypes);
    }
  }

  // ---------- the verdict ----------

  lemma ProvidersGood(config: Yaml, id: string, chars: set<char>)
    requires KeysOver(config, chars) && id in Providers(config)
    ensures KeysOver(Providers(config)[id], chars)
  {
    var rows := ProviderList(config).value;
    RowsByIdExact(rows);
    assert rows != [] && KeysOver(config.entries["providers"], chars);
  }

  lemma RowsGood(config: Yaml, chars: set<char>)
    requires KeysOver(config, chars)
    ensures forall id :: id in Providers(config) ==> KeysOver(Providers(config)[id], chars)
  {
    forall id | id in Providers(config)
      ensures KeysOver(Providers(config)[id], chars)
    {
      ProvidersGood(config, id, chars);
    }
  }

  lemma ProvidersMean(tracked: Yaml, live: Yaml, manifest: Manifest, chars: set<char>)
    requires Unambiguous(chars) && KeysOver(tracked, chars) && KeysOver(live, chars)
    ensures CleanProviders(tracked) && CleanProviders(live) && RowsReconciled(Providers(tracked), Providers(live), manifest) <==>
            ProvidersAccounted(tracked, live, manifest)
  {
    CleanMeans(tracked);
    CleanMeans(live);
    if CleanProviders(tracked) && CleanProviders(live) {
      RowsGood(tracked, chars);
      RowsGood(live, chars);
      TableReconciled(Providers(tracked), Providers(live), manifest, chars);
      var t, l := Rows(tracked).value, Rows(live).value;
      if TableAccounted(RowsById(t), RowsById(l), manifest) {
        TableMeans(t, l, manifest);
      }
      if RowsStated(t, l, manifest) {
        StatedMeansTable(t, l, manifest);
      }
    }
  }

  /** For keys over an unambiguous alphabet, `reconcile` accepts exactly the configurations whose differences are accounted for. */
  lemma ReconciledIffAccounted(tracked: Yaml, live: Yaml, manifest: Manifest, chars: set<char>)
    requires Unambiguous(chars) && KeysOver(tracked, chars) && KeysOver(live, chars)
    ensures Reconciled(tracked, live, manifest) <==> Accounted(tracked, live, manifest)
  {
    RestIsStripped(tracked);
    RestIsStripped(live);
    LeavesStatedMean(StripProviders(tracked), StripProviders(live), manifest.known, chars);
    ProvidersMean(tracked, live, manifest, chars);
  }

  /** On configurations with non-empty keys over these characters, the verdict is the accounting. */
  ghost predicate ReconcileDecides(chars: set<char>) {
    forall tracked, live, manifest :: KeysOver(tracked, chars) && KeysOver(live, chars) ==>
      (Reconciled(tracked, live, manifest) <==> Accounted(tracked, live, manifest))
  }

  lemma NoRuleNoDifference(a: Yaml, b: Yaml)
    requires LeavesStated(a, b, map[])
    ensures PyEq(a, b)
  {
    forall path
      ensures Same(Leaf(a, path), Leaf(b, path))
    {
      assert Stated(Leaf(a, path), Leaf(b, path), Render(path), map[]);
    }
    LeavesDetermine(a, b);
  }

  lemma HiddenIsReconciled(a: Yaml, b: Yaml, manifest: Manifest)
    requires Hidden(a, b) && a.Map? && b.Map? && "providers" !in a.entries && "providers" !in b.entries
    requires manifest.known == map[]
    ensures Reconciled(a, b, manifest) && !Accounted(a, b, manifest)
  {
    assert StripProviders(a) == a && StripProviders(b) == b;
    RestIsStripped(a);
    RestIsStripped(b);
    if LeavesStated(a, b, manifest.known) {
      NoRuleNoDifference(a, b);
    }
  }

  /** The verdict can be trusted exactly for the alphabets on which flattening hides nothing. */
  lemma ReconcileDecidesIff(chars: set<char>)
    ensures ReconcileDecides(chars) <==> Unambiguous(chars)
  {
    if Unambiguous(chars) {
      forall tracked, live, manifest | KeysOver(tracked, chars) && KeysOver(live, chars)
        ensures Reconciled(tracked, live, manifest) <==> Accounted(tracked, live, manifest)
      {
        ReconciledIffAccounted(tracked, live, manifest, chars);
      }
    } else {
      var a, b := HiddenPair(chars);
      HiddenIsReconciled(a, b, Manifest(map[], {}, map[], false));
    }
  }

  /** The findings on the overlay and the environment file are inputs here. */
  method Reconcile(tracked: Yaml, live: Yaml, manifest: Manifest,
                   overlayPresent: bool, overlayUnknown: seq<Finding>, envUnknown: seq<Finding>)
    returns (status: nat)
    ensures status == 0 <==> Reconciled(tracked, live, manifest) && overlayPresent && overlayUnknown == [] && envUnknown == []
    ensures status <= 1
    ensures status == 0 ==> PathsStated(Flatten(Rest(tracked), ""), Flatten(Rest(live), ""), manifest.known)
    ensures forall chars :: Unambiguous(chars) && KeysOver(tracked, chars) && KeysOver(live, chars) ==>
              (status == 0 <==> Accounted(tracked, live, manifest) && overlayPresent && overlayUnknown == [] && envUnknown == [])
  {
    var unknown := CheckConfig(tracked, live, manifest);
    var rowUnknown := CheckProviders(tracked, live, manifest);
    unknown := unknown + rowUnknown;
    if !overlayPresent {
      unknown := unknown + [Finding(Unknown, "production_overlay")];
    } else {
      unknown := unknown + overlayUnknown;
    }
    unknown := unknown + envUnknown;
    status := if unknown != [] then 1 else 0;
    RestIsStripped(tracked);
    RestIsStripped(live);
    PathsStatedMean(Flatten(Rest(tracked), ""), Flatten(Rest(live), ""), manifest.known);
    forall chars | Unambiguous(chars) && KeysOver(tracked, chars) && KeysOver(live, chars)
      ensures Reconciled(tracked, live, manifest) <==> Accounted(tracked, live, manifest)
    {
      ReconciledIffAccounted(tracked, live, manifest, chars);
    }
  }
}
