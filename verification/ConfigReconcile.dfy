/** Classification of configuration drift and of provider rows against the manifest of known differences. */
module ConfigReconcile {
  import opened Wrappers
  import opened StringOrder
  import opened ConfigTree
  import opened ConfigDrift

  datatype Category = Evidence | Inference | Unknown

  datatype Finding = Finding(category: Category, path: string)

  /** A `known_config_drift` entry; `None` means the rule does not state that side. */
  datatype Rule = Rule(kind: DriftKind, tracked: Option<Yaml>, live: Option<Yaml>, inference: bool)

  datatype FieldType = StringField | IntegerField | NumberField | BooleanField | StringListField | OtherField

  datatype Manifest = Manifest(
    known: map<string, Rule>,
    pearlStatic: set<string>,
    fieldTypes: map<string, FieldType>,
    liveOnlyIsEvidence: bool)

  // ---------- drift against the manifest ----------

  predicate StatedValueMatches(stated: Option<Yaml>, actual: Option<Yaml>) {
    stated.Some? ==> actual.Some? && PyEq(stated.value, actual.value)
  }

  /** The manifest has a rule for this path, of this kind, whose stated values are the drifting ones. */
  predicate Explained(d: Drift, known: map<string, Rule>) {
    && d.path in known && known[d.path].kind == d.kind
    && (known[d.path].tracked.Some? ==> d.tracked.Some? && PyEq(known[d.path].tracked.value, d.tracked.value))
    && (known[d.path].live.Some? ==> d.live.Some? && PyEq(known[d.path].live.value, d.live.value))
  }

  function CategoryOf(d: Drift, known: map<string, Rule>): Category {
    if !Explained(d, known) then Unknown else if known[d.path].inference then Inference else Evidence
  }

  /** The findings of one category, in the order of the drifts. */
  function FindingsOf(drifts: seq<Drift>, known: map<string, Rule>, c: Category): seq<Finding> {
    if drifts == [] then []
    else
      var last := drifts[|drifts| - 1];
      var before := FindingsOf(drifts[..|drifts| - 1], known, c);
      if CategoryOf(last, known) == c then before + [Finding(c, last.path)] else before
  }

  lemma FindingsStep(drifts: seq<Drift>, known: map<string, Rule>, c: Category, i: nat)
    requires i < |drifts|
    ensures FindingsOf(drifts[..i + 1], known, c) ==
            FindingsOf(drifts[..i], known, c) + if CategoryOf(drifts[i], known) == c then [Finding(c, drifts[i].path)] else []
  {
    assert drifts[..i + 1][..i] == drifts[..i];
  }

  method ClassifyConfigDrifts(drifts: seq<Drift>, known: map<string, Rule>)
    returns (evidence: seq<Finding>, inference: seq<Finding>, unknown: seq<Finding>)
    ensures evidence == FindingsOf(drifts, known, Evidence)
    ensures inference == FindingsOf(drifts, known, Inference)
    ensures unknown == FindingsOf(drifts, known, Unknown)
  {
    evidence, inference, unknown := [], [], [];
    assert drifts[..|drifts|] == drifts;
    for i := 0 to |drifts|
      invariant evidence == FindingsOf(drifts[..i], known, Evidence)
      invariant inference == FindingsOf(drifts[..i], known, Inference)
      invariant unknown == FindingsOf(drifts[..i], known, Unknown)
    {
      FindingsStep(drifts, known, Evidence, i);
      FindingsStep(drifts, known, Inference, i);
      FindingsStep(drifts, known, Unknown, i);
      var drift := drifts[i];
      if drift.path in known && known[drift.path].kind == drift.kind {
        var rule := known[drift.path];
        if StatedValueMatches(rule.tracked, drift.tracked) && StatedValueMatches(rule.live, drift.live) {
          if rule.inference {
            inference := inference + [Finding(Inference, drift.path)];
          } else {
            evidence := evidence + [Finding(Evidence, drift.path)];
          }
          continue;
        }
      }
      unknown := unknown + [Finding(Unknown, drift.path)];
    }
  }

  function Paths(findings: seq<Finding>): multiset<string> {
    if findings == [] then multiset{} else Paths(findings[..|findings| - 1]) + multiset{findings[|findings| - 1].path}
  }

  function DriftPaths(drifts: seq<Drift>): multiset<string> {
    if drifts == [] then multiset{} else DriftPaths(drifts[..|drifts| - 1]) + multiset{drifts[|drifts| - 1].path}
  }

  lemma PathsAppend(findings: seq<Finding>, f: Finding)
    ensures Paths(findings + [f]) == Paths(findings) + multiset{f.path}
  {
    assert (findings + [f])[..|findings|] == findings;
  }

  lemma PathsStep(drifts: seq<Drift>, known: map<string, Rule>, c: Category)
    requires drifts != []
    ensures var init, last := drifts[..|drifts| - 1], drifts[|drifts| - 1];
            Paths(FindingsOf(drifts, known, c)) ==
            Paths(FindingsOf(init, known, c)) + if CategoryOf(last, known) == c then multiset{last.path} else multiset{}
  {
    PathsAppend(FindingsOf(drifts[..|drifts| - 1], known, c), Finding(c, drifts[|drifts| - 1].path));
  }

  lemma AddOne(x: multiset<string>, y: multiset<string>, z: multiset<string>, m: multiset<string>)
    ensures (x + m) + y + z == x + (y + m) + z == x + y + (z + m) == x + y + z + m
  {
  }

  /** Every drift yields exactly one finding, in one of the three lists. */
  lemma {:induction false} OneFindingPerDrift(drifts: seq<Drift>, known: map<string, Rule>)
    ensures Paths(FindingsOf(drifts, known, Evidence)) + Paths(FindingsOf(drifts, known, Inference))
          + Paths(FindingsOf(drifts, known, Unknown)) == DriftPaths(drifts)
  {
    if drifts != [] {
      var init, last := drifts[..|drifts| - 1], drifts[|drifts| - 1];
      OneFindingPerDrift(init, known);
      PathsStep(drifts, known, Evidence);
      PathsStep(drifts, known, Inference);
      PathsStep(drifts, known, Unknown);
      AddOne(Paths(FindingsOf(init, known, Evidence)), Paths(FindingsOf(init, known, Inference)),
             Paths(FindingsOf(init, known, Unknown)), multiset{last.path});
    }
  }

  predicate AllExplained(drifts: seq<Drift>, known: map<string, Rule>) {
    forall i :: 0 <= i < |drifts| ==> Explained(drifts[i], known)
  }

  lemma {:induction false} NothingUnknown(drifts: seq<Drift>, known: map<string, Rule>)
    ensures FindingsOf(drifts, known, Unknown) == [] <==> AllExplained(drifts, known)
  {
    if drifts != [] {
      var init, last := drifts[..|drifts| - 1], drifts[|drifts| - 1];
      NothingUnknown(init, known);
      assert AllExplained(drifts, known) <==> AllExplained(init, known) && Explained(last, known);
    }
  }

  // ---------- provider rows ----------

  /** The `providers` list of a configuration; `None` if it is something else than a list. */
  function ProviderList(config: Yaml): Option<seq<Yaml>> {
    if !config.Map? || "providers" !in config.entries then Some([])
    else match config.entries["providers"]
      case List(items) => Some(items)
      case _ => None
  }

  /** The id under which a row is indexed, if it is a mapping with a non-empty string id. */
  function RowId(row: Yaml): Option<string> {
    if row.Map? && "provider_id" in row.entries then
      match row.entries["provider_id"]
      case Scalar(Text(id)) => if id != "" then Some(id) else None
      case _ => None
    else None
  }

  /** The rows by id; of rows that share an id the first stays. */
  function RowsById(rows: seq<Yaml>): map<string, Yaml> {
    if rows == [] then map[]
    else
      var before := RowsById(rows[..|rows| - 1]);
      var id := RowId(rows[|rows| - 1]);
      if id.Some? && id.value !in before then before[id.value := rows[|rows| - 1]] else before
  }

  /** A finding for every row that is not indexed. */
  function IndexFindings(rows: seq<Yaml>, side: string): seq<Finding> {
    if rows == [] then []
    else
      var init, row := rows[..|rows| - 1], rows[|rows| - 1];
      var path := IndexPath("providers." + side, |init|);
      IndexFindings(init, side) +
      (if RowId(row).None? then [Finding(Unknown, path)]
       else if RowId(row).value in RowsById(init) then [Finding(Unknown, path + ".provider_id")]
       else [])
  }

  predicate RowsClean(rows: seq<Yaml>) {
    && (forall i :: 0 <= i < |rows| ==> RowId(rows[i]).Some?)
    && (forall i, j :: 0 <= i < j < |rows| ==> RowId(rows[i]) != RowId(rows[j]))
  }

  predicate CleanProviders(config: Yaml) {
    ProviderList(config).Some? && RowsClean(ProviderList(config).value)
  }

  function Providers(config: Yaml): map<string, Yaml> {
    if ProviderList(config).Some? then RowsById(ProviderList(config).value) else map[]
  }

  lemma {:induction false} RowsByIdExact(rows: seq<Yaml>)
    ensures forall id :: id in RowsById(rows) <==> exists i :: 0 <= i < |rows| && RowId(rows[i]) == Some(id)
    ensures forall id :: id in RowsById(rows) ==> RowId(RowsById(rows)[id]) == Some(id) && RowsById(rows)[id] in rows
    decreases |rows|
  {
    if rows != [] {
      var init := rows[..|rows| - 1];
      RowsByIdExact(init);
      assert forall i :: 0 <= i < |init| ==> init[i] == rows[i];
    }
  }

  /** Of rows that share an id the first is indexed. */
  lemma {:induction false} FirstRowStays(rows: seq<Yaml>, i: nat)
    requires i < |rows| && RowId(rows[i]).Some? && forall j :: 0 <= j < i ==> RowId(rows[j]) != RowId(rows[i])
    ensures RowId(rows[i]).value in RowsById(rows) && RowsById(rows)[RowId(rows[i]).value] == rows[i]
    decreases |rows|
  {
    var n := |rows| - 1;
    if i < n {
      FirstRowStays(rows[..n], i);
    } else {
      RowsByIdExact(rows[..n]);
    }
  }

  lemma CleanStep(init: seq<Yaml>, row: Yaml)
    ensures RowsClean(init + [row]) <==>
            RowsClean(init) && RowId(row).Some? && forall i :: 0 <= i < |init| ==> RowId(init[i]) != RowId(row)
  {
    var rows := init + [row];
    assert forall i :: 0 <= i < |init| ==> rows[i] == init[i];
    assert rows[|init|] == row;
  }

  lemma IdTaken(init: seq<Yaml>, id: string)
    ensures id in RowsById(init) <==> exists i :: 0 <= i < |init| && RowId(init[i]) == Some(id)
  {
    RowsByIdExact(init);
  }

  /** Nothing is reported exactly when every row has an id of its own. */
  lemma {:induction false} IndexFindingsClean(rows: seq<Yaml>, side: string)
    ensures IndexFindings(rows, side) == [] <==> RowsClean(rows)
    decreases |rows|
  {
    if rows != [] {
      var init, row := rows[..|rows| - 1], rows[|rows| - 1];
      IndexFindingsClean(init, side);
      CleanStep(init, row);
      assert rows == init + [row];
      if RowId(row).Some? {
        IdTaken(init, RowId(row).value);
      }
    }
  }

  method ProviderIndex(config: Yaml, side: string) returns (rows: map<string, Yaml>, unknown: seq<Finding>)
    ensures rows == Providers(config)
    ensures ProviderList(config).None? ==> unknown == [Finding(Unknown, "providers." + side)]
    ensures ProviderList(config).Some? ==> unknown == IndexFindings(ProviderList(config).value, side)
    ensures unknown == [] <==> CleanProviders(config)
  {
    rows, unknown := map[], [];
    var providers := ProviderList(config);
    if providers.None? {
      unknown := [Finding(Unknown, "providers." + side)];
      return;
    }
    var list := providers.value;
    assert list[..|list|] == list;
    for i := 0 to |list|
      invariant rows == RowsById(list[..i])
      invariant unknown == IndexFindings(list[..i], side)
    {
      assert list[..i + 1][..i] == list[..i];
      var path := IndexPath("providers." + side, i);
      var id := RowId(list[i]);
      if id.None? {
        unknown := unknown + [Finding(Unknown, path)];
      } else if id.value in rows {
        unknown := unknown + [Finding(Unknown, path + ".provider_id")];
      } else {
        rows := rows[id.value := list[i]];
      }
    }
    IndexFindingsClean(list, side);
  }

  predicate MatchesType(v: Yaml, t: FieldType) {
    match t
    case StringField => v.Scalar? && v.scalar.Text?
    case IntegerField => v.Scalar? && v.scalar.Int?
    case NumberField => v.Scalar? && (v.scalar.Int? || v.scalar.Float?)
    case BooleanField => v.Scalar? && v.scalar.Bool?
    case StringListField => v.List? && forall i :: 0 <= i < |v.items| ==> v.items[i].Scalar? && v.items[i].scalar.Text?
    case OtherField => false
  }

  predicate FieldTyped(row: Yaml, field: string, types: map<string, FieldType>)
    requires row.Map? && field in row.entries
  {
    field in types && MatchesType(row.entries[field], types[field])
  }

  predicate FieldsTyped(row: Yaml, types: map<string, FieldType>) {
    row.Map? && forall f :: f in row.entries ==> FieldTyped(row, f, types)
  }

  /** A finding for every field that is unlisted or of another type. */
  function FieldFindings(path: string, row: Yaml, types: map<string, FieldType>, fields: seq<string>): seq<Finding>
    requires row.Map? && forall f :: f in fields ==> f in row.entries
  {
    if fields == [] then []
    else
      var last := fields[|fields| - 1];
      FieldFindings(path, row, types, fields[..|fields| - 1]) +
      (if FieldTyped(row, last, types) then [] else [Finding(Unknown, path + "." + last)])
  }

  lemma {:induction false} FieldFindingsTyped(path: string, row: Yaml, types: map<string, FieldType>, fields: seq<string>)
    requires row.Map? && forall f :: f in fields ==> f in row.entries
    ensures FieldFindings(path, row, types, fields) == [] <==> forall f :: f in fields ==> FieldTyped(row, f, types)
    decreases |fields|
  {
    if fields != [] {
      FieldFindingsTyped(path, row, types, fields[..|fields| - 1]);
      assert fields == fields[..|fields| - 1] + [fields[|fields| - 1]];
    }
  }

  lemma FieldFindingsStep(path: string, row: Yaml, types: map<string, FieldType>, fields: seq<string>, i: nat)
    requires row.Map? && i < |fields| && forall f :: f in fields ==> f in row.entries
    ensures FieldFindings(path, row, types, fields[..i + 1]) == FieldFindings(path, row, types, fields[..i]) +
            if FieldTyped(row, fields[i], types) then [] else [Finding(Unknown, path + "." + fields[i])]
  {
    assert fields[..i + 1][..i] == fields[..i];
  }

  method ClassifyFields(path: string, row: Yaml, types: map<string, FieldType>, fields: seq<string>) returns (unknown: seq<Finding>)
    requires row.Map? && forall k :: k in fields ==> k in row.entries
    ensures unknown == FieldFindings(path, row, types, fields)
  {
    unknown := [];
    assert fields[..|fields|] == fields;
    for i := 0 to |fields|
      invariant unknown == FieldFindings(path, row, types, fields[..i])
    {
      FieldFindingsStep(path, row, types, fields, i);
      if fields[i] !in types || !MatchesType(row.entries[fields[i]], types[fields[i]]) {
        unknown := unknown + [Finding(Unknown, path + "." + fields[i])];
      }
    }
  }

  method ClassifyLiveOnlyFields(path: string, row: Yaml, types: map<string, FieldType>) returns (unknown: seq<Finding>)
    requires row.Map?
    ensures unknown == FieldFindings(path, row, types, Sorted(row.entries.Keys))
  {
    unknown := ClassifyFields(path, row, types, Sorted(row.entries.Keys));
  }

  datatype Notes = Notes(evidence: seq<Finding>, inference: seq<Finding>, unknown: seq<Finding>)

  function DriftFindings(path: string, drifts: seq<Drift>): (r: seq<Finding>)
    ensures |r| == |drifts|
  {
    seq(|drifts|, i requires 0 <= i < |drifts| =>
      Finding(Unknown, if drifts[i].path != "" then path + "." + drifts[i].path else path))
  }

  /** The findings on one provider id. */
  function RowNotes(id: string, tracked: map<string, Yaml>, live: map<string, Yaml>, manifest: Manifest): Notes
    requires id in tracked || id in live
    requires id in live ==> live[id].Map?
  {
    var path := "providers." + id;
    if id !in tracked then
      if id !in manifest.pearlStatic then Notes([], [], [Finding(Unknown, path)])
      else
        var fields := FieldFindings(path, live[id], manifest.fieldTypes, Sorted(live[id].entries.Keys));
        if manifest.liveOnlyIsEvidence then Notes([Finding(Evidence, path)], [], fields)
        else Notes([], [Finding(Inference, path)], fields)
    else if id !in live then Notes([], [], [Finding(Unknown, path)])
    else if PyEq(tracked[id], live[id]) then Notes([Finding(Evidence, path)], [], [])
    else Notes([], [], DriftFindings(path, Drifts(Flatten(tracked[id], ""), Flatten(live[id], ""))))
  }

  /** One provider id is accounted for. */
  predicate RowReconciled(id: string, tracked: map<string, Yaml>, live: map<string, Yaml>, manifest: Manifest) {
    if id in tracked then
      id in live && (PyEq(tracked[id], live[id]) || Drifts(Flatten(tracked[id], ""), Flatten(live[id], "")) == [])
    else
      id in live ==> id in manifest.pearlStatic && FieldsTyped(live[id], manifest.fieldTypes)
  }

  method ClassifyRowDrifts(path: string, drifts: seq<Drift>) returns (unknown: seq<Finding>)
    ensures unknown == DriftFindings(path, drifts)
  {
    unknown := [];
    for i := 0 to |drifts|
      invariant unknown == DriftFindings(path, drifts)[..i]
    {
      unknown := unknown + [Finding(Unknown, if drifts[i].path != "" then path + "." + drifts[i].path else path)];
    }
  }

  method ClassifyProviderRow(id: string, tracked: map<string, Yaml>, live: map<string, Yaml>, manifest: Manifest) returns (notes: Notes)
    requires id in tracked || id in live
    requires id in live ==> live[id].Map?
    ensures notes == RowNotes(id, tracked, live, manifest)
  {
    var path := "providers." + id;
    if id !in tracked {
      if id !in manifest.pearlStatic {
        return Notes([], [], [Finding(Unknown, path)]);
      }
      var unknown := ClassifyLiveOnlyFields(path, live[id], manifest.fieldTypes);
      if manifest.liveOnlyIsEvidence {
        return Notes([Finding(Evidence, path)], [], unknown);
      }
      return Notes([], [Finding(Inference, path)], unknown);
    }
    if id !in live {
      return Notes([], [], [Finding(Unknown, path)]);
    }
    if PyEq(tracked[id], live[id]) {
      return Notes([Finding(Evidence, path)], [], []);
    }
    var trackedFlat := FlattenTree(tracked[id], "");
    var liveFlat := FlattenTree(live[id], "");
    var drifts := CompareFlattened(trackedFlat, liveFlat);
    var unknown := ClassifyRowDrifts(path, drifts);
    return Notes([], [], unknown);
  }

  lemma RowNotesReconciled(id: string, tracked: map<string, Yaml>, live: map<string, Yaml>, manifest: Manifest)
    requires id in tracked || id in live
    requires id in live ==> live[id].Map?
    ensures RowNotes(id, tracked, live, manifest).unknown == [] <==> RowReconciled(id, tracked, live, manifest)
  {
    if id in live {
      FieldFindingsTyped("providers." + id, live[id], manifest.fieldTypes, Sorted(live[id].entries.Keys));
    }
  }

  predicate IdsKnown(ids: seq<string>, tracked: map<string, Yaml>, live: map<string, Yaml>) {
    && (forall k :: 0 <= k < |ids| ==> ids[k] in tracked || ids[k] in live)
    && (forall id :: id in live ==> live[id].Map?)
  }

  /** The findings on the first `n` ids, one after the other. */
  function AllNotes(ids: seq<string>, n: nat, tracked: map<string, Yaml>, live: map<string, Yaml>, manifest: Manifest): Notes
    requires IdsKnown(ids, tracked, live) && n <= |ids|
  {
    if n == 0 then Notes([], [], [])
    else
      var before := AllNotes(ids, n - 1, tracked, live, manifest);
      var last := RowNotes(ids[n - 1], tracked, live, manifest);
      Notes(before.evidence + last.evidence, before.inference + last.inference, before.unknown + last.unknown)
  }

  lemma NoneOfEither(a: seq<Finding>, b: seq<Finding>)
    ensures a + b == [] <==> a == [] && b == []
  {
    assert |a + b| == |a| + |b|;
  }

  lemma {:induction false} AllNotesReconciled(ids: seq<string>, n: nat, tracked: map<string, Yaml>, live: map<string, Yaml>, manifest: Manifest)
    requires IdsKnown(ids, tracked, live) && n <= |ids|
    ensures AllNotes(ids, n, tracked, live, manifest).unknown == [] <==>
            forall k :: 0 <= k < n ==> RowReconciled(ids[k], tracked, live, manifest)
  {
    if n > 0 {
      AllNotesReconciled(ids, n - 1, tracked, live, manifest);
      RowNotesReconciled(ids[n - 1], tracked, live, manifest);
      var before, last := AllNotes(ids, n - 1, tracked, live, manifest).unknown, RowNotes(ids[n - 1], tracked, live, manifest).unknown;
      assert AllNotes(ids, n, tracked, live, manifest).unknown == before + last;
      NoneOfEither(before, last);
    }
  }

  lemma SortedIdsKnown(tracked: map<string, Yaml>, live: map<string, Yaml>)
    requires forall id :: id in live ==> live[id].Map?
    ensures IdsKnown(Sorted(tracked.Keys + live.Keys), tracked, live)
  {
    var ids := Sorted(tracked.Keys + live.Keys);
    assert forall k :: 0 <= k < |ids| ==> ids[k] in ids;
  }

  /** The findings on every id of either side, in sorted order. */
  function ProviderNotes(tracked: map<string, Yaml>, live: map<string, Yaml>, manifest: Manifest): Notes
    requires forall id :: id in live ==> live[id].Map?
  {
    var ids := Sorted(tracked.Keys + live.Keys);
    SortedIdsKnown(tracked, live);
    AllNotes(ids, |ids|, tracked, live, manifest)
  }

  method CollectNotes(ids: seq<string>, tracked: map<string, Yaml>, live: map<string, Yaml>, manifest: Manifest) returns (notes: Notes)
    requires IdsKnown(ids, tracked, live)
    ensures notes == AllNotes(ids, |ids|, tracked, live, manifest)
  {
    notes := Notes([], [], []);
    for i := 0 to |ids|
      invariant notes == AllNotes(ids, i, tracked, live, manifest)
    {
      var row := ClassifyProviderRow(ids[i], tracked, live, manifest);
      notes := Notes(notes.evidence + row.evidence, notes.inference + row.inference, notes.unknown + row.unknown);
    }
  }

  method ClassifyProviderRows(tracked: map<string, Yaml>, live: map<string, Yaml>, manifest: Manifest) returns (notes: Notes)
    requires forall id :: id in live ==> live[id].Map?
    ensures notes == ProviderNotes(tracked, live, manifest)
  {
    SortedIdsKnown(tracked, live);
    notes := CollectNotes(Sorted(tracked.Keys + live.Keys), tracked, live, manifest);
  }

  lemma AllRowsReconciled(tracked: map<string, Yaml>, live: map<string, Yaml>, manifest: Manifest)
    requires forall id :: id in live ==> live[id].Map?
    ensures ProviderNotes(tracked, live, manifest).unknown == [] <==> RowsReconciled(tracked, live, manifest)
  {
    var ids := Sorted(tracked.Keys + live.Keys);
    SortedIdsKnown(tracked, live);
    AllNotesReconciled(ids, |ids|, tracked, live, manifest);
    assert forall id :: id in tracked || id in live ==> id in ids;
  }

  // ---------- the verdict ----------

  function StripProviders(config: Yaml): Yaml {
    if config.Map? then Map(config.entries - {"providers"}) else config
  }

  function ConfigDrifts(tracked: Yaml, live: Yaml): seq<Drift> {
    Drifts(Flatten(StripProviders(tracked), ""), Flatten(StripProviders(live), ""))
  }

  ghost predicate DriftsExplained(tracked: Yaml, live: Yaml, known: map<string, Rule>) {
    AllExplained(ConfigDrifts(tracked, live), known)
  }

  ghost predicate RowsReconciled(tracked: map<string, Yaml>, live: map<string, Yaml>, manifest: Manifest) {
    forall id :: id in tracked || id in live ==> RowReconciled(id, tracked, live, manifest)
  }

  method CheckConfig(tracked: Yaml, live: Yaml, manifest: Manifest) returns (unknown: seq<Finding>)
    ensures unknown == [] <==> DriftsExplained(tracked, live, manifest.known)
  {
    var trackedFlat := FlattenTree(StripProviders(tracked), "");
    var liveFlat := FlattenTree(StripProviders(live), "");
    var drifts := CompareFlattened(trackedFlat, liveFlat);
    var evidence, inference;
    evidence, inference, unknown := ClassifyConfigDrifts(drifts, manifest.known);
    NothingUnknown(drifts, manifest.known);
  }

  method CheckProviders(tracked: Yaml, live: Yaml, manifest: Manifest) returns (unknown: seq<Finding>)
    ensures unknown == [] <==>
            CleanProviders(tracked) && CleanProviders(live) && RowsReconciled(Providers(tracked), Providers(live), manifest)
  {
    var trackedRows, trackedUnknown := ProviderIndex(tracked, "tracked");
    var liveRows, liveUnknown := ProviderIndex(live, "live");
    if ProviderList(live).Some? {
      RowsByIdExact(ProviderList(live).value);
    }
    var notes := ClassifyProviderRows(trackedRows, liveRows, manifest);
    AllRowsReconciled(trackedRows, liveRows, manifest);
    unknown := trackedUnknown + liveUnknown + notes.unknown;
  }

  /** What the exit status reports on. */
  ghost predicate Reconciled(tracked: Yaml, live: Yaml, manifest: Manifest) {
    && DriftsExplained(tracked, live, manifest.known)
    && CleanProviders(tracked) && CleanProviders(live)
    && RowsReconciled(Providers(tracked), Providers(live), manifest)
  }
}
