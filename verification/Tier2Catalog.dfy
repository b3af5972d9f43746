/** The candidate catalog, the row it claims for each model, and the Tier-2 catalog that must agree with it. */
module Tier2Catalog {
  import opened Wrappers
  import opened Digests
  import opened StringOrder

  /** A missing hash is the empty string. */
  datatype Row = Row(modelId: string, minRam: int, sha: string)

  /** The rows of a catalog are a JSON object, kept here in file order. */
  datatype Entry = Entry(key: string, row: Row)

  /** Lower-casing and trimming a model id. */
  type Norm = string -> string

  predicate Keyed(rows: seq<Entry>) {
    forall i, j :: 0 <= i < j < |rows| ==> rows[i].key != rows[j].key
  }

  function ModelOf(e: Entry, norm: Norm): string {
    norm(e.row.modelId)
  }

  predicate HasKey(rows: seq<Entry>, key: string) {
    exists e :: e in rows && e.key == key
  }

  predicate HasModel(rows: seq<Entry>, model: string, norm: Norm) {
    exists e :: e in rows && ModelOf(e, norm) == model
  }

  // ---------- what validation leaves ----------

  /** No row sits under the key of a model it does not declare. */
  predicate NoShadow(rows: seq<Entry>, norm: Norm) {
    forall e :: e in rows && HasModel(rows, e.key, norm) ==> ModelOf(e, norm) == e.key
  }

  /** Rows of one model agree on their hash. */
  predicate NoConflict(rows: seq<Entry>, norm: Norm) {
    forall a, b :: a in rows && b in rows && ModelOf(a, norm) == ModelOf(b, norm) && a.row.sha != "" && b.row.sha != "" ==>
      a.row.sha == b.row.sha
  }

  predicate HashesAreHex(rows: seq<Entry>) {
    forall e :: e in rows && e.row.sha != "" ==> Hex64(e.row.sha)
  }

  predicate Validated(rows: seq<Entry>, norm: Norm) {
    Keyed(rows) && HashesAreHex(rows) && NoShadow(rows, norm) && NoConflict(rows, norm)
  }

  // ---------- the claimed row ----------

  /** More memory first, then the smaller key. */
  predicate Better(a: Entry, b: Entry) {
    a.row.minRam > b.row.minRam || (a.row.minRam == b.row.minRam && Less(a.key, b.key))
  }

  predicate BestOf(rows: seq<Entry>, model: string, norm: Norm, e: Entry) {
    ModelOf(e, norm) == model && forall x :: x in rows && ModelOf(x, norm) == model ==> x == e || Better(e, x)
  }

  /** The row under the model's own key, or else the best of its rows. */
  predicate Claims(rows: seq<Entry>, model: string, norm: Norm, e: Entry) {
    e in rows && if HasKey(rows, model) then e.key == model else BestOf(rows, model, norm, e)
  }

  ghost predicate ClaimsAll(rows: seq<Entry>, norm: Norm, best: map<string, Entry>) {
    && (forall model :: model in best <==> HasModel(rows, model, norm))
    && (forall model :: model in best ==> Claims(rows, model, norm, best[model]))
  }

  lemma SameKey(rows: seq<Entry>, a: Entry, b: Entry)
    requires Keyed(rows) && a in rows && b in rows && a.key == b.key
    ensures a == b
  {
  }

  lemma ClaimIsUnique(rows: seq<Entry>, model: string, norm: Norm, a: Entry, b: Entry)
    requires Keyed(rows) && Claims(rows, model, norm, a) && Claims(rows, model, norm, b)
    ensures a == b
  {
    if HasKey(rows, model) {
      SameKey(rows, a, b);
    } else if a != b && a.row.minRam == b.row.minRam {
      LessAsymmetric(a.key, b.key);
    }
  }

  /** The claimed rows do not depend on the order in which the catalog lists its rows. */
  lemma ClaimIgnoresOrder(rows: seq<Entry>, shuffled: seq<Entry>, norm: Norm, best: map<string, Entry>, other: map<string, Entry>)
    requires Keyed(rows) && forall e :: e in rows <==> e in shuffled
    requires ClaimsAll(rows, norm, best) && ClaimsAll(shuffled, norm, other)
    ensures best == other
  {
    forall model
      ensures HasModel(rows, model, norm) <==> HasModel(shuffled, model, norm)
      ensures HasKey(rows, model) <==> HasKey(shuffled, model)
    {
    }
    forall model | model in best
      ensures model in other && best[model] == other[model]
    {
      assert HasModel(shuffled, model, norm);
      assert Claims(rows, model, norm, other[model]);
      ClaimIsUnique(rows, model, norm, best[model], other[model]);
    }
    assert best.Keys == other.Keys;
  }

  /** On a validated catalog the claimed row declares the model it is claimed for. */
  lemma ClaimBelongs(rows: seq<Entry>, model: string, norm: Norm, e: Entry)
    requires NoShadow(rows, norm) && HasModel(rows, model, norm) && Claims(rows, model, norm, e)
    ensures ModelOf(e, norm) == model
  {
  }

  // ---------- binding, staging, checking ----------

  datatype Bound = Bound(key: string, minRam: int, modelId: string, sha: string)

  /** The hashes of the claimed rows that have one, in order of model. */
  function Binding(models: seq<string>, best: map<string, Entry>): seq<Bound>
    requires forall m :: m in models ==> m in best
  {
    if models == [] then []
    else
      var e := best[models[|models| - 1]];
      var before := Binding(models[..|models| - 1], best);
      if e.row.sha == "" then before else before + [Bound(e.key, e.row.minRam, e.row.modelId, e.row.sha)]
  }

  /** A Tier-2 entry; `rest` is everything the operator reviewed besides the hash. */
  datatype Listed<R> = Listed(modelId: string, sha: string, rest: R)

  predicate Loadable<R>(tier2: seq<Listed<R>>, norm: Norm) {
    && tier2 != []
    && (forall i :: 0 <= i < |tier2| ==> norm(tier2[i].modelId) != "" && Hex64(tier2[i].sha))
    && (forall i, j :: 0 <= i < j < |tier2| && norm(tier2[i].modelId) == norm(tier2[j].modelId) ==> tier2[i].sha == tier2[j].sha)
  }

  predicate AgreesWith<R>(entry: Listed<R>, best: map<string, Entry>, norm: Norm) {
    norm(entry.modelId) in best && best[norm(entry.modelId)].row.sha != "" ==>
      best[norm(entry.modelId)].row.sha == entry.sha
  }

  /** Both catalogs name the same hash for every model they share. */
  predicate Agree<R>(tier2: seq<Listed<R>>, best: map<string, Entry>, norm: Norm) {
    forall i :: 0 <= i < |tier2| ==> AgreesWith(tier2[i], best, norm)
  }

  predicate Template<R>(entries: seq<Listed<R>>, norm: Norm) {
    && entries != []
    && (forall i :: 0 <= i < |entries| ==> norm(entries[i].modelId) != "" && Hex64(entries[i].sha))
    && (forall i, j :: 0 <= i < j < |entries| ==> norm(entries[i].modelId) != norm(entries[j].modelId))
  }

  function HashOf(binding: seq<Bound>, model: string, norm: Norm): Option<string> {
    if binding == [] then None
    else
      var last := binding[|binding| - 1];
      if norm(last.modelId) == model then Some(last.sha) else HashOf(binding[..|binding| - 1], model, norm)
  }

  function StagedEntry<R>(entry: Listed<R>, binding: seq<Bound>, norm: Norm): Listed<R> {
    var hash := HashOf(binding, norm(entry.modelId), norm);
    if hash.Some? then entry.(sha := hash.value) else entry
  }

  function Staged<R>(entries: seq<Listed<R>>, binding: seq<Bound>, norm: Norm): (r: seq<Listed<R>>)
    ensures |r| == |entries| && forall i :: 0 <= i < |entries| ==> r[i] == StagedEntry(entries[i], binding, norm)
  {
    seq(|entries|, i requires 0 <= i < |entries| => StagedEntry(entries[i], binding, norm))
  }

  // ---------- results ----------

  predicate BoundTo(hash: Option<string>, best: map<string, Entry>, model: string) {
    if model in best && best[model].row.sha != "" then hash == Some(best[model].row.sha) else hash == None
  }

  lemma {:induction false} BindingHash(models: seq<string>, best: map<string, Entry>, norm: Norm, model: string)
    requires forall m :: m in models ==> m in best && ModelOf(best[m], norm) == m
    ensures HashOf(Binding(models, best), model, norm) ==
              if model in models && best[model].row.sha != "" then Some(best[model].row.sha) else None
    decreases |models|
  {
    if models != [] {
      var init, last := models[..|models| - 1], models[|models| - 1];
      assert models == init + [last];
      BindingHash(init, best, norm, model);
      var before, e := Binding(init, best), best[last];
      if e.row.sha != "" {
        var all := before + [Bound(e.key, e.row.minRam, e.row.modelId, e.row.sha)];
        assert all[..|all| - 1] == before;
        assert ModelOf(e, norm) == last;
      }
    }
  }

  /** The binding holds, for every model, the hash of its claimed row. */
  lemma BindingFollowsClaims(rows: seq<Entry>, norm: Norm, best: map<string, Entry>, model: string)
    requires Validated(rows, norm) && ClaimsAll(rows, norm, best)
    ensures forall m :: m in Sorted(best.Keys) ==> m in best
    ensures BoundTo(HashOf(Binding(Sorted(best.Keys), best), model, norm), best, model)
  {
    forall m | m in best
      ensures ModelOf(best[m], norm) == m
    {
      ClaimBelongs(rows, m, norm, best[m]);
    }
    BindingHash(Sorted(best.Keys), best, norm, model);
  }

  lemma StagedEntryIsSound<R>(entry: Listed<R>, rows: seq<Entry>, norm: Norm, best: map<string, Entry>, binding: seq<Bound>)
    requires Validated(rows, norm) && ClaimsAll(rows, norm, best) && Hex64(entry.sha)
    requires BoundTo(HashOf(binding, norm(entry.modelId), norm), best, norm(entry.modelId))
    ensures AgreesWith(StagedEntry(entry, binding, norm), best, norm)
    ensures Hex64(StagedEntry(entry, binding, norm).sha)
  {
    var model := norm(entry.modelId);
    if model in best {
      assert Claims(rows, model, norm, best[model]);
    }
  }

  lemma StagedAgrees<R>(entries: seq<Listed<R>>, rows: seq<Entry>, norm: Norm, best: map<string, Entry>, binding: seq<Bound>)
    requires Validated(rows, norm) && ClaimsAll(rows, norm, best) && Template(entries, norm)
    requires forall i :: 0 <= i < |entries| ==> BoundTo(HashOf(binding, norm(entries[i].modelId), norm), best, norm(entries[i].modelId))
    ensures Loadable(Staged(entries, binding, norm), norm) && Agree(Staged(entries, binding, norm), best, norm)
  {
    forall i | 0 <= i < |entries|
      ensures AgreesWith(StagedEntry(entries[i], binding, norm), best, norm)
      ensures Hex64(StagedEntry(entries[i], binding, norm).sha)
    {
      StagedEntryIsSound(entries[i], rows, norm, best, binding);
    }
  }

  /** The check accepts every template staged with the binding derived from the same candidate catalog. */
  lemma StagedIsAccepted<R>(entries: seq<Listed<R>>, rows: seq<Entry>, norm: Norm, best: map<string, Entry>)
    requires Validated(rows, norm) && ClaimsAll(rows, norm, best) && Template(entries, norm)
    ensures Loadable(Staged(entries, Binding(Sorted(best.Keys), best), norm), norm)
    ensures Agree(Staged(entries, Binding(Sorted(best.Keys), best), norm), best, norm)
  {
    var binding := Binding(Sorted(best.Keys), best);
    forall i | 0 <= i < |entries|
      ensures BoundTo(HashOf(binding, norm(entries[i].modelId), norm), best, norm(entries[i].modelId))
    {
      BindingFollowsClaims(rows, norm, best, norm(entries[i].modelId));
    }
    StagedAgrees(entries, rows, norm, best, binding);
  }

  /** Staging with the derived binding changes something exactly when the check would not accept the entries. */
  lemma StagingNeedsDisagreement<R>(entries: seq<Listed<R>>, rows: seq<Entry>, norm: Norm, best: map<string, Entry>)
    requires Validated(rows, norm) && ClaimsAll(rows, norm, best)
    ensures Staged(entries, Binding(Sorted(best.Keys), best), norm) == entries <==> Agree(entries, best, norm)
  {
    var binding := Binding(Sorted(best.Keys), best);
    var staged := Staged(entries, binding, norm);
    forall i | 0 <= i < |entries|
      ensures staged[i] == entries[i] <==> AgreesWith(entries[i], best, norm)
    {
      BindingFollowsClaims(rows, norm, best, norm(entries[i].modelId));
    }
  }
}
