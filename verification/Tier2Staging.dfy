/** The loops of the release script over the candidate catalog and the Tier-2 catalog. */
module Tier2Staging {
  import opened Wrappers
  import opened Digests
  import opened StringOrder
  import opened Tier2Catalog
  import opened StagingMeaning

  // ---------- the last checks on a candidate catalog ----------

  method CheckShadow(rows: seq<Entry>, norm: Norm) returns (ok: bool)
    ensures ok <==> NoShadow(rows, norm)
  {
    for i := 0 to |rows|
      invariant forall j :: 0 <= j < i && HasModel(rows, rows[j].key, norm) ==> ModelOf(rows[j], norm) == rows[j].key
    {
      if rows[i].key != ModelOf(rows[i], norm) && HasModel(rows, rows[i].key, norm) {
        return false;
      }
    }
    return true;
  }

  ghost predicate Hashes(hashes: map<string, string>, rows: seq<Entry>, n: nat, norm: Norm)
    requires n <= |rows|
  {
    && (forall i :: 0 <= i < n && rows[i].row.sha != "" ==>
          ModelOf(rows[i], norm) in hashes && hashes[ModelOf(rows[i], norm)] == rows[i].row.sha)
    && (forall model :: model in hashes ==> HashedBy(rows, n, norm, model, hashes[model]))
  }

  predicate HashedBy(rows: seq<Entry>, n: nat, norm: Norm, model: string, sha: string)
    requires n <= |rows|
  {
    exists i :: 0 <= i < n && ModelOf(rows[i], norm) == model && rows[i].row.sha == sha != ""
  }

  lemma HashesAgree(hashes: map<string, string>, rows: seq<Entry>, norm: Norm)
    requires Hashes(hashes, rows, |rows|, norm)
    ensures NoConflict(rows, norm)
  {
  }

  lemma Conflicting(hashes: map<string, string>, rows: seq<Entry>, i: nat, norm: Norm)
    requires i < |rows| && Hashes(hashes, rows, i, norm) && rows[i].row.sha != ""
    requires ModelOf(rows[i], norm) in hashes && hashes[ModelOf(rows[i], norm)] != rows[i].row.sha
    ensures !NoConflict(rows, norm)
  {
    var model := ModelOf(rows[i], norm);
    assert HashedBy(rows, i, norm, model, hashes[model]);
    var j :| 0 <= j < i && ModelOf(rows[j], norm) == model && rows[j].row.sha == hashes[model];
    assert rows[j] in rows && rows[i] in rows;
  }

  /** The `by_model_hash` loop, used by the validator and again when the binding is derived. */
  method CheckHashes(rows: seq<Entry>, norm: Norm) returns (ok: bool)
    ensures ok <==> NoConflict(rows, norm)
  {
    var hashes := map[];
    for i := 0 to |rows|
      invariant Hashes(hashes, rows, i, norm)
    {
      var model, sha := ModelOf(rows[i], norm), rows[i].row.sha;
      if sha != "" {
        if model in hashes && hashes[model] != sha {
          Conflicting(hashes, rows, i, norm);
          return false;
        }
        HashesStep(hashes, rows, i, norm);
        hashes := hashes[model := sha];
      } else {
        HashesSkip(hashes, rows, i, norm);
      }
    }
    HashesAgree(hashes, rows, norm);
    return true;
  }

  lemma HashesStep(hashes: map<string, string>, rows: seq<Entry>, i: nat, norm: Norm)
    requires i < |rows| && Hashes(hashes, rows, i, norm) && rows[i].row.sha != ""
    requires ModelOf(rows[i], norm) in hashes ==> hashes[ModelOf(rows[i], norm)] == rows[i].row.sha
    ensures Hashes(hashes[ModelOf(rows[i], norm) := rows[i].row.sha], rows, i + 1, norm)
  {
    var more := hashes[ModelOf(rows[i], norm) := rows[i].row.sha];
    forall model | model in more
      ensures HashedBy(rows, i + 1, norm, model, more[model])
    {
      if model in hashes {
        assert HashedBy(rows, i, norm, model, hashes[model]);
      }
    }
  }

  lemma HashesSkip(hashes: map<string, string>, rows: seq<Entry>, i: nat, norm: Norm)
    requires i < |rows| && Hashes(hashes, rows, i, norm) && rows[i].row.sha == ""
    ensures Hashes(hashes, rows, i + 1, norm)
  {
    forall model | model in hashes
      ensures HashedBy(rows, i + 1, norm, model, hashes[model])
    {
      assert HashedBy(rows, i, norm, model, hashes[model]);
    }
  }

  // ---------- claimed rows ----------

  function Group(rows: seq<Entry>, n: nat, model: string, norm: Norm): seq<Entry>
    requires n <= |rows|
  {
    if n == 0 then []
    else if ModelOf(rows[n - 1], norm) == model then Group(rows, n - 1, model, norm) + [rows[n - 1]]
    else Group(rows, n - 1, model, norm)
  }

  lemma {:induction false} GroupExact(rows: seq<Entry>, n: nat, model: string, norm: Norm, e: Entry)
    requires n <= |rows|
    ensures e in Group(rows, n, model, norm) <==> e in rows[..n] && ModelOf(e, norm) == model
    decreases n
  {
    if n > 0 {
      GroupExact(rows, n - 1, model, norm, e);
      assert rows[..n] == rows[..n - 1] + [rows[n - 1]];
    }
  }

  method GroupByModel(rows: seq<Entry>, norm: Norm) returns (groups: map<string, seq<Entry>>)
    ensures forall model :: model in groups <==> HasModel(rows, model, norm)
    ensures forall model :: model in groups ==> groups[model] == Group(rows, |rows|, model, norm) != []
  {
    groups := map[];
    for i := 0 to |rows|
      invariant forall model :: model in groups <==> Group(rows, i, model, norm) != []
      invariant forall model :: model in groups ==> groups[model] == Group(rows, i, model, norm)
    {
      var model := ModelOf(rows[i], norm);
      var before := if model in groups then groups[model] else [];
      groups := groups[model := before + [rows[i]]];
    }
    forall model
      ensures Group(rows, |rows|, model, norm) != [] <==> HasModel(rows, model, norm)
    {
      GroupNonEmpty(rows, model, norm);
    }
  }

  lemma GroupNonEmpty(rows: seq<Entry>, model: string, norm: Norm)
    ensures Group(rows, |rows|, model, norm) != [] <==> HasModel(rows, model, norm)
  {
    var group := Group(rows, |rows|, model, norm);
    assert rows[..|rows|] == rows;
    if group != [] {
      GroupExact(rows, |rows|, model, norm, group[0]);
    }
    if HasModel(rows, model, norm) {
      var e :| e in rows && ModelOf(e, norm) == model;
      GroupExact(rows, |rows|, model, norm, e);
    }
  }

  lemma BetterTransitive(a: Entry, b: Entry, c: Entry)
    requires Better(a, b) && Better(b, c)
    ensures Better(a, c)
  {
    if a.row.minRam == b.row.minRam == c.row.minRam {
      LessTransitive(a.key, b.key, c.key);
    }
  }

  /** The best-so-far loop. */
  method PickBest(entries: seq<Entry>) returns (best: Entry)
    requires entries != []
    requires forall a, b :: a in entries && b in entries && a.key == b.key ==> a == b
    ensures best in entries && forall x :: x in entries ==> x == best || Better(best, x)
  {
    best := entries[0];
    for i := 1 to |entries|
      invariant best in entries
      invariant forall j :: 0 <= j < i ==> entries[j] == best || Better(best, entries[j])
    {
      var e := entries[i];
      LessTotal(e.key, best.key);
      if e.row.minRam > best.row.minRam || (e.row.minRam == best.row.minRam && Less(e.key, best.key)) {
        forall j | 0 <= j < i
          ensures Better(e, entries[j])
        {
          if entries[j] != best {
            BetterTransitive(e, best, entries[j]);
          }
        }
        best := e;
      }
    }
  }

  method RowUnder(rows: seq<Entry>, key: string) returns (r: Option<Entry>)
    ensures r.Some? <==> HasKey(rows, key)
    ensures r.Some? ==> r.value in rows && r.value.key == key
  {
    for i := 0 to |rows|
      invariant forall j :: 0 <= j < i ==> rows[j].key != key
    {
      if rows[i].key == key {
        return Some(rows[i]);
      }
    }
    return None;
  }

  method ClaimFor(rows: seq<Entry>, model: string, group: seq<Entry>, norm: Norm) returns (e: Entry)
    requires Keyed(rows) && group == Group(rows, |rows|, model, norm) != []
    ensures Claims(rows, model, norm, e)
  {
    var direct := RowUnder(rows, model);
    if direct.Some? {
      return direct.value;
    }
    assert rows[..|rows|] == rows;
    forall x
      ensures x in group <==> x in rows && ModelOf(x, norm) == model
    {
      GroupExact(rows, |rows|, model, norm, x);
    }
    forall a, b | a in group && b in group && a.key == b.key
      ensures a == b
    {
      SameKey(rows, a, b);
    }
    e := PickBest(group);
  }

  /** `highest_claimed_autotune_rows`. */
  method HighestClaimedRows(rows: seq<Entry>, norm: Norm) returns (best: map<string, Entry>)
    requires Keyed(rows)
    ensures ClaimsAll(rows, norm, best)
  {
    var groups := GroupByModel(rows, norm);
    best := map[];
    var todo := groups.Keys;
    while todo != {}
      invariant todo <= groups.Keys && best.Keys == groups.Keys - todo
      invariant forall model :: model in best ==> Claims(rows, model, norm, best[model])
      decreases |todo|
    {
      var model :| model in todo;
      var e := ClaimFor(rows, model, groups[model], norm);
      best := best[model := e];
      todo := todo - {model};
    }
  }

  // ---------- binding ----------

  lemma BindingStep(models: seq<string>, best: map<string, Entry>, i: nat)
    requires i < |models| && forall m :: m in models ==> m in best
    ensures models[i] in best
    ensures Binding(models[..i + 1], best) ==
              var e := best[models[i]];
              if e.row.sha == "" then Binding(models[..i], best)
              else Binding(models[..i], best) + [Bound(e.key, e.row.minRam, e.row.modelId, e.row.sha)]
  {
    assert models[..i + 1][..i] == models[..i];
  }

  method BindModels(models: seq<string>, best: map<string, Entry>) returns (bound: seq<Bound>)
    requires forall m :: m in models ==> m in best
    ensures bound == Binding(models, best)
  {
    bound := [];
    assert models[..|models|] == models;
    for i := 0 to |models|
      invariant bound == Binding(models[..i], best)
    {
      BindingStep(models, best, i);
      var e := best[models[i]];
      if e.row.sha != "" {
        bound := bound + [Bound(e.key, e.row.minRam, e.row.modelId, e.row.sha)];
      }
    }
  }

  /** `derive_tier2_identity_binding`; no binding is derived from a catalog without hashes or with conflicting ones. */
  method DeriveBinding(rows: seq<Entry>, norm: Norm, ghost claimed: map<string, Entry>) returns (binding: Option<seq<Bound>>)
    requires Keyed(rows) && ClaimsAll(rows, norm, claimed)
    ensures binding == if Binding(Sorted(claimed.Keys), claimed) == [] || !NoConflict(rows, norm) then None
                       else Some(Binding(Sorted(claimed.Keys), claimed))
  {
    var best := HighestClaimedRows(rows, norm);
    ClaimIgnoresOrder(rows, rows, norm, best, claimed);
    var bound := BindModels(Sorted(best.Keys), best);
    binding := None;
    if bound != [] {
      var ok := CheckHashes(rows, norm);
      binding := if ok then Some(bound) else None;
    }
  }

  // ---------- staging ----------

  method BindingByModel(binding: seq<Bound>, norm: Norm) returns (hashes: map<string, string>)
    ensures forall model :: HashOf(binding, model, norm) == if model in hashes then Some(hashes[model]) else None
  {
    hashes := map[];
    assert binding[..|binding|] == binding;
    for i := 0 to |binding|
      invariant forall model :: HashOf(binding[..i], model, norm) == if model in hashes then Some(hashes[model]) else None
    {
      assert binding[..i + 1][..i] == binding[..i];
      hashes := hashes[norm(binding[i].modelId) := binding[i].sha];
    }
  }

  /** `stage_tier2_republish`: the new entries, and the positions whose hash changed. */
  method StageRepublish<R>(entries: seq<Listed<R>>, binding: seq<Bound>, norm: Norm)
    returns (staged: seq<Listed<R>>, changed: seq<nat>)
    ensures staged == Staged(entries, binding, norm) && Staged(staged, binding, norm) == staged
    ensures forall i :: 0 <= i < |entries| ==> staged[i].modelId == entries[i].modelId && staged[i].rest == entries[i].rest
    ensures forall i :: i in changed <==> 0 <= i < |entries| && staged[i].sha != entries[i].sha
  {
    var hashes := BindingByModel(binding, norm);
    staged, changed := [], [];
    for i := 0 to |entries|
      invariant |staged| == i && forall j :: 0 <= j < i ==> staged[j] == StagedEntry(entries[j], binding, norm)
      invariant forall j :: j in changed <==> 0 <= j < i && staged[j].sha != entries[j].sha
    {
      var entry := entries[i];
      var model := norm(entry.modelId);
      if model in hashes && hashes[model] != entry.sha {
        changed := changed + [i];
        entry := entry.(sha := hashes[model]);
      }
      staged := staged + [entry];
    }
  }

  // ---------- the check ----------

  ghost predicate Loaded<R>(models: map<string, string>, tier2: seq<Listed<R>>, n: nat, norm: Norm)
    requires n <= |tier2|
  {
    && (forall i :: 0 <= i < n ==> norm(tier2[i].modelId) in models && models[norm(tier2[i].modelId)] == tier2[i].sha)
    && (forall model :: model in models ==> ListedBy(tier2, n, norm, model, models[model]))
  }

  predicate ListedBy<R>(tier2: seq<Listed<R>>, n: nat, norm: Norm, model: string, sha: string)
    requires n <= |tier2|
  {
    exists i :: 0 <= i < n && norm(tier2[i].modelId) == model && tier2[i].sha == sha
  }

  lemma LoadedStep<R>(models: map<string, string>, tier2: seq<Listed<R>>, i: nat, norm: Norm)
    requires i < |tier2| && Loaded(models, tier2, i, norm)
    requires norm(tier2[i].modelId) in models ==> models[norm(tier2[i].modelId)] == tier2[i].sha
    ensures Loaded(models[norm(tier2[i].modelId) := tier2[i].sha], tier2, i + 1, norm)
  {
    var more := models[norm(tier2[i].modelId) := tier2[i].sha];
    forall model | model in more
      ensures ListedBy(tier2, i + 1, norm, model, more[model])
    {
      if model in models {
        assert ListedBy(tier2, i, norm, model, models[model]);
      }
    }
  }

  /** `load_tier2_models`. */
  method LoadModels<R>(tier2: seq<Listed<R>>, norm: Norm) returns (models: Option<map<string, string>>)
    ensures models.Some? <==> Loadable(tier2, norm)
    ensures models.Some? ==> Loaded(models.value, tier2, |tier2|, norm)
  {
    if tier2 == [] {
      return None;
    }
    var out := map[];
    for i := 0 to |tier2|
      invariant Loaded(out, tier2, i, norm)
      invariant forall j :: 0 <= j < i ==> norm(tier2[j].modelId) != "" && Hex64(tier2[j].sha)
    {
      var model := norm(tier2[i].modelId);
      if model == "" || !Hex64(tier2[i].sha) {
        return None;
      }
      if model in out && out[model] != tier2[i].sha {
        assert ListedBy(tier2, i, norm, model, out[model]);
        return None;
      }
      LoadedStep(out, tier2, i, norm);
      out := out[model := tier2[i].sha];
    }
    return Some(out);
  }

  predicate NoConflictFor(models: map<string, string>, best: map<string, Entry>, model: string)
    requires model in best
  {
    best[model].row.sha != "" && model in models ==> models[model] == best[model].row.sha
  }

  lemma AgreeByModel<R>(models: map<string, string>, tier2: seq<Listed<R>>, best: map<string, Entry>, norm: Norm)
    requires Loaded(models, tier2, |tier2|, norm)
    ensures (forall model :: model in best ==> NoConflictFor(models, best, model)) <==> Agree(tier2, best, norm)
  {
    if forall model :: model in best ==> NoConflictFor(models, best, model) {
      forall i | 0 <= i < |tier2|
        ensures AgreesWith(tier2[i], best, norm)
      {
        if norm(tier2[i].modelId) in best {
          assert NoConflictFor(models, best, norm(tier2[i].modelId));
        }
      }
    }
    if Agree(tier2, best, norm) {
      forall model | model in best
        ensures NoConflictFor(models, best, model)
      {
        if model in models {
          assert ListedBy(tier2, |tier2|, norm, model, models[model]);
          var i :| 0 <= i < |tier2| && norm(tier2[i].modelId) == model && tier2[i].sha == models[model];
          assert AgreesWith(tier2[i], best, norm);
        }
      }
    }
  }

  /** The conflicts are collected over the whole catalog; any one of them fails the check. */
  method CompareModels(models: map<string, string>, best: map<string, Entry>) returns (ok: bool)
    ensures ok <==> forall model :: model in best ==> NoConflictFor(models, best, model)
  {
    var order := Sorted(best.Keys);
    var conflicts := [];
    for i := 0 to |order|
      invariant conflicts == [] <==> forall j :: 0 <= j < i ==> NoConflictFor(models, best, order[j])
    {
      assert order[i] in order;
      if !NoConflictFor(models, best, order[i]) {
        conflicts := conflicts + [order[i]];
      }
    }
    assert forall model :: model in best ==> model in order;
    return conflicts == [];
  }

  /** `check_tier2_binding` on a validated candidate catalog. */
  method CheckBinding<R>(rows: seq<Entry>, tier2: seq<Listed<R>>, norm: Norm, ghost claimed: map<string, Entry>) returns (ok: bool)
    requires Keyed(rows) && ClaimsAll(rows, norm, claimed)
    ensures ok <==> Loadable(tier2, norm) && Agree(tier2, claimed, norm)
    ensures ok <==> Agreeing(tier2, rows, norm)
  {
    CheckMeans(tier2, rows, norm, claimed);
    var models := LoadModels(tier2, norm);
    if models.None? {
      return false;
    }
    var best := HighestClaimedRows(rows, norm);
    ClaimIgnoresOrder(rows, rows, norm, best, claimed);
    AgreeByModel(models.value, tier2, best, norm);
    ok := CompareModels(models.value, best);
  }

  /** The entry checks of `load_tier2_republish_template` that bear on model ids and hashes. */
  method CheckTemplate<R>(entries: seq<Listed<R>>, norm: Norm) returns (ok: bool)
    ensures ok <==> Template(entries, norm)
  {
    var seen := {};
    for i := 0 to |entries|
      invariant forall j :: 0 <= j < i ==> norm(entries[j].modelId) != "" && Hex64(entries[j].sha)
      invariant forall j, k :: 0 <= j < k < i ==> norm(entries[j].modelId) != norm(entries[k].modelId)
      invariant forall j :: 0 <= j < i ==> norm(entries[j].modelId) in seen
      invariant forall model :: model in seen ==> exists j :: 0 <= j < i && norm(entries[j].modelId) == model
    {
      var model := norm(entries[i].modelId);
      if model == "" || !Hex64(entries[i].sha) || model in seen {
        return false;
      }
      seen := seen + {model};
    }
    return entries != [];
  }

  method ValidateCandidate(rows: seq<Entry>, norm: Norm) returns (ok: bool)
    requires Keyed(rows)
    ensures ok <==> Validated(rows, norm)
  {
    if !HashesAreHex(rows) {
      return false;
    }
    ok := CheckShadow(rows, norm);
    if ok {
      ok := CheckHashes(rows, norm);
    }
  }

  /**
    * `cmd_stage_tier2_republish`, with the binding derived from the same candidate catalog; `claimed` names the claimed
    * rows, which the catalog determines. Once both inputs are valid and some claimed row has a hash, the last check
    * never stands in the way.
    */
  method StageAndCheck<R>(rows: seq<Entry>, entries: seq<Listed<R>>, norm: Norm, ghost claimed: map<string, Entry>)
    returns (output: Option<seq<Listed<R>>>)
    requires Keyed(rows) && ClaimsAll(rows, norm, claimed)
    ensures output.Some? <==> Validated(rows, norm) && Template(entries, norm) && Binding(Sorted(claimed.Keys), claimed) != []
    ensures output.Some? ==> output.value == Staged(entries, Binding(Sorted(claimed.Keys), claimed), norm)
    ensures output.Some? <==> ProperRows(rows, norm) && ProperTemplate(entries, norm) && AnyHashed(rows, norm)
    ensures output.Some? ==>
              && |output.value| == |entries| && Agreeing(output.value, rows, norm)
              && forall i :: 0 <= i < |entries| ==> StagedAs(entries[i], output.value[i], rows, norm)
  {
    ValidatedMeans(rows, norm);
    TemplateMeans(entries, norm);
    BindsIff(rows, norm, claimed);
    var binding := DeriveBinding(rows, norm, claimed);
    output := None;
    var valid := ValidateCandidate(rows, norm);
    var template := CheckTemplate(entries, norm);
    if valid && template && binding.Some? {
      var staged, _ := StageRepublish(entries, binding.value, norm);
      StagedIsAccepted(entries, rows, norm, claimed);
      var ok := CheckBinding(rows, staged, norm, claimed);
      output := if ok then Some(staged) else None;
      forall i | 0 <= i < |entries|
        ensures StagedAs(entries[i], staged[i], rows, norm)
      {
        StagedMeans(entries, rows, norm, claimed, i);
      }
    }
  }
}
