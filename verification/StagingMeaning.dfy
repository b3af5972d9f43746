/** What staging writes and what the check accepts, on the rows and entries alone. */
module StagingMeaning {
  import opened Digests
  import opened StringOrder
  import opened Tier2Catalog

  // ---------- the claimed row ----------

  /** Some row declares the model. */
  ghost predicate Declared(rows: seq<Entry>, model: string, norm: Norm) {
    exists e :: e in rows && norm(e.row.modelId) == model
  }

  /** One row is preferred to another of its model: more memory, or as much and a smaller key. */
  predicate Preferred(e: Entry, x: Entry) {
    x.row.minRam < e.row.minRam || (x.row.minRam == e.row.minRam && (x == e || Less(e.key, x.key)))
  }

  /** The row under the model's own key; without one, the row of the model that is preferred to all others. */
  ghost predicate Claimed(rows: seq<Entry>, model: string, norm: Norm, e: Entry) {
    && e in rows
    && (|| e.key == model
        || (&& (forall x :: x in rows ==> x.key != model)
            && norm(e.row.modelId) == model
            && forall x :: x in rows && norm(x.row.modelId) == model ==> Preferred(e, x)))
  }

  lemma ClaimsMean(rows: seq<Entry>, model: string, norm: Norm, e: Entry)
    ensures Claims(rows, model, norm, e) <==> Claimed(rows, model, norm, e)
  {
    if e in rows {
      if HasKey(rows, model) {
        var x :| x in rows && x.key == model;
      } else {
        assert e.key != model && forall x :: x in rows ==> x.key != model;
        forall x
          ensures x == e || Better(e, x) <==> Preferred(e, x)
        {
        }
      }
    }
  }

  /** The table of claims holds the claimed row of every declared model, and nothing else. */
  lemma ClaimsAllMean(rows: seq<Entry>, norm: Norm, best: map<string, Entry>)
    requires ClaimsAll(rows, norm, best)
    ensures forall model :: model in best <==> Declared(rows, model, norm)
    ensures forall model :: model in best ==> Claimed(rows, model, norm, best[model])
  {
    forall model
      ensures HasModel(rows, model, norm) <==> Declared(rows, model, norm)
    {
    }
    forall model | model in best
      ensures Claimed(rows, model, norm, best[model])
    {
      ClaimsMean(rows, model, norm, best[model]);
    }
  }

  // ---------- valid inputs ----------

  /** Hashes are digests, no row sits under the key of another row's model, and rows of one model agree on their hash. */
  ghost predicate ProperRows(rows: seq<Entry>, norm: Norm) {
    && (forall e :: e in rows && e.row.sha != "" ==> HexCodes(e.row.sha))
    && (forall e, x :: e in rows && x in rows && norm(x.row.modelId) == e.key ==> norm(e.row.modelId) == e.key)
    && (forall a, b :: a in rows && b in rows && norm(a.row.modelId) == norm(b.row.modelId) ==>
          a.row.sha == "" || b.row.sha == "" || a.row.sha == b.row.sha)
  }

  lemma ShadowMeans(rows: seq<Entry>, norm: Norm)
    ensures NoShadow(rows, norm) <==>
              forall e, x :: e in rows && x in rows && norm(x.row.modelId) == e.key ==> norm(e.row.modelId) == e.key
  {
    forall e | e in rows
      ensures HasModel(rows, e.key, norm) <==> exists x :: x in rows && norm(x.row.modelId) == e.key
    {
    }
  }

  lemma ValidatedMeans(rows: seq<Entry>, norm: Norm)
    ensures Validated(rows, norm) <==> Keyed(rows) && ProperRows(rows, norm)
  {
    forall e | e in rows
      ensures Hex64(e.row.sha) <==> HexCodes(e.row.sha)
    {
      HexMeans(e.row.sha);
    }
    ShadowMeans(rows, norm);
  }

  /** A template lists at least one model, each once, under a non-blank id and with a digest. */
  ghost predicate ProperTemplate<R>(entries: seq<Listed<R>>, norm: Norm) {
    && |entries| > 0
    && (forall i :: 0 <= i < |entries| ==> |norm(entries[i].modelId)| > 0 && HexCodes(entries[i].sha))
    && (forall i, j :: 0 <= i < j < |entries| ==> norm(entries[i].modelId) != norm(entries[j].modelId))
  }

  lemma TemplateMeans<R>(entries: seq<Listed<R>>, norm: Norm)
    ensures Template(entries, norm) <==> ProperTemplate(entries, norm)
  {
    forall i | 0 <= i < |entries|
      ensures Hex64(entries[i].sha) <==> HexCodes(entries[i].sha)
    {
      HexMeans(entries[i].sha);
    }
  }

  // ---------- what staging writes ----------

  /** A claimed row with a hash names the hash of the model. */
  ghost predicate Hashed(rows: seq<Entry>, model: string, norm: Norm, sha: string) {
    Declared(rows, model, norm) && sha != "" && exists e :: Claimed(rows, model, norm, e) && e.row.sha == sha
  }

  /** The entry keeps its id and what was reviewed; its hash becomes that of the claimed row, if there is one. */
  ghost predicate StagedAs<R>(entry: Listed<R>, staged: Listed<R>, rows: seq<Entry>, norm: Norm) {
    && staged.modelId == entry.modelId && staged.rest == entry.rest
    && (forall sha :: Hashed(rows, norm(entry.modelId), norm, sha) ==> staged.sha == sha)
    && ((forall sha :: !Hashed(rows, norm(entry.modelId), norm, sha)) ==> staged.sha == entry.sha)
  }

  lemma HashedMeans(rows: seq<Entry>, norm: Norm, best: map<string, Entry>, model: string, sha: string)
    requires Keyed(rows) && ClaimsAll(rows, norm, best)
    ensures Hashed(rows, model, norm, sha) <==> model in best && best[model].row.sha == sha != ""
  {
    ClaimsAllMean(rows, norm, best);
    if Hashed(rows, model, norm, sha) {
      var e :| Claimed(rows, model, norm, e) && e.row.sha == sha;
      ClaimsMean(rows, model, norm, e);
      ClaimIsUnique(rows, model, norm, e, best[model]);
    }
  }

  lemma StagedMeans<R>(entries: seq<Listed<R>>, rows: seq<Entry>, norm: Norm, best: map<string, Entry>, i: nat)
    requires Validated(rows, norm) && ClaimsAll(rows, norm, best) && i < |entries|
    ensures StagedAs(entries[i], Staged(entries, Binding(Sorted(best.Keys), best), norm)[i], rows, norm)
  {
    var model := norm(entries[i].modelId);
    BindingFollowsClaims(rows, norm, best, model);
    forall sha
      ensures Hashed(rows, model, norm, sha) <==> model in best && best[model].row.sha == sha != ""
    {
      HashedMeans(rows, norm, best, model, sha);
    }
    if model in best && best[model].row.sha != "" {
      assert Hashed(rows, model, norm, best[model].row.sha);
    }
  }

  /** There is something to bind exactly when some claimed row has a hash. */
  lemma {:induction false} BindingIsEmpty(models: seq<string>, best: map<string, Entry>)
    requires forall m :: m in models ==> m in best
    ensures Binding(models, best) == [] <==> forall m :: m in models ==> best[m].row.sha == ""
    decreases |models|
  {
    if models != [] {
      var n := |models| - 1;
      BindingIsEmpty(models[..n], best);
      assert models == models[..n] + [models[n]];
    }
  }

  predicate Describes(b: Bound, e: Entry) {
    b.key == e.key && b.minRam == e.row.minRam && b.modelId == e.row.modelId && b.sha == e.row.sha
  }

  /** The binding describes exactly the claimed rows that have a hash. */
  lemma {:induction false} BindingDescribes(models: seq<string>, best: map<string, Entry>, b: Bound)
    requires forall m :: m in models ==> m in best
    ensures b in Binding(models, best) <==> exists m :: m in models && best[m].row.sha != "" && Describes(b, best[m])
    decreases |models|
  {
    if models != [] {
      var n := |models| - 1;
      BindingDescribes(models[..n], best, b);
      assert models == models[..n] + [models[n]];
    }
  }

  ghost predicate AnyHashed(rows: seq<Entry>, norm: Norm) {
    exists model, sha :: Hashed(rows, model, norm, sha)
  }

  lemma BindsIff(rows: seq<Entry>, norm: Norm, best: map<string, Entry>)
    requires Keyed(rows) && ClaimsAll(rows, norm, best)
    ensures Binding(Sorted(best.Keys), best) != [] <==> AnyHashed(rows, norm)
  {
    BindingIsEmpty(Sorted(best.Keys), best);
    if Binding(Sorted(best.Keys), best) != [] {
      var model :| model in best && best[model].row.sha != "";
      HashedMeans(rows, norm, best, model, best[model].row.sha);
    }
    if AnyHashed(rows, norm) {
      var model, sha :| Hashed(rows, model, norm, sha);
      HashedMeans(rows, norm, best, model, sha);
    }
  }

  // ---------- what the check accepts ----------

  /** A Tier-2 catalog that agrees with itself, and with the claimed rows on every model they share. */
  ghost predicate Agreeing<R>(tier2: seq<Listed<R>>, rows: seq<Entry>, norm: Norm) {
    && |tier2| > 0
    && (forall i :: 0 <= i < |tier2| ==> |norm(tier2[i].modelId)| > 0 && HexCodes(tier2[i].sha))
    && (forall i, j :: 0 <= i < j < |tier2| && norm(tier2[i].modelId) == norm(tier2[j].modelId) ==> tier2[i].sha == tier2[j].sha)
    && (forall i, sha :: 0 <= i < |tier2| && Hashed(rows, norm(tier2[i].modelId), norm, sha) ==> tier2[i].sha == sha)
  }

  lemma CheckMeans<R>(tier2: seq<Listed<R>>, rows: seq<Entry>, norm: Norm, best: map<string, Entry>)
    requires Keyed(rows) && ClaimsAll(rows, norm, best)
    ensures Loadable(tier2, norm) && Agree(tier2, best, norm) <==> Agreeing(tier2, rows, norm)
  {
    forall i | 0 <= i < |tier2|
      ensures Hex64(tier2[i].sha) <==> HexCodes(tier2[i].sha)
    {
      HexMeans(tier2[i].sha);
    }
    forall i, sha | 0 <= i < |tier2|
      ensures Hashed(rows, norm(tier2[i].modelId), norm, sha) <==>
                norm(tier2[i].modelId) in best && best[norm(tier2[i].modelId)].row.sha == sha != ""
    {
      HashedMeans(rows, norm, best, norm(tier2[i].modelId), sha);
    }
    if Agreeing(tier2, rows, norm) {
      forall i | 0 <= i < |tier2|
        ensures AgreesWith(tier2[i], best, norm)
      {
        var model := norm(tier2[i].modelId);
        if model in best && best[model].row.sha != "" {
          assert Hashed(rows, model, norm, best[model].row.sha);
        }
      }
    }
  }
}
