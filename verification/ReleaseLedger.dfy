/** The append-only release ledger of `catalog-release.py`: which ledgers are valid and which may follow which. */
module ReleaseLedger {
  import opened Wrappers
  import opened Digests

  /** The files a release binds, `autotune-candidates.json` to `rate-card.json`, or any other name. */
  datatype FeedName = CandidatesFile | DemandRankFile | Tier2File | RateCardFile | OtherFile(name: string)

  datatype Feed = Feed(bytes: int, sha256: string, signerKeyId: string, version: string)

  datatype Record = Record(generatedAt: string, policyVersion: Option<string>, feeds: map<FeedName, Feed>)

  datatype Binding = Binding(
    candidateBytes: int, candidateSha256: string, demandBytes: int, demandSha256: string,
    generatedAt: string, signerKeyId: string)

  datatype Tombstone = Tombstone(status: string, reason: string, bindings: seq<Binding>)

  datatype Ledger = Ledger(releases: map<string, Record>, tombstones: map<string, Tombstone>)

  const LEGACY_FEEDS: set<FeedName> := {CandidatesFile, DemandRankFile}
  const TIER2_BOUND_FEEDS: set<FeedName> := LEGACY_FEEDS + {Tier2File}
  const RATE_CARD_BOUND_FEEDS: set<FeedName> := TIER2_BOUND_FEEDS + {RateCardFile}

  // ---------- validity ----------

  predicate FeedOk(feed: Feed) {
    feed.bytes > 0 && Hex64(feed.sha256) && feed.signerKeyId != "" && feed.version != ""
  }

  predicate ShapeOk(feeds: set<FeedName>) {
    feeds == LEGACY_FEEDS || feeds == TIER2_BOUND_FEEDS || feeds == RATE_CARD_BOUND_FEEDS
  }

  /** `isTime` is the RFC 3339 test on timestamps. */
  predicate RecordOk(isTime: string -> bool, id: string, record: Record) {
    && id != "" && isTime(record.generatedAt) && ShapeOk(record.feeds.Keys)
    && forall name :: name in record.feeds ==>
         FeedOk(record.feeds[name]) && (name != Tier2File && name != RateCardFile ==> record.feeds[name].version == id)
  }

  predicate BindingOk(isTime: string -> bool, b: Binding) {
    && isTime(b.generatedAt) && b.candidateBytes > 0 && b.demandBytes > 0
    && Hex64(b.candidateSha256) && Hex64(b.demandSha256) && b.signerKeyId != ""
  }

  function Identity(b: Binding): (string, string, string) {
    (b.candidateSha256, b.demandSha256, b.signerKeyId)
  }

  predicate BindingsOk(isTime: string -> bool, bindings: seq<Binding>) {
    && (forall i :: 0 <= i < |bindings| ==> BindingOk(isTime, bindings[i]))
    && (forall i, j :: 0 <= i < j < |bindings| ==> Identity(bindings[i]) != Identity(bindings[j]))
  }

  predicate TombstoneOk(isTime: string -> bool, id: string, t: Tombstone) {
    && id != "" && t.status == "permanently_rejected" && t.reason == "historical_release_id_rebound"
    && |t.bindings| >= 2 && BindingsOk(isTime, t.bindings)
  }

  predicate ReleasesOk(isTime: string -> bool, releases: map<string, Record>) {
    forall id :: id in releases ==> RecordOk(isTime, id, releases[id])
  }

  predicate TombstonesOk(isTime: string -> bool, tombstones: map<string, Tombstone>) {
    forall id :: id in tombstones ==> TombstoneOk(isTime, id, tombstones[id])
  }

  predicate ValidLedger(isTime: string -> bool, l: Ledger) {
    && l.releases.Keys !! l.tombstones.Keys
    && ReleasesOk(isTime, l.releases) && TombstonesOk(isTime, l.tombstones)
  }

  /** The parsed file: version 1 has no tombstones, and any other schema is refused. */
  datatype Document = V1(releases: map<string, Record>) | V2(releases: map<string, Record>, tombstones: map<string, Tombstone>) | OtherSchema

  method CheckBindings(isTime: string -> bool, bindings: seq<Binding>) returns (ok: bool)
    ensures ok <==> BindingsOk(isTime, bindings)
  {
    var seen := {};
    for i := 0 to |bindings|
      invariant BindingsOk(isTime, bindings[..i])
      invariant forall x :: x in seen <==> exists k :: 0 <= k < i && Identity(bindings[k]) == x
    {
      if !BindingOk(isTime, bindings[i]) || Identity(bindings[i]) in seen {
        return false;
      }
      seen := seen + {Identity(bindings[i])};
      assert bindings[..i + 1] == bindings[..i] + [bindings[i]];
    }
    assert bindings[..|bindings|] == bindings;
    return true;
  }

  method CheckReleases(isTime: string -> bool, releases: map<string, Record>) returns (ok: bool)
    ensures ok <==> ReleasesOk(isTime, releases)
  {
    var rest := releases.Keys;
    while rest != {}
      invariant rest <= releases.Keys
      invariant forall id :: id in releases && id !in rest ==> RecordOk(isTime, id, releases[id])
      decreases |rest|
    {
      var id :| id in rest;
      if !RecordOk(isTime, id, releases[id]) {
        return false;
      }
      rest := rest - {id};
    }
    return true;
  }

  method CheckTombstones(isTime: string -> bool, tombstones: map<string, Tombstone>) returns (ok: bool)
    ensures ok <==> TombstonesOk(isTime, tombstones)
  {
    var rest := tombstones.Keys;
    while rest != {}
      invariant rest <= tombstones.Keys
      invariant forall id :: id in tombstones && id !in rest ==> TombstoneOk(isTime, id, tombstones[id])
      decreases |rest|
    {
      var id :| id in rest;
      var t := tombstones[id];
      var bindingsOk := CheckBindings(isTime, t.bindings);
      if id == "" || t.status != "permanently_rejected" || t.reason != "historical_release_id_rebound" || |t.bindings| < 2 || !bindingsOk {
        return false;
      }
      rest := rest - {id};
    }
    return true;
  }

  function Parsed(doc: Document): Option<Ledger> {
    match doc
    case V1(releases) => Some(Ledger(releases, map[]))
    case V2(releases, tombstones) => Some(Ledger(releases, tombstones))
    case OtherSchema => None
  }

  method CheckLedger(isTime: string -> bool, l: Ledger) returns (ok: bool)
    ensures ok <==> ValidLedger(isTime, l)
  {
    if !(l.releases.Keys !! l.tombstones.Keys) {
      return false;
    }
    ok := CheckReleases(isTime, l.releases);
    if ok {
      ok := CheckTombstones(isTime, l.tombstones);
    }
  }

  method ValidateReleaseLedger(isTime: string -> bool, doc: Document) returns (r: Option<Ledger>)
    ensures r.Some? <==> Parsed(doc).Some? && ValidLedger(isTime, Parsed(doc).value)
    ensures r.Some? ==> r == Parsed(doc)
  {
    r := Parsed(doc);
    if r.Some? {
      var ok := CheckLedger(isTime, r.value);
      if !ok {
        r := None;
      }
    }
  }

  // ---------- evolution ----------

  predicate SameFeeds(names: set<FeedName>, base: Record, current: Record) {
    forall name :: name in names ==>
      (name in base.feeds <==> name in current.feeds) && (name in base.feeds ==> base.feeds[name] == current.feeds[name])
  }

  predicate SameHeader(base: Record, current: Record) {
    base.generatedAt == current.generatedAt && base.policyVersion == current.policyVersion
  }

  predicate Tier2Enrichment(base: Record, current: Record) {
    && SameHeader(base, current)
    && base.feeds.Keys == LEGACY_FEEDS && current.feeds.Keys == TIER2_BOUND_FEEDS
    && SameFeeds(LEGACY_FEEDS, base, current)
  }

  predicate RateCardEnrichment(base: Record, current: Record) {
    && SameHeader(base, current)
    && base.feeds.Keys == TIER2_BOUND_FEEDS && current.feeds.Keys == RATE_CARD_BOUND_FEEDS
    && SameFeeds(TIER2_BOUND_FEEDS, base, current)
  }

  predicate RecordStep(base: Record, current: Record) {
    current == base || Tier2Enrichment(base, current) || RateCardEnrichment(base, current)
  }

  predicate PublishedKept(base: Ledger, current: Ledger) {
    forall id :: id in base.releases ==> id in current.releases && RecordStep(base.releases[id], current.releases[id])
  }

  predicate TombstonesKept(base: Ledger, current: Ledger) {
    forall id :: id in base.tombstones ==> id in current.tombstones && current.tombstones[id] == base.tombstones[id]
  }

  predicate NewReleasesComplete(base: Ledger, current: Ledger) {
    forall id :: id in current.releases && id !in base.releases ==> current.releases[id].feeds.Keys == RATE_CARD_BOUND_FEEDS
  }

  /** `require_ledger_evolution` accepts the step from `base` to `current`. */
  predicate Evolves(base: Ledger, current: Ledger) {
    PublishedKept(base, current) && TombstonesKept(base, current) && NewReleasesComplete(base, current)
  }

  method CheckPublished(base: Ledger, current: Ledger) returns (ok: bool)
    ensures ok <==> PublishedKept(base, current)
  {
    var rest := base.releases.Keys;
    while rest != {}
      invariant rest <= base.releases.Keys
      invariant forall id :: id in base.releases && id !in rest ==>
                  id in current.releases && RecordStep(base.releases[id], current.releases[id])
      decreases |rest|
    {
      var id :| id in rest;
      if id !in current.releases {
        return false;
      }
      if current.releases[id] != base.releases[id]
         && !Tier2Enrichment(base.releases[id], current.releases[id])
         && !RateCardEnrichment(base.releases[id], current.releases[id]) {
        return false;
      }
      rest := rest - {id};
    }
    return true;
  }

  method CheckTombstonesKept(base: Ledger, current: Ledger) returns (ok: bool)
    ensures ok <==> TombstonesKept(base, current)
  {
    var rest := base.tombstones.Keys;
    while rest != {}
      invariant rest <= base.tombstones.Keys
      invariant forall id :: id in base.tombstones && id !in rest ==>
                  id in current.tombstones && current.tombstones[id] == base.tombstones[id]
      decreases |rest|
    {
      var id :| id in rest;
      if id !in current.tombstones || current.tombstones[id] != base.tombstones[id] {
        return false;
      }
      rest := rest - {id};
    }
    return true;
  }

  method CheckNewReleases(base: Ledger, current: Ledger) returns (ok: bool)
    ensures ok <==> NewReleasesComplete(base, current)
  {
    var rest := current.releases.Keys;
    while rest != {}
      invariant rest <= current.releases.Keys
      invariant forall id :: id in current.releases && id !in rest && id !in base.releases ==>
                  current.releases[id].feeds.Keys == RATE_CARD_BOUND_FEEDS
      decreases |rest|
    {
      var id :| id in rest;
      if id !in base.releases && current.releases[id].feeds.Keys != RATE_CARD_BOUND_FEEDS {
        return false;
      }
      rest := rest - {id};
    }
    return true;
  }

  method RequireLedgerEvolution(base: Ledger, current: Ledger) returns (ok: bool)
    ensures ok <==> Evolves(base, current)
  {
    ok := CheckPublished(base, current);
    if ok {
      ok := CheckTombstonesKept(base, current);
      if ok {
        ok := CheckNewReleases(base, current);
      }
    }
  }

  /** `updated_release_ledger`: bind the release of a manifest, if the ledger allows it. */
  method UpdatedReleaseLedger(base: Ledger, current: Ledger, id: string, record: Record) returns (r: Option<Ledger>)
    ensures r.Some? <==>
            && Evolves(base, current) && id !in current.tombstones
            && (if id in current.releases then RecordStep(current.releases[id], record)
                else record.feeds.Keys == RATE_CARD_BOUND_FEEDS)
    ensures r.Some? ==> r.value == Ledger(current.releases[id := record], current.tombstones) && Evolves(current, r.value)
  {
    var ok := RequireLedgerEvolution(base, current);
    if !ok {
      return None;
    }
    if id in current.tombstones {
      return None;
    }
    if id in current.releases {
      var existing := current.releases[id];
      if existing != record && !Tier2Enrichment(existing, record) && !RateCardEnrichment(existing, record) {
        return None;
      }
    }
    var updated := Ledger(current.releases[id := record], current.tombstones);
    ok := RequireLedgerEvolution(current, updated);
    return if ok then Some(updated) else None;
  }

  lemma PutIsOk(isTime: string -> bool, releases: map<string, Record>, id: string, record: Record)
    requires ReleasesOk(isTime, releases)
    ensures ReleasesOk(isTime, releases[id := record]) <==> RecordOk(isTime, id, record)
  {
    var updated := releases[id := record];
    assert id in updated && updated[id] == record;
    if RecordOk(isTime, id, record) {
      forall k | k in updated
        ensures RecordOk(isTime, k, updated[k])
      {
        assert k != id ==> k in releases && updated[k] == releases[k];
      }
    }
  }

  /** The update keeps a ledger valid exactly when the new record is a valid one. */
  lemma UpdatedIsValid(isTime: string -> bool, current: Ledger, id: string, record: Record)
    requires ValidLedger(isTime, current) && id !in current.tombstones
    ensures ValidLedger(isTime, Ledger(current.releases[id := record], current.tombstones)) <==> RecordOk(isTime, id, record)
  {
    PutIsOk(isTime, current.releases, id, record);
    assert current.releases[id := record].Keys == current.releases.Keys + {id};
  }
}
