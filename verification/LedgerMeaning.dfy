/** Valid ledgers and accepted steps, on the fields of their records alone. */
module LedgerMeaning {
  import opened Digests
  import opened ReleaseLedger

  // ---------- valid ledgers ----------

  /** Two feeds, or three with the Tier-2 catalog, or four with the rate card as well. */
  predicate Names(feeds: set<FeedName>) {
    || feeds == {CandidatesFile, DemandRankFile}
    || feeds == {CandidatesFile, DemandRankFile, Tier2File}
    || feeds == {CandidatesFile, DemandRankFile, Tier2File, RateCardFile}
  }

  predicate ProperFeed(feed: Feed) {
    feed.bytes >= 1 && HexCodes(feed.sha256) && |feed.signerKeyId| > 0 && |feed.version| > 0
  }

  predicate ProperRecord(isTime: string -> bool, id: string, record: Record) {
    && |id| > 0 && isTime(record.generatedAt) && Names(record.feeds.Keys)
    && (forall name :: name in record.feeds ==> ProperFeed(record.feeds[name]))
    && record.feeds[CandidatesFile].version == id && record.feeds[DemandRankFile].version == id
  }

  predicate ProperBinding(isTime: string -> bool, b: Binding) {
    && b.candidateBytes >= 1 && HexCodes(b.candidateSha256) && b.demandBytes >= 1 && HexCodes(b.demandSha256)
    && |b.signerKeyId| > 0 && isTime(b.generatedAt)
  }

  /** A tombstone records at least two bindings that one id had, no two of the same files and signer. */
  predicate ProperTombstone(isTime: string -> bool, id: string, t: Tombstone) {
    && |id| > 0 && t.status == "permanently_rejected" && t.reason == "historical_release_id_rebound" && |t.bindings| >= 2
    && (forall i :: 0 <= i < |t.bindings| ==> ProperBinding(isTime, t.bindings[i]))
    && (forall i, j :: 0 <= i < j < |t.bindings| ==>
          || t.bindings[i].candidateSha256 != t.bindings[j].candidateSha256
          || t.bindings[i].demandSha256 != t.bindings[j].demandSha256
          || t.bindings[i].signerKeyId != t.bindings[j].signerKeyId)
  }

  lemma FeedMeans(feed: Feed)
    ensures FeedOk(feed) <==> ProperFeed(feed)
  {
    HexMeans(feed.sha256);
  }

  lemma NamesMean(feeds: set<FeedName>)
    ensures ShapeOk(feeds) <==> Names(feeds)
  {
    assert LEGACY_FEEDS == {CandidatesFile, DemandRankFile};
    assert TIER2_BOUND_FEEDS == {CandidatesFile, DemandRankFile, Tier2File};
    assert RATE_CARD_BOUND_FEEDS == {CandidatesFile, DemandRankFile, Tier2File, RateCardFile};
  }

  lemma RecordMeans(isTime: string -> bool, id: string, record: Record)
    ensures RecordOk(isTime, id, record) <==> ProperRecord(isTime, id, record)
  {
    NamesMean(record.feeds.Keys);
    forall name | name in record.feeds
      ensures FeedOk(record.feeds[name]) <==> ProperFeed(record.feeds[name])
    {
      FeedMeans(record.feeds[name]);
    }
    if Names(record.feeds.Keys) {
      assert CandidatesFile in record.feeds && DemandRankFile in record.feeds;
      assert forall name :: name in record.feeds && name != Tier2File && name != RateCardFile ==>
               name == CandidatesFile || name == DemandRankFile;
    }
  }

  lemma TombstoneMeans(isTime: string -> bool, id: string, t: Tombstone)
    ensures TombstoneOk(isTime, id, t) <==> ProperTombstone(isTime, id, t)
  {
    forall i | 0 <= i < |t.bindings|
      ensures BindingOk(isTime, t.bindings[i]) <==> ProperBinding(isTime, t.bindings[i])
    {
      HexMeans(t.bindings[i].candidateSha256);
      HexMeans(t.bindings[i].demandSha256);
    }
  }

  /** A ledger is valid exactly when its records and tombstones are proper and no id has both. */
  lemma ValidMeans(isTime: string -> bool, l: Ledger)
    ensures ValidLedger(isTime, l) <==>
              && (forall id :: id in l.releases ==> id !in l.tombstones && ProperRecord(isTime, id, l.releases[id]))
              && (forall id :: id in l.tombstones ==> ProperTombstone(isTime, id, l.tombstones[id]))
  {
    forall id | id in l.releases
      ensures RecordOk(isTime, id, l.releases[id]) <==> ProperRecord(isTime, id, l.releases[id])
    {
      RecordMeans(isTime, id, l.releases[id]);
    }
    forall id | id in l.tombstones
      ensures TombstoneOk(isTime, id, l.tombstones[id]) <==> ProperTombstone(isTime, id, l.tombstones[id])
    {
      TombstoneMeans(isTime, id, l.tombstones[id]);
    }
  }

  // ---------- accepted steps ----------

  /** Everything recorded stays, and one feed is added: the Tier-2 catalog to two feeds, or the rate card to three. */
  predicate GainsFeed(base: Record, current: Record) {
    && current.generatedAt == base.generatedAt && current.policyVersion == base.policyVersion
    && (forall name :: name in base.feeds ==> name in current.feeds && current.feeds[name] == base.feeds[name])
    && (|| (base.feeds.Keys == {CandidatesFile, DemandRankFile} && current.feeds.Keys == {CandidatesFile, DemandRankFile, Tier2File})
        || (base.feeds.Keys == {CandidatesFile, DemandRankFile, Tier2File}
            && current.feeds.Keys == {CandidatesFile, DemandRankFile, Tier2File, RateCardFile}))
  }

  lemma StepMeans(base: Record, current: Record)
    ensures RecordStep(base, current) <==> current == base || GainsFeed(base, current)
  {
    assert LEGACY_FEEDS == {CandidatesFile, DemandRankFile};
    assert TIER2_BOUND_FEEDS == {CandidatesFile, DemandRankFile, Tier2File};
    assert RATE_CARD_BOUND_FEEDS == {CandidatesFile, DemandRankFile, Tier2File, RateCardFile};
  }

  /**
    * A step is accepted exactly when every record stays or gains one feed, every tombstone stays, and every new record
    * has all four feeds.
    */
  lemma EvolvesMeans(base: Ledger, current: Ledger)
    ensures Evolves(base, current) <==>
              && (forall id :: id in base.releases ==>
                    id in current.releases &&
                    (current.releases[id] == base.releases[id] || GainsFeed(base.releases[id], current.releases[id])))
              && (forall id :: id in base.tombstones ==>
                    id in current.tombstones && current.tombstones[id] == base.tombstones[id])
              && (forall id :: id in current.releases && id !in base.releases ==>
                    current.releases[id].feeds.Keys == {CandidatesFile, DemandRankFile, Tier2File, RateCardFile})
  {
    forall id | id in base.releases && id in current.releases
      ensures RecordStep(base.releases[id], current.releases[id]) <==>
                current.releases[id] == base.releases[id] || GainsFeed(base.releases[id], current.releases[id])
    {
      StepMeans(base.releases[id], current.releases[id]);
    }
    assert RATE_CARD_BOUND_FEEDS == {CandidatesFile, DemandRankFile, Tier2File, RateCardFile};
  }

  /** A version 1 file has no tombstones, a version 2 file its own, and no other file is read. */
  lemma ParsedMeans(doc: Document)
    ensures doc.V1? ==> Parsed(doc).Some? && Parsed(doc).value.releases == doc.releases && Parsed(doc).value.tombstones == map[]
    ensures doc.V2? ==>
              Parsed(doc).Some? && Parsed(doc).value.releases == doc.releases && Parsed(doc).value.tombstones == doc.tombstones
    ensures doc.OtherSchema? ==> Parsed(doc).None?
  {
  }
}
