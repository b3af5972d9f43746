/** What an accepted ledger history guarantees, over any number of versions. */
module LedgerHistory {
  import opened ReleaseLedger

  /** A history in which each version is valid and follows from the one before. */
  predicate Accepted(isTime: string -> bool, versions: seq<Ledger>) {
    Evolving(versions) && forall i :: 0 <= i < |versions| ==> ValidLedger(isTime, versions[i])
  }

  predicate Evolving(versions: seq<Ledger>) {
    forall i :: 0 <= i < |versions| - 1 ==> StepAccepted(versions, i)
  }

  predicate StepAccepted(versions: seq<Ledger>, i: nat)
    requires i < |versions| - 1
  {
    Evolves(versions[i], versions[i + 1])
  }

  // ---------- records ----------

  /** Everything recorded stays recorded. */
  predicate Extends(base: Record, current: Record) {
    && current.generatedAt == base.generatedAt && current.policyVersion == base.policyVersion
    && forall name :: name in base.feeds ==> name in current.feeds && current.feeds[name] == base.feeds[name]
  }

  /** Both enrichments at once, which a single step does not accept. */
  predicate DoubleEnrichment(base: Record, current: Record) {
    && base.feeds.Keys == LEGACY_FEEDS && current.feeds.Keys == RATE_CARD_BOUND_FEEDS
    && Extends(base, current)
  }

  predicate RecordGrows(base: Record, current: Record) {
    RecordStep(base, current) || DoubleEnrichment(base, current)
  }

  lemma ShapeSizes(r: Record)
    ensures r.feeds.Keys == LEGACY_FEEDS ==> |r.feeds| == 2
    ensures r.feeds.Keys == TIER2_BOUND_FEEDS ==> |r.feeds| == 3
    ensures r.feeds.Keys == RATE_CARD_BOUND_FEEDS ==> |r.feeds| == 4
  {
    assert |r.feeds| == |r.feeds.Keys|;
    assert |LEGACY_FEEDS| == 2;
    assert |TIER2_BOUND_FEEDS| == |LEGACY_FEEDS| + 1;
    assert |RATE_CARD_BOUND_FEEDS| == |TIER2_BOUND_FEEDS| + 1;
  }

  /** A step either leaves a record alone or adds exactly one feed to it. */
  lemma StepAddsOneFeed(base: Record, current: Record)
    requires RecordStep(base, current)
    ensures Extends(base, current)
    ensures current == base || |current.feeds| == |base.feeds| + 1
    ensures current != base ==> 2 <= |base.feeds| <= 3
  {
    ShapeSizes(base);
    ShapeSizes(current);
  }

  lemma RecordGrowsTransitive(a: Record, b: Record, c: Record)
    requires RecordGrows(a, b) && RecordGrows(b, c)
    ensures RecordGrows(a, c) && Extends(a, c)
  {
    ShapeSizes(a);
    ShapeSizes(b);
    ShapeSizes(c);
  }

  /** Two steps on a record compose into one exactly when they are not the two enrichments. */
  lemma RecordStepsCompose(a: Record, b: Record, c: Record)
    requires RecordStep(a, b) && RecordStep(b, c)
    ensures RecordStep(a, c) <==> !(a.feeds.Keys == LEGACY_FEEDS && c.feeds.Keys == RATE_CARD_BOUND_FEEDS)
  {
    ShapeSizes(a);
    ShapeSizes(b);
    ShapeSizes(c);
  }

  // ---------- ledgers ----------

  predicate PublishedGrow(base: Ledger, current: Ledger) {
    forall id :: id in base.releases ==> id in current.releases && RecordGrows(base.releases[id], current.releases[id])
  }

  /** `Evolves` with any number of enrichments per release. */
  predicate Grows(base: Ledger, current: Ledger) {
    PublishedGrow(base, current) && TombstonesKept(base, current) && NewReleasesComplete(base, current)
  }

  /** A release goes from the two-feed to the four-feed shape. */
  predicate Jumps(base: Ledger, current: Ledger, id: string) {
    && id in base.releases && id in current.releases
    && base.releases[id].feeds.Keys == LEGACY_FEEDS && current.releases[id].feeds.Keys == RATE_CARD_BOUND_FEEDS
  }

  lemma EvolvesNeverJumps(base: Ledger, current: Ledger)
    requires Evolves(base, current)
    ensures forall id :: !Jumps(base, current, id)
  {
    forall id | Jumps(base, current, id)
      ensures false
    {
      ShapeSizes(base.releases[id]);
      ShapeSizes(current.releases[id]);
      StepAddsOneFeed(base.releases[id], current.releases[id]);
    }
  }

  /** `require_ledger_evolution` accepts a ledger against itself. */
  lemma EvolvesReflexive(l: Ledger)
    ensures Evolves(l, l)
  {
  }

  lemma CompleteRecordIsFinal(base: Record, current: Record)
    requires base.feeds.Keys == RATE_CARD_BOUND_FEEDS && RecordGrows(base, current)
    ensures current == base
  {
    ShapeSizes(base);
  }

  lemma NewReleasesCompose(a: Ledger, b: Ledger, c: Ledger)
    requires NewReleasesComplete(a, b) && NewReleasesComplete(b, c) && PublishedGrow(b, c)
    ensures NewReleasesComplete(a, c)
  {
    forall id | id in c.releases && id !in a.releases
      ensures c.releases[id].feeds.Keys == RATE_CARD_BOUND_FEEDS
    {
      if id in b.releases {
        CompleteRecordIsFinal(b.releases[id], c.releases[id]);
      }
    }
  }

  /** Two accepted steps compose into one accepted step exactly when no release makes the jump across them. */
  lemma StepsCompose(a: Ledger, b: Ledger, c: Ledger)
    requires Evolves(a, b) && Evolves(b, c)
    ensures Evolves(a, c) <==> forall id :: id in a.releases ==> !Jumps(a, c, id)
  {
    assert PublishedGrow(b, c);
    NewReleasesCompose(a, b, c);
    forall id | id in a.releases
      ensures id in c.releases && (RecordStep(a.releases[id], c.releases[id]) <==> !Jumps(a, c, id))
    {
      RecordStepsCompose(a.releases[id], b.releases[id], c.releases[id]);
    }
    if Evolves(a, c) {
      assert forall id :: id in a.releases ==> RecordStep(a.releases[id], c.releases[id]);
    }
  }

  // ---------- histories ----------

  /** What one accepted step says about one id. */
  lemma StepKeeps(versions: seq<Ledger>, k: nat, id: string)
    requires Evolving(versions) && k + 1 < |versions|
    ensures id in versions[k].releases ==>
              id in versions[k + 1].releases && RecordStep(versions[k].releases[id], versions[k + 1].releases[id])
    ensures id in versions[k].tombstones ==>
              id in versions[k + 1].tombstones && versions[k + 1].tombstones[id] == versions[k].tombstones[id]
    ensures id in versions[k + 1].releases && id !in versions[k].releases ==>
              versions[k + 1].releases[id].feeds.Keys == RATE_CARD_BOUND_FEEDS
  {
    assert StepAccepted(versions, k);
  }

  lemma {:induction false} ReleaseGrows(versions: seq<Ledger>, i: nat, j: nat, id: string)
    requires Evolving(versions) && i <= j < |versions| && id in versions[i].releases
    ensures id in versions[j].releases && RecordGrows(versions[i].releases[id], versions[j].releases[id])
    decreases j
  {
    if i < j {
      ReleaseGrows(versions, i, j - 1, id);
      StepKeeps(versions, j - 1, id);
      RecordGrowsTransitive(versions[i].releases[id], versions[j - 1].releases[id], versions[j].releases[id]);
    }
  }

  lemma {:induction false} TombstoneStays(versions: seq<Ledger>, i: nat, j: nat, id: string)
    requires Evolving(versions) && i <= j < |versions| && id in versions[i].tombstones
    ensures id in versions[j].tombstones && versions[j].tombstones[id] == versions[i].tombstones[id]
    decreases j
  {
    if i < j {
      TombstoneStays(versions, i, j - 1, id);
      StepKeeps(versions, j - 1, id);
    }
  }

  lemma {:induction false} LaterIsComplete(versions: seq<Ledger>, i: nat, j: nat, id: string)
    requires Evolving(versions) && i <= j < |versions| && id in versions[j].releases && id !in versions[i].releases
    ensures versions[j].releases[id].feeds.Keys == RATE_CARD_BOUND_FEEDS
    decreases j
  {
    StepKeeps(versions, j - 1, id);
    if id in versions[j - 1].releases {
      LaterIsComplete(versions, i, j - 1, id);
      CompleteRecordIsFinal(versions[j - 1].releases[id], versions[j].releases[id]);
    }
  }

  lemma HistoryGrows(versions: seq<Ledger>, i: nat, j: nat)
    requires Evolving(versions) && i <= j < |versions|
    ensures Grows(versions[i], versions[j])
  {
    forall id | id in versions[i].releases
      ensures id in versions[j].releases && RecordGrows(versions[i].releases[id], versions[j].releases[id])
    {
      ReleaseGrows(versions, i, j, id);
    }
    forall id | id in versions[i].tombstones
      ensures id in versions[j].tombstones && versions[j].tombstones[id] == versions[i].tombstones[id]
    {
      TombstoneStays(versions, i, j, id);
    }
    forall id | id in versions[j].releases && id !in versions[i].releases
      ensures versions[j].releases[id].feeds.Keys == RATE_CARD_BOUND_FEEDS
    {
      LaterIsComplete(versions, i, j, id);
    }
  }

  /** No published release disappears and nothing recorded about it ever changes; tombstones are fixed. */
  lemma NothingIsLost(versions: seq<Ledger>, i: nat, j: nat)
    requires Evolving(versions) && i <= j < |versions|
    ensures forall id :: id in versions[i].releases ==>
              id in versions[j].releases && Extends(versions[i].releases[id], versions[j].releases[id])
    ensures forall id :: id in versions[i].tombstones ==>
              id in versions[j].tombstones && versions[j].tombstones[id] == versions[i].tombstones[id]
  {
    HistoryGrows(versions, i, j);
    forall id | id in versions[i].releases
      ensures id in versions[j].releases && Extends(versions[i].releases[id], versions[j].releases[id])
    {
      RecordGrowsTransitive(versions[i].releases[id], versions[i].releases[id], versions[j].releases[id]);
    }
  }

  /** An id published in one version is tombstoned in none, earlier or later. */
  lemma NeverBothFates(isTime: string -> bool, versions: seq<Ledger>, i: nat, j: nat)
    requires Accepted(isTime, versions) && i < |versions| && j < |versions|
    ensures versions[i].releases.Keys !! versions[j].tombstones.Keys
  {
    var last := if i < j then j else i;
    NothingIsLost(versions, i, last);
    NothingIsLost(versions, j, last);
  }

  /** The record of `id` in each version from `i` to `j`. */
  function RecordsOf(versions: seq<Ledger>, id: string, i: nat, j: nat): (r: seq<Record>)
    requires i <= j < |versions| && forall k :: i <= k <= j ==> id in versions[k].releases
    ensures |r| == j - i + 1
  {
    seq(j - i + 1, k requires 0 <= k <= j - i => versions[i + k].releases[id])
  }

  /** How often a sequence changes from one element to the next. */
  function Changes(records: seq<Record>): nat {
    if |records| < 2 then 0
    else Changes(records[..|records| - 1]) + if records[|records| - 2] == records[|records| - 1] then 0 else 1
  }

  lemma StaysPublished(versions: seq<Ledger>, id: string, i: nat)
    requires Evolving(versions) && i < |versions| && id in versions[i].releases
    ensures forall k :: i <= k < |versions| ==> id in versions[k].releases
  {
    forall k | i <= k < |versions|
      ensures id in versions[k].releases
    {
      NothingIsLost(versions, i, k);
    }
  }

  predicate StepAt(records: seq<Record>, k: nat)
    requires 0 < k < |records|
  {
    RecordStep(records[k - 1], records[k])
  }

  predicate RecordSteps(records: seq<Record>) {
    forall k :: 0 < k < |records| ==> StepAt(records, k)
  }

  lemma {:induction false} ChangesAreFeeds(records: seq<Record>)
    requires records != [] && RecordSteps(records)
    ensures Changes(records) == |records[|records| - 1].feeds| - |records[0].feeds|
    decreases |records|
  {
    if |records| > 1 {
      var n := |records| - 1;
      forall k | 0 < k < n
        ensures StepAt(records[..n], k)
      {
        assert StepAt(records, k);
      }
      ChangesAreFeeds(records[..n]);
      assert StepAt(records, n);
      StepAddsOneFeed(records[n - 1], records[n]);
    }
  }

  lemma RecordsStep(versions: seq<Ledger>, id: string, i: nat, j: nat)
    requires Evolving(versions) && i <= j < |versions|
    requires forall k :: i <= k <= j ==> id in versions[k].releases
    ensures RecordSteps(RecordsOf(versions, id, i, j))
  {
    var records := RecordsOf(versions, id, i, j);
    forall k | 0 < k < |records|
      ensures StepAt(records, k)
    {
      StepKeeps(versions, i + k - 1, id);
    }
  }

  lemma SizeBounds(isTime: string -> bool, l: Ledger, id: string)
    requires ValidLedger(isTime, l) && id in l.releases
    ensures 2 <= |l.releases[id].feeds| <= 4
  {
    ShapeSizes(l.releases[id]);
    assert RecordOk(isTime, id, l.releases[id]);
  }

  lemma NewIsComplete(versions: seq<Ledger>, id: string, i: nat)
    requires Evolving(versions) && 0 < i < |versions| && id in versions[i].releases && id !in versions[i - 1].releases
    ensures |versions[i].releases[id].feeds| == 4
  {
    assert StepAccepted(versions, i - 1);
    ShapeSizes(versions[i].releases[id]);
  }

  lemma ChangesBetween(versions: seq<Ledger>, id: string, i: nat, j: nat)
    requires Evolving(versions) && i <= j < |versions|
    requires forall k :: i <= k <= j ==> id in versions[k].releases
    ensures Changes(RecordsOf(versions, id, i, j)) == |versions[j].releases[id].feeds| - |versions[i].releases[id].feeds|
  {
    RecordsStep(versions, id, i, j);
    ChangesAreFeeds(RecordsOf(versions, id, i, j));
  }

  /** Each record changes at most twice, once per feed added; a release added after the first version never changes. */
  lemma AtMostTwoChanges(isTime: string -> bool, versions: seq<Ledger>, id: string, i: nat, j: nat)
    requires Accepted(isTime, versions) && i <= j < |versions| && id in versions[i].releases
    ensures forall k :: i <= k <= j ==> id in versions[k].releases
    ensures Changes(RecordsOf(versions, id, i, j)) == |versions[j].releases[id].feeds| - |versions[i].releases[id].feeds|
    ensures Changes(RecordsOf(versions, id, i, j)) <= 2
    ensures i > 0 && id !in versions[i - 1].releases ==> Changes(RecordsOf(versions, id, i, j)) == 0
  {
    StaysPublished(versions, id, i);
    ChangesBetween(versions, id, i, j);
    SizeBounds(isTime, versions[i], id);
    SizeBounds(isTime, versions[j], id);
    if i > 0 && id !in versions[i - 1].releases {
      NewIsComplete(versions, id, i);
    }
  }

  // ---------- any history is two steps ----------

  /** The record half way: with the Tier-2 feed of `current` but not yet its rate card. */
  function Halfway(base: Record, current: Record): Record {
    if DoubleEnrichment(base, current) then Record(current.generatedAt, current.policyVersion, current.feeds - {RateCardFile})
    else current
  }

  lemma HalfwaySteps(base: Record, current: Record)
    requires RecordGrows(base, current)
    ensures RecordStep(base, Halfway(base, current)) && RecordStep(Halfway(base, current), current)
  {
    if DoubleEnrichment(base, current) {
      assert Halfway(base, current).feeds.Keys == TIER2_BOUND_FEEDS;
    }
  }

  function HalfwayLedger(base: Ledger, current: Ledger): Ledger {
    Ledger(map id | id in current.releases ::
             if id in base.releases then Halfway(base.releases[id], current.releases[id]) else current.releases[id],
           current.tombstones)
  }

  lemma HalfwayRecordOk(isTime: string -> bool, id: string, base: Record, current: Record)
    requires RecordOk(isTime, id, current)
    ensures RecordOk(isTime, id, Halfway(base, current))
  {
    if DoubleEnrichment(base, current) {
      assert Halfway(base, current).feeds.Keys == TIER2_BOUND_FEEDS;
    }
  }

  lemma HalfwayValid(isTime: string -> bool, base: Ledger, current: Ledger)
    requires ValidLedger(isTime, current)
    ensures ValidLedger(isTime, HalfwayLedger(base, current))
  {
    var mid := HalfwayLedger(base, current);
    forall id | id in mid.releases
      ensures RecordOk(isTime, id, mid.releases[id])
    {
      if id in base.releases {
        HalfwayRecordOk(isTime, id, base.releases[id], current.releases[id]);
      }
    }
  }

  /** Between any two versions of an accepted history two accepted steps, through a valid ledger, suffice. */
  lemma HistoryIsTwoSteps(isTime: string -> bool, versions: seq<Ledger>, i: nat, j: nat)
    requires Accepted(isTime, versions) && i <= j < |versions|
    ensures var mid := HalfwayLedger(versions[i], versions[j]);
            ValidLedger(isTime, mid) && Evolves(versions[i], mid) && Evolves(mid, versions[j])
  {
    var base, current := versions[i], versions[j];
    var mid := HalfwayLedger(base, current);
    HistoryGrows(versions, i, j);
    HalfwayValid(isTime, base, current);
    forall id | id in base.releases
      ensures RecordStep(base.releases[id], mid.releases[id])
    {
      HalfwaySteps(base.releases[id], current.releases[id]);
    }
    forall id | id in mid.releases
      ensures RecordStep(mid.releases[id], current.releases[id])
    {
      if id in base.releases {
        HalfwaySteps(base.releases[id], current.releases[id]);
      }
    }
  }

  /** After a successful update the new ledger still follows from the old base exactly when the release made no jump. */
  lemma UpdateAgainstBase(base: Ledger, current: Ledger, id: string, record: Record)
    requires Evolves(base, current)
    requires Evolves(current, Ledger(current.releases[id := record], current.tombstones))
    ensures var updated := Ledger(current.releases[id := record], current.tombstones);
            && Evolves(base, updated) <==> !Jumps(base, updated, id)
    ensures var updated := Ledger(current.releases[id := record], current.tombstones);
            forall k :: k != id ==> (k in updated.releases <==> k in current.releases)
                                    && (k in current.releases ==> updated.releases[k] == current.releases[k])
  {
    var updated := Ledger(current.releases[id := record], current.tombstones);
    StepsCompose(base, current, updated);
    OnlyTheUpdatedJumps(base, current, updated, id, record);
  }

  lemma OnlyTheUpdatedJumps(base: Ledger, current: Ledger, updated: Ledger, id: string, record: Record)
    requires Evolves(base, current) && updated == Ledger(current.releases[id := record], current.tombstones)
    ensures forall k :: k != id ==> !Jumps(base, updated, k)
  {
    EvolvesNeverJumps(base, current);
    forall k | k != id
      ensures !Jumps(base, updated, k)
    {
      assert !Jumps(base, current, k);
    }
  }
}
