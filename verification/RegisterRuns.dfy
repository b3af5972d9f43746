/** Sequences of accepted registers, and the promotion gate that looks at a whole history. */
module RegisterRuns {
  import opened Wrappers
  import opened RegisterChecks
  import opened RegisterMeaning
  import opened HistorySummary
  import opened HistoryMethods
  import opened ExceptionRegister

  /** A register with the findings of its field checks, and the tombstone file beside it. */
  datatype Version = Version(rows: Register, fields: seq<Finding>, file: seq<Tombstone>)

  // ---------- each version checked against the one before ----------

  predicate AcceptedAfter(versions: seq<Version>, k: nat)
    requires k < |versions|
  {
    var v := versions[k];
    if k == 0 then AcceptedAgainst(v.rows, v.fields, v.file, None, None)
    else AcceptedAgainst(v.rows, v.fields, v.file, Some(versions[k - 1].rows), Some(versions[k - 1].file))
  }

  ghost predicate Chain(versions: seq<Version>) {
    forall k: nat :: k < |versions| ==> AcceptedAfter(versions, k)
  }

  lemma AcceptedFacts(versions: seq<Version>, k: nat)
    requires Chain(versions) && k < |versions|
    ensures RemovedIffTombstoned(versions[k].rows, TombstoneIds(versions[k].file))
    ensures k > 0 ==> TombstoneIds(versions[k - 1].file) <= TombstoneIds(versions[k].file)
  {
    var v := versions[k];
    assert AcceptedAfter(versions, k);
    if k == 0 {
      AcceptedIffConsistent(v.rows, v.fields, v.file, None, None);
    } else {
      AcceptedIffConsistent(v.rows, v.fields, v.file, Some(versions[k - 1].rows), Some(versions[k - 1].file));
    }
  }

  lemma {:induction false} TombstonesGrow(versions: seq<Version>, i: nat, j: nat)
    requires Chain(versions) && i <= j < |versions|
    ensures TombstoneIds(versions[i].file) <= TombstoneIds(versions[j].file)
    decreases j
  {
    if i < j {
      TombstonesGrow(versions, i, j - 1);
      AcceptedFacts(versions, j);
    }
  }

  /** An exception once removed is removed in every later version that still lists it. */
  lemma RemovedStaysRemoved(versions: seq<Version>, i: nat, a: nat, j: nat, b: nat)
    requires Chain(versions) && i <= j < |versions|
    requires a < |versions[i].rows| && versions[i].rows[a].Row? && versions[i].rows[a].status == Removed
    requires b < |versions[j].rows| && versions[j].rows[b].Row? && versions[j].rows[b].id == versions[i].rows[a].id
    ensures versions[j].rows[b].status == Removed
  {
    AcceptedFacts(versions, i);
    AcceptedFacts(versions, j);
    TombstonesGrow(versions, i, j);
  }

  /** The version lists the exception with a readable expiry. */
  predicate ListsDated(v: Version, id: string) {
    RowOf(v.rows, id).Some? && RowOf(v.rows, id).value.expiry.At?
  }

  function DateOf(v: Version, id: string): int
    requires ListsDated(v, id)
  {
    RowOf(v.rows, id).value.expiry.time
  }

  predicate ListsOpen(v: Version, id: string) {
    ListsDated(v, id) && Open(RowOf(v.rows, id).value.status)
  }

  lemma StepKeepsDate(versions: seq<Version>, k: nat, id: string)
    requires Chain(versions) && 0 < k < |versions|
    requires ListsDated(versions[k - 1], id) && ListsOpen(versions[k], id)
    ensures DateOf(versions[k], id) <= DateOf(versions[k - 1], id)
  {
    assert AcceptedAfter(versions, k);
    var v, previous := versions[k], versions[k - 1].rows;
    AcceptedIffConsistent(v.rows, v.fields, v.file, Some(previous), Some(versions[k - 1].file));
    var a :| 0 <= a < |v.rows| && v.rows[a] == RowOf(v.rows, id).value;
    assert !Extended(v.rows[a], previous);
  }

  /** Checked version by version, an exception that stays listed, dated and open never gets a later expiry. */
  lemma {:induction false} ListedDateNeverLater(versions: seq<Version>, i: nat, j: nat, id: string)
    requires Chain(versions) && i <= j < |versions|
    requires ListsDated(versions[i], id)
    requires forall k :: i < k <= j ==> ListsOpen(versions[k], id)
    ensures ListsDated(versions[j], id) && DateOf(versions[j], id) <= DateOf(versions[i], id)
    decreases j
  {
    if i < j {
      ListedDateNeverLater(versions, i, j - 1, id);
      StepKeepsDate(versions, j, id);
    }
  }

  // ---------- the promotion gate ----------

  predicate GatePasses(tip: Version, registers: seq<Option<Register>>, files: seq<Option<seq<Tombstone>>>) {
    AcceptedAgainst(tip.rows, tip.fields, tip.file,
                    Some(Summary(tip.rows, AllRows(registers))), Some(FirstPerId(AllTombstones(files))))
  }

  /** No row is open after an `expired` row of the history, or dated later than a live one. */
  predicate RespectsHistory(tip: Register, rows: seq<Row>) {
    forall k :: 0 <= k < |tip| && tip[k].Row? && Open(tip[k].status) ==>
      && !SawExpired(rows, tip[k].id)
      && (tip[k].expiry.At? ==> !SomeDatedBefore(rows, tip[k].id, tip[k].expiry.time))
  }

  lemma FollowsSummary(tip: Register, rows: seq<Row>)
    requires UniqueIds(tip)
    ensures Follows(tip, Summary(tip, rows)) <==> RespectsHistory(tip, rows)
  {
    var summary := Summary(tip, rows);
    forall k | 0 <= k < |tip|
      ensures (!Revives(tip[k], summary) && !Extended(tip[k], summary) && !Reactivated(tip[k], summary)) <==>
                (tip[k].Row? && Open(tip[k].status) ==>
                  && !SawExpired(rows, tip[k].id)
                  && (tip[k].expiry.At? ==> !SomeDatedBefore(rows, tip[k].id, tip[k].expiry.time)))
    {
      if tip[k].Row? {
        SummaryComparesAll(tip, rows, k);
      }
    }
  }

  predicate FirstSeenSound(rows: seq<Tombstone>) {
    forall k :: 0 <= k < |FirstPerId(rows)| ==> Named(FirstPerId(rows)[k]) && FirstPerId(rows)[k].fieldsOk
  }

  lemma UnionSound(rows: seq<Tombstone>)
    ensures SoundTombstones(FirstPerId(rows)) <==> FirstSeenSound(rows)
  {
    FirstPerIdKeeps(rows);
  }

  /** The gate holds the tip against every register and every tombstone file of the history. */
  lemma GateChecksAllHistory(tip: Version, registers: seq<Option<Register>>, files: seq<Option<seq<Tombstone>>>)
    ensures GatePasses(tip, registers, files) <==>
              && tip.rows != [] && NoErrors(tip.fields) && UniqueIds(tip.rows) && SoundTombstones(tip.file)
              && RemovedIffTombstoned(tip.rows, TombstoneIds(tip.file))
              && FirstSeenSound(AllTombstones(files))
              && TombstoneIds(AllTombstones(files)) <= TombstoneIds(tip.file)
              && RespectsHistory(tip.rows, AllRows(registers))
  {
    var rows, tombstones := AllRows(registers), AllTombstones(files);
    AcceptedIffConsistent(tip.rows, tip.fields, tip.file, Some(Summary(tip.rows, rows)), Some(FirstPerId(tombstones)));
    if UniqueIds(tip.rows) {
      FollowsSummary(tip.rows, rows);
    }
    UnionSound(tombstones);
    UnionKeepsIds(tombstones);
  }

  /** The gate itself: both summaries are built from the history, then the tip is validated against them. */
  method PromoteGate(tip: Version, registers: seq<Option<Register>>, files: seq<Option<seq<Tombstone>>>) returns (passed: bool)
    ensures passed <==> GatePasses(tip, registers, files)
  {
    var base := UnionTombstones(files);
    var previous := EarliestExpiryPreviousRegister(tip.rows, registers);
    var result := ValidateRegister(tip.rows, tip.fields, tip.file, Some(previous), Some(base));
    AcceptedIffConsistent(tip.rows, tip.fields, tip.file, Some(previous), Some(base));
    return NoErrors(result.findings);
  }

  // ---------- runs through the gate ----------

  function Registers(versions: seq<Version>): seq<Option<Register>> {
    seq(|versions|, k requires 0 <= k < |versions| => Some(versions[k].rows))
  }

  function Files(versions: seq<Version>): seq<Option<seq<Tombstone>>> {
    seq(|versions|, k requires 0 <= k < |versions| => Some(versions[k].file))
  }

  predicate GatedAt(versions: seq<Version>, k: nat)
    requires k < |versions|
  {
    GatePasses(versions[k], Registers(versions[..k + 1]), Files(versions[..k + 1]))
  }

  ghost predicate Gated(versions: seq<Version>) {
    forall k: nat :: k < |versions| ==> GatedAt(versions, k)
  }

  lemma {:induction false} RowInHistory(history: seq<Option<Register>>, i: nat, a: nat)
    requires i < |history| && history[i].Some? && a < |history[i].value|
    ensures history[i].value[a] in AllRows(history)
    decreases |history|
  {
    if i < |history| - 1 {
      RowInHistory(history[..|history| - 1], i, a);
    }
  }

  lemma {:induction false} TombstoneInHistory(history: seq<Option<seq<Tombstone>>>, i: nat, id: string)
    requires i < |history| && history[i].Some? && id in TombstoneIds(history[i].value)
    ensures id in TombstoneIds(AllTombstones(history))
    decreases |history|
  {
    var n := |history| - 1;
    var before := AllTombstones(history[..n]);
    if i < n {
      TombstoneInHistory(history[..n], i, id);
      var k :| 0 <= k < |before| && Named(before[k]) && before[k].id == id;
      assert AllTombstones(history)[k] == before[k];
    } else {
      var k :| 0 <= k < |history[n].value| && Named(history[n].value[k]) && history[n].value[k].id == id;
      assert AllTombstones(history)[|before| + k] == history[n].value[k];
    }
  }

  /** In a gated run no exception comes back from `expired`, moves its expiry later, or comes back from `removed`. */
  lemma GatedRunsNeverRelapse(versions: seq<Version>, i: nat, a: nat, j: nat, b: nat)
    requires Gated(versions) && i <= j < |versions|
    requires a < |versions[i].rows| && versions[i].rows[a].Row?
    requires b < |versions[j].rows| && versions[j].rows[b].Row? && versions[j].rows[b].id == versions[i].rows[a].id
    ensures var was, now := versions[i].rows[a], versions[j].rows[b];
            && (was.status == Removed ==> now.status == Removed)
            && (was.status == Expired ==> now.status != Active && now.status != Planned)
            && ((was.status == Active || was.status == Planned) && (now.status == Active || now.status == Planned) ==>
                  (was.expiry.At? && now.expiry.At? ==> now.expiry.time <= was.expiry.time))
  {
    var past := versions[..j + 1];
    var rows := AllRows(Registers(past));
    var was, now := versions[i].rows[a], versions[j].rows[b];
    assert GatedAt(versions, i) && GatedAt(versions, j);
    GateChecksAllHistory(versions[j], Registers(past), Files(past));
    GateChecksAllHistory(versions[i], Registers(versions[..i + 1]), Files(versions[..i + 1]));
    RowInHistory(Registers(past), i, a);
    var k :| 0 <= k < |rows| && rows[k] == was;
    if was.status == Removed {
      TombstoneInHistory(Files(past), i, was.id);
    } else if was.status == Expired {
      assert ExpiredFor(rows[k], now.id);
    }
    if Open(now.status) && now.expiry.At? && Dated(was, now.id) {
      assert !DatedBefore(rows[k], now.id, now.expiry.time);
    }
  }

  // ---------- a date that is dropped ----------

  function OneRow(id: string, expiry: Expiry): Version {
    Version([Row(id, Planned, expiry)], [], [])
  }

  lemma OneRowPasses(id: string, expiry: Expiry, registers: seq<Option<Register>>, files: seq<Option<seq<Tombstone>>>)
    requires AllTombstones(files) == [] && !SawExpired(AllRows(registers), id)
    requires expiry.At? ==> !SomeDatedBefore(AllRows(registers), id, expiry.time)
    ensures GatePasses(OneRow(id, expiry), registers, files)
  {
    var tip := OneRow(id, expiry);
    assert TombstoneIds([]) == {};
    assert RemovedIffTombstoned(tip.rows, {}) && UniqueIds(tip.rows) && SoundTombstones([]) && FirstSeenSound([]);
    assert RespectsHistory(tip.rows, AllRows(registers));
    GateChecksAllHistory(tip, registers, files);
  }

  lemma NoTombstones(a: Version, b: Version)
    requires a.file == [] && b.file == []
    ensures AllTombstones(Files([a])) == [] && AllTombstones(Files([a, b])) == []
  {
    assert Files([a])[..0] == [];
    assert Files([a, b])[..1] == Files([a]);
  }

  lemma RowsSoFar(a: Version, b: Version)
    ensures AllRows(Registers([a])) == a.rows && AllRows(Registers([a, b])) == a.rows + b.rows
  {
    assert Registers([a])[..0] == [];
    assert Registers([a, b])[..1] == Registers([a]);
  }

  lemma PlannedRowsBlameNothing(rows: seq<Row>, id: string, time: int)
    requires forall k :: 0 <= k < |rows| ==> rows[k].Row? && rows[k].status == Planned
    requires forall k :: 0 <= k < |rows| && rows[k].Row? && rows[k].expiry.At? ==> rows[k].expiry.time == time
    ensures !SawExpired(rows, id) && !SomeDatedBefore(rows, id, time)
  {
  }

  lemma GatedPair(a: Version, b: Version)
    requires GatePasses(a, Registers([a]), Files([a])) && GatePasses(b, Registers([a, b]), Files([a, b]))
    ensures Gated([a, b])
  {
    var versions := [a, b];
    assert versions[..1] == [a] && versions[..2] == versions;
    forall k: nat | k < |versions|
      ensures GatedAt(versions, k)
    {
      assert k == 0 || k == 1;
    }
  }

  /** The gate compares dates only with dates: a planned row may drop its expiry altogether. */
  lemma DroppedDatePasses(id: string, time: int)
    ensures Gated([OneRow(id, At(time)), OneRow(id, NoExpiry)])
  {
    var a, b := OneRow(id, At(time)), OneRow(id, NoExpiry);
    NoTombstones(a, b);
    RowsSoFar(a, b);
    PlannedRowsBlameNothing(a.rows, id, time);
    PlannedRowsBlameNothing(a.rows + b.rows, id, time);
    OneRowPasses(id, At(time), Registers([a]), Files([a]));
    OneRowPasses(id, NoExpiry, Registers([a, b]), Files([a, b]));
    GatedPair(a, b);
  }
}
