/** The register checks in terms of rows, statuses and dates, without any of the tests that the checks use. */
module RegisterReading {
  import opened Wrappers
  import opened RegisterChecks
  import opened RegisterMeaning
  import opened ExceptionIds

  // ---------- tombstone files ----------

  /** Every row has a proper id of its own and proper fields. */
  ghost predicate ProperFile(file: seq<Tombstone>) {
    && (forall k :: 0 <= k < |file| ==> file[k].Tombstone? && ProperId(file[k].id) && file[k].fieldsOk)
    && (forall i, j :: 0 <= i < j < |file| ==> !SameTombstone(file[i], file[j]))
  }

  predicate SameTombstone(a: Tombstone, b: Tombstone) {
    a.Tombstone? && b.Tombstone? && a.id == b.id
  }

  ghost predicate Buried(file: seq<Tombstone>, id: string) {
    ProperId(id) && exists k :: 0 <= k < |file| && file[k].Tombstone? && file[k].id == id
  }

  lemma BuriedMeans(file: seq<Tombstone>, id: string)
    ensures id in TombstoneIds(file) <==> Buried(file, id)
  {
    IdMeans(id);
    if Buried(file, id) {
      var k :| 0 <= k < |file| && file[k].Tombstone? && file[k].id == id;
      assert Named(file[k]);
    }
  }

  lemma ProperFileMeans(file: seq<Tombstone>)
    ensures SoundTombstones(file) <==> ProperFile(file)
  {
    forall k | 0 <= k < |file| && file[k].Tombstone?
      ensures Named(file[k]) <==> ProperId(file[k].id)
    {
      IdMeans(file[k].id);
    }
  }

  // ---------- rows ----------

  ghost predicate DistinctIds(rows: seq<Row>) {
    forall i, j :: 0 <= i < j < |rows| && rows[i].Row? && rows[j].Row? ==> rows[i].id != rows[j].id
  }

  /** Removed rows, and no others, are buried. */
  ghost predicate RemovedAreBuried(rows: seq<Row>, file: seq<Tombstone>) {
    forall k :: 0 <= k < |rows| && rows[k].Row? ==> (rows[k].status == Removed <==> Buried(file, rows[k].id))
  }

  /** The last row with this id. */
  predicate LastRow(rows: seq<Row>, id: string, p: nat) {
    p < |rows| && rows[p].Row? && rows[p].id == id && forall q :: p < q < |rows| ==> !(rows[q].Row? && rows[q].id == id)
  }

  lemma {:induction false} RowOfMeans(rows: seq<Row>, id: string, p: nat)
    requires LastRow(rows, id, p)
    ensures RowOf(rows, id) == Some(rows[p])
    decreases |rows|
  {
    var n := |rows| - 1;
    if p < n {
      assert rows[n] == rows[n];
      RowOfMeans(rows[..n], id, p);
    }
  }

  lemma {:induction false} HasLastRow(rows: seq<Row>, id: string) returns (p: nat)
    requires RowOf(rows, id).Some?
    ensures LastRow(rows, id, p) && RowOf(rows, id) == Some(rows[p])
    decreases |rows|
  {
    var n := |rows| - 1;
    if rows[n].Row? && rows[n].id == id {
      p := n;
    } else {
      p := HasLastRow(rows[..n], id);
    }
  }

  /** What may follow a row: nothing returns from removed or expired, and no date of an open row moves later. */
  predicate MayFollow(was: Row, now: Row)
    requires was.Row? && now.Row?
  {
    && (was.status == Removed ==> now.status != Active && now.status != Planned && now.status != Expired)
    && (was.status == Expired ==> now.status != Active && now.status != Planned)
    && ((now.status == Active || now.status == Planned) && was.expiry.At? && now.expiry.At? ==>
          now.expiry.time <= was.expiry.time)
  }

  ghost predicate MayFollowAll(rows: seq<Row>, previous: seq<Row>) {
    forall k: nat, p: nat :: k < |rows| && rows[k].Row? && LastRow(previous, rows[k].id, p) ==> MayFollow(previous[p], rows[k])
  }

  lemma RowFollows(row: Row, previous: seq<Row>)
    ensures (!Revives(row, previous) && !Extended(row, previous) && !Reactivated(row, previous)) <==>
              (row.Row? ==> forall p: nat :: LastRow(previous, row.id, p) ==> MayFollow(previous[p], row))
  {
    if row.Row? {
      forall p: nat | LastRow(previous, row.id, p)
        ensures RowOf(previous, row.id) == Some(previous[p])
      {
        RowOfMeans(previous, row.id, p);
      }
      if RowOf(previous, row.id).Some? {
        var p := HasLastRow(previous, row.id);
      }
    }
  }

  lemma FollowsMeans(rows: seq<Row>, previous: seq<Row>)
    ensures Follows(rows, previous) <==> MayFollowAll(rows, previous)
  {
    forall k: nat | k < |rows|
      ensures (!Revives(rows[k], previous) && !Extended(rows[k], previous) && !Reactivated(rows[k], previous)) <==>
                (rows[k].Row? ==> forall p: nat :: LastRow(previous, rows[k].id, p) ==> MayFollow(previous[p], rows[k]))
    {
      RowFollows(rows[k], previous);
    }
  }

  lemma RemovedMeans(rows: seq<Row>, file: seq<Tombstone>)
    ensures RemovedIffTombstoned(rows, TombstoneIds(file)) <==> RemovedAreBuried(rows, file)
  {
    forall k | 0 <= k < |rows| && rows[k].Row?
      ensures rows[k].id in TombstoneIds(file) <==> Buried(file, rows[k].id)
    {
      BuriedMeans(file, rows[k].id);
    }
  }

  ghost predicate KeepsBuried(base: seq<Tombstone>, file: seq<Tombstone>) {
    forall id :: Buried(base, id) ==> Buried(file, id)
  }

  lemma KeepsMeans(base: seq<Tombstone>, file: seq<Tombstone>)
    ensures TombstoneIds(base) <= TombstoneIds(file) <==> KeepsBuried(base, file)
  {
    forall id
      ensures id in TombstoneIds(base) <==> Buried(base, id)
      ensures id in TombstoneIds(file) <==> Buried(file, id)
    {
      BuriedMeans(base, id);
      BuriedMeans(file, id);
    }
  }

  /** The register, its tombstones, the base and the predecessor fit together. */
  ghost predicate Fits(rows: Register, file: seq<Tombstone>, previous: Option<Register>, base: Option<seq<Tombstone>>) {
    && DistinctIds(rows) && ProperFile(file) && RemovedAreBuried(rows, file)
    && (base.Some? ==> ProperFile(base.value) && KeepsBuried(base.value, file))
    && (previous.Some? ==> MayFollowAll(rows, previous.value))
  }

  lemma ConsistentMeans(rows: Register, file: seq<Tombstone>, previous: Option<Register>, base: Option<seq<Tombstone>>)
    ensures Consistent(rows, file, previous, base) <==> Fits(rows, file, previous, base)
  {
    ProperFileMeans(file);
    RemovedMeans(rows, file);
    if base.Some? {
      ProperFileMeans(base.value);
      KeepsMeans(base.value, file);
    }
    if previous.Some? {
      FollowsMeans(rows, previous.value);
    }
    assert UniqueIds(rows) <==> DistinctIds(rows);
  }

  ghost predicate Faultless(findings: seq<Finding>) {
    forall f :: f in findings ==> f.isError == false
  }

  /** The validator reports no error exactly when the register is not empty, its rows pass the field checks and all fits together. */
  lemma AcceptedIffFits(rows: Register, fields: seq<Finding>, file: seq<Tombstone>,
                        previous: Option<Register>, base: Option<seq<Tombstone>>)
    ensures AcceptedAgainst(rows, fields, file, previous, base) <==>
              |rows| > 0 && Faultless(fields) && Fits(rows, file, previous, base)
  {
    AcceptedIffConsistent(rows, fields, file, previous, base);
    ConsistentMeans(rows, file, previous, base);
    FaultlessMeans(fields);
  }

  lemma FaultlessMeans(findings: seq<Finding>)
    ensures NoErrors(findings) <==> Faultless(findings)
  {
    if NoErrors(findings) {
      forall f | f in findings
        ensures f.isError == false
      {
        var k :| 0 <= k < |findings| && findings[k] == f;
      }
    }
  }

  // ---------- which error is reported for which row ----------

  /** Some row with this id has a fault of this kind. */
  ghost predicate RowFault(code: Code, id: string, rows: Register, file: seq<Tombstone>, previous: Option<Register>) {
    exists k :: 0 <= k < |rows| && rows[k].Row? && rows[k].id == id && FaultOf(code, rows[k], file, previous)
  }

  ghost predicate WasRemoved(previous: Register, id: string) {
    exists p: nat :: LastRow(previous, id, p) && previous[p].status == Removed
  }

  ghost predicate FaultOf(code: Code, row: Row, file: seq<Tombstone>, previous: Option<Register>)
    requires row.Row?
  {
    match code
    case MissingTombstone => row.status == Removed && !Buried(file, row.id)
    case Resurrection =>
      || (row.status != Removed && Buried(file, row.id))
      || (previous.Some? && (row.status == Active || row.status == Planned || row.status == Expired)
          && WasRemoved(previous.value, row.id))
    case ExpirySelfExtension =>
      && previous.Some? && (row.status == Active || row.status == Planned) && row.expiry.At?
      && exists p: nat :: LastRow(previous.value, row.id, p) && previous.value[p].expiry.At?
                          && row.expiry.time > previous.value[p].expiry.time
    case ExpiredReactivation =>
      && previous.Some? && (row.status == Active || row.status == Planned)
      && exists p: nat :: LastRow(previous.value, row.id, p) && previous.value[p].status == Expired
    case _ => false
  }

  lemma LastRowIs(rows: seq<Row>, id: string)
    ensures forall p: nat :: LastRow(rows, id, p) ==> RowOf(rows, id) == Some(rows[p])
    ensures RowOf(rows, id).Some? ==> exists p: nat :: LastRow(rows, id, p)
  {
    forall p: nat | LastRow(rows, id, p)
      ensures RowOf(rows, id) == Some(rows[p])
    {
      RowOfMeans(rows, id, p);
    }
    if RowOf(rows, id).Some? {
      var p := HasLastRow(rows, id);
    }
  }

  /** What the check on the register's own tombstones reports for a row. */
  predicate OwnFinding(f: Finding, row: Row, tombstoned: set<string>) {
    f in TombstoneRowFindings(row, tombstoned)
  }

  /** What the checks against the predecessor report for a row. */
  predicate PreviousFinding(f: Finding, row: Row, previous: Register, tombstoned: set<string>) {
    || f in ResurrectionRowFindings(row, previous, tombstoned)
    || f in ExtensionRowFindings(row, previous)
    || f in ReactivationRowFindings(row, previous)
  }

  predicate RowCode(code: Code) {
    code.MissingTombstone? || code.Resurrection? || code.ExpirySelfExtension? || code.ExpiredReactivation?
  }

  lemma OwnFindingMeans(code: Code, id: string, row: Row, file: seq<Tombstone>)
    requires RowCode(code)
    ensures OwnFinding(ErrorFor(code, id), row, TombstoneIds(file)) <==>
              row.Row? && row.id == id && FaultOf(code, row, file, None)
  {
    if row.Row? {
      BuriedMeans(file, row.id);
    }
  }

  lemma ResurrectionMeans(f: Finding, row: Row, file: seq<Tombstone>, previous: Register)
    ensures f in ResurrectionRowFindings(row, previous, TombstoneIds(file)) <==>
              && row.Row? && f == ErrorFor(Resurrection, row.id)
              && (row.status == Active || row.status == Planned || row.status == Expired)
              && (Buried(file, row.id) || WasRemoved(previous, row.id))
  {
    if row.Row? {
      BuriedMeans(file, row.id);
      LastRowIs(previous, row.id);
    }
  }

  lemma ExtensionMeans(f: Finding, row: Row, file: seq<Tombstone>, previous: Register)
    ensures f in ExtensionRowFindings(row, previous) <==>
              row.Row? && f == ErrorFor(ExpirySelfExtension, row.id) && FaultOf(ExpirySelfExtension, row, file, Some(previous))
  {
    if row.Row? {
      LastRowIs(previous, row.id);
    }
  }

  lemma ReactivationMeans(f: Finding, row: Row, file: seq<Tombstone>, previous: Register)
    ensures f in ReactivationRowFindings(row, previous) <==>
              row.Row? && f == ErrorFor(ExpiredReactivation, row.id) && FaultOf(ExpiredReactivation, row, file, Some(previous))
  {
    if row.Row? {
      LastRowIs(previous, row.id);
    }
  }

  lemma PreviousFindingMeans(code: Code, id: string, row: Row, file: seq<Tombstone>, previous: Register)
    requires RowCode(code)
    ensures OwnFinding(ErrorFor(code, id), row, TombstoneIds(file)) || PreviousFinding(ErrorFor(code, id), row, previous, TombstoneIds(file)) <==>
              row.Row? && row.id == id && FaultOf(code, row, file, Some(previous))
  {
    var f := ErrorFor(code, id);
    OwnFindingMeans(code, id, row, file);
    ResurrectionMeans(f, row, file, previous);
    ExtensionMeans(f, row, file, previous);
    ReactivationMeans(f, row, file, previous);
  }

  lemma {:induction false} FileFindingsCodes(file: seq<Tombstone>, f: Finding)
    requires f in TombstoneFindings(file)
    ensures f.code.TombstoneId? || f.code.TombstoneDuplicate? || f.code.TombstoneFields?
    decreases |file|
  {
    if file != [] {
      var n := |file| - 1;
      if f in TombstoneFindings(file[..n]) {
        FileFindingsCodes(file[..n], f);
      }
    }
  }

  lemma OwnFindingsMean(rows: Register, file: seq<Tombstone>, code: Code, id: string)
    requires RowCode(code)
    ensures ErrorFor(code, id) in OwnFindings(rows, file) <==>
              exists k :: 0 <= k < |rows| && OwnFinding(ErrorFor(code, id), rows[k], TombstoneIds(file))
  {
    var f, tombstoned := ErrorFor(code, id), TombstoneIds(file);
    CollectExact(rows, row => TombstoneRowFindings(row, tombstoned), f);
    if f in TombstoneFindings(file) {
      FileFindingsCodes(file, f);
    }
  }

  lemma BaseFindingsCodes(base: Option<seq<Tombstone>>, tombstoned: set<string>, f: Finding)
    requires RowCode(f.code)
    ensures f !in BaseFindings(base, tombstoned)
  {
    if base.Some? && f in TombstoneFindings(base.value) {
      FileFindingsCodes(base.value, f);
    }
  }

  lemma PreviousFindingsMean(rows: Register, previous: Register, tombstoned: set<string>, f: Finding)
    ensures f in PreviousFindings(rows, Some(previous), tombstoned) <==>
              exists k :: 0 <= k < |rows| && PreviousFinding(f, rows[k], previous, tombstoned)
  {
    CollectExact(rows, row => ResurrectionRowFindings(row, previous, tombstoned), f);
    CollectExact(rows, row => ExtensionRowFindings(row, previous), f);
    CollectExact(rows, row => ReactivationRowFindings(row, previous), f);
  }

  /** An error is reported for an id exactly when some row with that id has the fault it names. */
  lemma ErrorsMean(code: Code, id: string, rows: Register, file: seq<Tombstone>,
                   previous: Option<Register>, base: Option<seq<Tombstone>>)
    requires RowCode(code)
    ensures ErrorFor(code, id) in LinkFindings(rows, file, previous, base) <==> RowFault(code, id, rows, file, previous)
  {
    var f, tombstoned := ErrorFor(code, id), TombstoneIds(file);
    OwnFindingsMean(rows, file, code, id);
    BaseFindingsCodes(base, tombstoned, f);
    if previous.Some? {
      PreviousFindingsMean(rows, previous.value, tombstoned, f);
    }
    forall k | 0 <= k < |rows|
      ensures (OwnFinding(f, rows[k], tombstoned) || (previous.Some? && PreviousFinding(f, rows[k], previous.value, tombstoned))) <==>
                rows[k].Row? && rows[k].id == id && FaultOf(code, rows[k], file, previous)
    {
      if previous.Some? {
        PreviousFindingMeans(code, id, rows[k], file, previous.value);
      } else {
        OwnFindingMeans(code, id, rows[k], file);
      }
    }
  }

  // ---------- which error is reported for a file ----------

  ghost predicate ProperRow(row: Tombstone) {
    row.Tombstone? && ProperId(row.id)
  }

  lemma NamedMeans(row: Tombstone)
    ensures Named(row) <==> ProperRow(row)
  {
    if row.Tombstone? {
      IdMeans(row.id);
    }
  }

  /** The fault of a tombstone file that an error names. */
  ghost predicate FileFault(f: Finding, file: seq<Tombstone>) {
    match f.code
    case TombstoneId => f == Finding(true, TombstoneId, None) && exists k :: 0 <= k < |file| && !ProperRow(file[k])
    case TombstoneDuplicate =>
      && f == Finding(true, TombstoneDuplicate, None)
      && exists j :: 0 <= j < |file| && ProperRow(file[j]) && Buried(file[..j], file[j].id)
    case TombstoneFields =>
      exists k :: 0 <= k < |file| && ProperRow(file[k]) && !file[k].fieldsOk && f == ErrorFor(TombstoneFields, file[k].id)
    case _ => false
  }

  lemma LastFileFault(f: Finding, file: seq<Tombstone>)
    requires file != []
    ensures var n := |file| - 1;
            f in LastFindings(file[..n], file[n]) <==>
              || (f == Finding(true, TombstoneId, None) && !ProperRow(file[n]))
              || (f == Finding(true, TombstoneDuplicate, None) && ProperRow(file[n]) && Buried(file[..n], file[n].id))
              || (ProperRow(file[n]) && !file[n].fieldsOk && f == ErrorFor(TombstoneFields, file[n].id))
  {
    var n := |file| - 1;
    NamedMeans(file[n]);
    if file[n].Tombstone? {
      BuriedMeans(file[..n], file[n].id);
    }
  }

  lemma FileFaultStep(f: Finding, file: seq<Tombstone>)
    requires file != []
    ensures var n := |file| - 1;
            FileFault(f, file) <==>
              || FileFault(f, file[..n])
              || (f == Finding(true, TombstoneId, None) && !ProperRow(file[n]))
              || (f == Finding(true, TombstoneDuplicate, None) && ProperRow(file[n]) && Buried(file[..n], file[n].id))
              || (ProperRow(file[n]) && !file[n].fieldsOk && f == ErrorFor(TombstoneFields, file[n].id))
  {
    var n := |file| - 1;
    assert forall k :: 0 <= k < n ==> file[..n][k] == file[k];
    assert forall j :: 0 <= j < n ==> file[..n][..j] == file[..j];
  }

  /** An error is reported for a tombstone file exactly when the file has the fault it names. */
  lemma {:induction false} FileErrorsMean(f: Finding, file: seq<Tombstone>)
    ensures f in TombstoneFindings(file) <==> FileFault(f, file)
    decreases |file|
  {
    if file != [] {
      var n := |file| - 1;
      FileErrorsMean(f, file[..n]);
      LastFileFault(f, file);
      FileFaultStep(f, file);
      assert TombstoneFindings(file) == TombstoneFindings(file[..n]) + LastFindings(file[..n], file[n]);
    }
  }
}
