/** What a configuration sync that restores stale register rows would produce, and whether it is safe. */
module SyncRestore {
  import opened Wrappers
  import opened RegisterChecks
  import opened RegisterMeaning
  import opened ExceptionRegister
  import opened RegisterReading

  /** A dictionary in insertion order: a known id keeps its place, a new one goes to the end. */
  function Put(table: seq<Row>, row: Row): seq<Row>
    requires row.Row?
  {
    if table == [] then [row]
    else if table[0].Row? && table[0].id == row.id then [row] + table[1..]
    else [table[0]] + Put(table[1..], row)
  }

  function PutAll(table: seq<Row>, rows: seq<Row>): seq<Row> {
    if rows == [] then table
    else
      var before, last := PutAll(table, rows[..|rows| - 1]), rows[|rows| - 1];
      if last.Row? then Put(before, last) else before
  }

  /** The rows of the current register, each overridden by the stale row of its id, then the ids only the stale one has. */
  function Merged(current: Register, stale: Register): seq<Row> {
    PutAll(PutAll([], current), stale)
  }

  predicate Keyed(table: seq<Row>) {
    UniqueIds(table) && forall k :: 0 <= k < |table| ==> table[k].Row?
  }

  lemma {:induction false} PutKeeps(table: seq<Row>, row: Row)
    requires Keyed(table) && row.Row?
    ensures Keyed(Put(table, row))
    ensures row in Put(table, row)
    ensures forall x :: x in Put(table, row) ==> x == row || (x in table && x.id != row.id)
    ensures forall x :: x in table && x.id != row.id ==> x in Put(table, row)
    decreases |table|
  {
    if table != [] {
      var first, rest := table[0], table[1..];
      assert table == [first] + rest;
      if first.id == row.id {
        assert forall x :: x in rest ==> x.id != row.id;
      } else {
        PutKeeps(rest, row);
        KeyedCons(first, Put(rest, row));
      }
    }
  }

  lemma KeyedCons(first: Row, rest: seq<Row>)
    requires first.Row? && Keyed(rest) && forall x :: x in rest ==> x.Row? && x.id != first.id
    ensures Keyed([first] + rest)
  {
    var table := [first] + rest;
    forall i, j | 0 <= i < j < |table|
      ensures table[i].id != table[j].id
    {
      assert table[j] == rest[j - 1];
      if i > 0 {
        assert table[i] == rest[i - 1];
      }
    }
  }

  /** The table after the loop: keyed by id, holding the last stored row of every id. */
  lemma {:induction false} PutAllHolds(table: seq<Row>, rows: seq<Row>)
    requires Keyed(table)
    ensures Keyed(PutAll(table, rows))
    ensures forall x: Row :: x in PutAll(table, rows) <==>
              x.Row? && (RowOf(rows, x.id) == Some(x) || (RowOf(rows, x.id).None? && x in table))
    decreases |rows|
  {
    if rows != [] {
      var init, last := rows[..|rows| - 1], rows[|rows| - 1];
      PutAllHolds(table, init);
      if last.Row? {
        PutKeeps(PutAll(table, init), last);
      }
    }
  }

  /** The merged register holds the stale row of every id the stale register has, and the current row of every other. */
  lemma MergedHolds(current: Register, stale: Register)
    ensures Keyed(Merged(current, stale))
    ensures forall x: Row :: x in Merged(current, stale) <==>
              x.Row? && (RowOf(stale, x.id) == Some(x) || (RowOf(stale, x.id).None? && RowOf(current, x.id) == Some(x)))
  {
    PutAllHolds([], current);
    PutAllHolds(PutAll([], current), stale);
  }

  /** The row is the last of its id in the stale register or, where that has none, in the current one. */
  ghost predicate Restored(row: Row, current: Register, stale: Register) {
    && row.Row?
    && (|| (exists p: nat :: LastRow(stale, row.id, p) && stale[p] == row)
        || ((forall k :: 0 <= k < |stale| ==> !(stale[k].Row? && stale[k].id == row.id))
            && exists p: nat :: LastRow(current, row.id, p) && current[p] == row))
  }

  /** The merged register holds exactly the restored rows. */
  lemma MergedMeans(current: Register, stale: Register, row: Row)
    ensures row in Merged(current, stale) <==> Restored(row, current, stale)
  {
    MergedHolds(current, stale);
    if row.Row? {
      LastRowIs(stale, row.id);
      LastRowIs(current, row.id);
    }
  }

  predicate RestoredFor(row: Row, tombstoned: set<string>) {
    row.Row? && row.id in tombstoned && row.status != Removed
  }

  /** No live row of the merged register has a tombstoned id or an id the current register has removed. */
  predicate MergeIsSafe(current: Register, merged: Register, tombstoned: set<string>) {
    forall k :: 0 <= k < |merged| ==>
      && !RestoredFor(merged[k], tombstoned)
      && !Revives(merged[k], current)
  }

  /** No row the stale register would restore is tombstoned and not removed. */
  predicate StaleIsSafe(stale: Register, tombstoned: set<string>) {
    forall k :: 0 <= k < |stale| ==> !RestoredFor(stale[k], tombstoned)
  }

  /** On registers that passed their own checks it is enough to look at the stale rows. */
  lemma SafeIffStaleIsSafe(current: Register, stale: Register, tombstoned: set<string>)
    requires RemovedIffTombstoned(current, tombstoned)
    requires UniqueIds(stale)
    ensures MergeIsSafe(current, Merged(current, stale), tombstoned) <==> StaleIsSafe(stale, tombstoned)
  {
    var merged := Merged(current, stale);
    MergedHolds(current, stale);
    if MergeIsSafe(current, merged, tombstoned) {
      forall k | 0 <= k < |stale|
        ensures !RestoredFor(stale[k], tombstoned)
      {
        if stale[k].Row? {
          RowOfUnique(stale, k);
          assert stale[k] in merged;
        }
      }
    }
    if StaleIsSafe(stale, tombstoned) {
      forall k | 0 <= k < |merged|
        ensures !RestoredFor(merged[k], tombstoned) && !Revives(merged[k], current)
      {
        assert merged[k] in merged;
        RemovedRowOf(current, tombstoned, merged[k].id);
        if RowOf(stale, merged[k].id).Some? {
          assert merged[k] in stale;
        }
      }
    }
  }

  lemma RemovedRowOf(rows: Register, tombstoned: set<string>, id: string)
    requires RemovedIffTombstoned(rows, tombstoned)
    ensures RowOf(rows, id).Some? ==> (RowOf(rows, id).value.status == Removed <==> id in tombstoned)
  {
    if RowOf(rows, id).Some? {
      var k :| 0 <= k < |rows| && rows[k] == RowOf(rows, id).value;
    }
  }

  /** No row of the stale register is buried unless it is removed. */
  ghost predicate RestoresNoneBuried(stale: Register, file: seq<Tombstone>) {
    forall k :: 0 <= k < |stale| && stale[k].Row? && Buried(file, stale[k].id) ==> stale[k].status == Removed
  }

  lemma StaleIsSafeMeans(stale: Register, file: seq<Tombstone>)
    ensures StaleIsSafe(stale, TombstoneIds(file)) <==> RestoresNoneBuried(stale, file)
  {
    forall k | 0 <= k < |stale| && stale[k].Row?
      ensures stale[k].id in TombstoneIds(file) <==> Buried(file, stale[k].id)
    {
      BuriedMeans(file, stale[k].id);
    }
  }

  /** After the restore no row that is not removed is buried, and none that the current register removed is back. */
  ghost predicate NothingRevived(current: Register, stale: Register, file: seq<Tombstone>) {
    forall row :: Restored(row, current, stale) ==>
      && (Buried(file, row.id) ==> row.status == Removed)
      && forall p: nat :: LastRow(current, row.id, p) && current[p].status == Removed ==>
           row.status != Active && row.status != Planned && row.status != Expired
  }

  lemma SafeMeans(current: Register, stale: Register, file: seq<Tombstone>)
    requires MergeIsSafe(current, Merged(current, stale), TombstoneIds(file))
    ensures NothingRevived(current, stale, file)
  {
    var merged := Merged(current, stale);
    forall row | Restored(row, current, stale)
      ensures Buried(file, row.id) ==> row.status == Removed
      ensures forall p: nat :: LastRow(current, row.id, p) && current[p].status == Removed ==>
                row.status != Active && row.status != Planned && row.status != Expired
    {
      MergedMeans(current, stale, row);
      var k :| 0 <= k < |merged| && merged[k] == row;
      BuriedMeans(file, row.id);
      LastRowIs(current, row.id);
    }
  }

  // ---------- the simulation ----------

  method MergeRows(current: Register, stale: Register) returns (merged: Register)
    ensures merged == Merged(current, stale)
  {
    merged := [];
    assert current[..|current|] == current && stale[..|stale|] == stale;
    for i := 0 to |current|
      invariant merged == PutAll([], current[..i])
    {
      assert current[..i + 1][..i] == current[..i];
      if current[i].Row? {
        merged := Put(merged, current[i]);
      }
    }
    for i := 0 to |stale|
      invariant merged == PutAll(PutAll([], current), stale[..i])
    {
      assert stale[..i + 1][..i] == stale[..i];
      if stale[i].Row? {
        merged := Put(merged, stale[i]);
      }
    }
  }

  /** The field checks have codes of their own. */
  predicate FieldFindings(findings: seq<Finding>) {
    forall k :: 0 <= k < |findings| ==> findings[k].code.FieldCheck?
  }

  /** Without tombstones, the only other finding about a register on its own is a duplicated id. */
  lemma StaleLinks(stale: Register, f: Finding)
    ensures f in LinkFindings(stale, [], None, None) && f.code != MissingTombstone <==> f in DuplicateFindings(stale)
  {
    var check := row => TombstoneRowFindings(row, {});
    CollectExact(stale, check, f);
    assert TombstoneIds([]) == {};
    assert LinkFindings(stale, [], None, None) == DuplicateFindings(stale) + Collect(stale, check);
  }

  /** What a stale register is blamed for. */
  function StaleFindings(stale: Register, fields: seq<Finding>): seq<Finding> {
    if stale == [] then [Finding(true, NoExceptions, None)] else fields + DuplicateFindings(stale)
  }

  function Remapped(findings: seq<Finding>): (r: seq<Finding>)
    ensures |r| == |findings| && forall i :: 0 <= i < |r| ==> r[i] == findings[i].(code := Stale(findings[i].code))
  {
    seq(|findings|, i requires 0 <= i < |findings| => findings[i].(code := Stale(findings[i].code)))
  }

  lemma StaleKept(stale: Register, fields: seq<Finding>, found: seq<Finding>, f: Finding)
    requires FieldFindings(fields)
    requires stale == [] ==> found == [Finding(true, NoExceptions, None)]
    requires stale != [] ==> forall f :: f in found <==> f in fields + LinkFindings(stale, [], None, None)
    ensures f in found && f.code != MissingTombstone <==> f in StaleFindings(stale, fields)
  {
    StaleLinks(stale, f);
    if stale == [] {
      assert found[0] in found;
    } else if f in fields {
      assert f.code.FieldCheck?;
    }
  }

  lemma StaleClean(stale: Register, fields: seq<Finding>, kept: seq<Finding>)
    requires StaleReport(stale, fields, kept)
    ensures NoErrors(Remapped(kept)) <==> stale != [] && NoErrors(fields) && UniqueIds(stale)
  {
    SameErrors(kept, StaleFindings(stale, fields));
    NoErrorsConcat(fields, DuplicateFindings(stale));
    OnlyErrors(DuplicateFindings(stale));
    OnlyErrors([Finding(true, NoExceptions, None)]);
    assert NoErrors(Remapped(kept)) <==> NoErrors(kept) by {
      assert forall i :: 0 <= i < |kept| ==> Remapped(kept)[i].isError == kept[i].isError;
    }
  }

  method WithoutMissing(found: seq<Finding>) returns (kept: seq<Finding>)
    ensures forall f :: f in kept <==> f in found && f.code != MissingTombstone
  {
    kept := [];
    for i := 0 to |found|
      invariant forall f :: f in kept <==> f in found[..i] && f.code != MissingTombstone
    {
      assert found[..i + 1] == found[..i] + [found[i]];
      if found[i].code != MissingTombstone {
        kept := kept + [found[i]];
      }
    }
    assert found[..|found|] == found;
  }

  /** The findings are those of the stale register, in some order and once each, under stale codes. */
  ghost predicate StaleReport(stale: Register, fields: seq<Finding>, kept: seq<Finding>) {
    forall f :: f in kept <==> f in StaleFindings(stale, fields)
  }

  lemma KeptIsReport(stale: Register, fields: seq<Finding>, found: seq<Finding>, kept: seq<Finding>)
    requires FieldFindings(fields)
    requires stale == [] ==> found == [Finding(true, NoExceptions, None)]
    requires stale != [] ==> forall f :: f in found <==> f in fields + LinkFindings(stale, [], None, None)
    requires forall f :: f in kept <==> f in found && f.code != MissingTombstone
    ensures StaleReport(stale, fields, kept)
  {
    forall f
      ensures f in kept <==> f in StaleFindings(stale, fields)
    {
      StaleKept(stale, fields, found, f);
    }
  }

  /** `validate_stale_register`: the register's own findings under stale codes, without the demand for tombstones. */
  method ValidateStale(stale: Register, fields: seq<Finding>, result: ValidationResult)
    requires FieldFindings(fields)
    modifies result
    ensures exists kept :: StaleReport(stale, fields, kept) && result.findings == old(result.findings) + Remapped(kept)
    ensures NoErrors(result.findings) <==>
              NoErrors(old(result.findings)) && stale != [] && NoErrors(fields) && UniqueIds(stale)
  {
    var historical := ValidateRegister(stale, fields, [], None, None);
    var kept := WithoutMissing(historical.findings);
    KeptIsReport(stale, fields, historical.findings, kept);
    result.Extend(Remapped(kept));
    NoErrorsConcat(old(result.findings), Remapped(kept));
    StaleClean(stale, fields, kept);
  }

  function RestoredFindings(row: Row, tombstoned: set<string>): seq<Finding> {
    if RestoredFor(row, tombstoned) then [ErrorFor(Resurrection, row.id)] else []
  }

  method CheckRestored(merged: Register, tombstoned: set<string>, result: ValidationResult)
    modifies result
    ensures result.findings == old(result.findings) + Collect(merged, row => RestoredFindings(row, tombstoned))
  {
    ghost var check := row => RestoredFindings(row, tombstoned);
    assert merged[..|merged|] == merged;
    for i := 0 to |merged|
      invariant result.findings == old(result.findings) + Collect(merged[..i], check)
    {
      CollectStep(merged, check, i);
      if RestoredFor(merged[i], tombstoned) {
        result.Error(Resurrection, Some(merged[i].id));
      }
    }
  }

  lemma MergeClean(current: Register, merged: Register, tombstoned: set<string>)
    ensures NoErrors(Collect(merged, row => ResurrectionRowFindings(row, current, tombstoned))
                     + Collect(merged, row => RestoredFindings(row, tombstoned))) <==>
              MergeIsSafe(current, merged, tombstoned)
  {
    var revived := row => ResurrectionRowFindings(row, current, tombstoned);
    var restored := row => RestoredFindings(row, tombstoned);
    NoErrorsConcat(Collect(merged, revived), Collect(merged, restored));
    CollectClean(merged, revived);
    CollectClean(merged, restored);
    forall k | 0 <= k < |merged|
      ensures (NoErrors(revived(merged[k])) && NoErrors(restored(merged[k]))) <==>
                !RestoredFor(merged[k], tombstoned) && !Revives(merged[k], current)
    {
      OnlyErrors(revived(merged[k]));
      OnlyErrors(restored(merged[k]));
    }
  }

  /** The two passes over the merged register. */
  method CheckMerged(current: Register, merged: Register, file: seq<Tombstone>, result: ValidationResult)
    requires SoundTombstones(file)
    modifies result
    ensures NoErrors(result.findings) <==>
              NoErrors(old(result.findings)) && MergeIsSafe(current, merged, TombstoneIds(file))
  {
    ghost var before := result.findings;
    var tombstoned := ValidateTombstones(file, result);
    TombstonesClean(file);
    NoErrorsConcat(before, TombstoneFindings(file));
    ghost var start := result.findings;
    CheckAntiResurrection(current, merged, tombstoned, result);
    CheckRestored(merged, tombstoned, result);
    ghost var a := Collect(merged, row => ResurrectionRowFindings(row, current, tombstoned));
    ghost var b := Collect(merged, row => RestoredFindings(row, tombstoned));
    assert result.findings == start + (a + b);
    NoErrorsConcat(start, a + b);
    MergeClean(current, merged, tombstoned);
  }

  /**
    * `simulate_config_sync_restore`. It reports no error exactly when both registers stand on their own
    * and no stale row would bring a tombstoned exception back.
    */
  method SimulateConfigSyncRestore(current: Register, currentFields: seq<Finding>,
                                   stale: Register, staleFields: seq<Finding>, file: seq<Tombstone>)
    returns (safe: bool)
    requires FieldFindings(staleFields)
    ensures safe <==>
              && current != [] && NoErrors(currentFields) && Consistent(current, file, None, None)
              && stale != [] && NoErrors(staleFields) && UniqueIds(stale)
              && StaleIsSafe(stale, TombstoneIds(file))
    ensures safe ==> MergeIsSafe(current, Merged(current, stale), TombstoneIds(file))
    ensures safe <==>
              && |current| > 0 && Faultless(currentFields) && Fits(current, file, None, None)
              && |stale| > 0 && Faultless(staleFields) && DistinctIds(stale) && RestoresNoneBuried(stale, file)
    ensures safe ==> NothingRevived(current, stale, file)
  {
    FaultlessMeans(currentFields);
    FaultlessMeans(staleFields);
    ConsistentMeans(current, file, None, None);
    StaleIsSafeMeans(stale, file);
    assert UniqueIds(stale) <==> DistinctIds(stale);
    var result := ValidateRegister(current, currentFields, file, None, None);
    ValidateStale(stale, staleFields, result);
    if !NoErrors(result.findings) {
      return false;
    }
    var merged := MergeRows(current, stale);
    CheckMerged(current, merged, file, result);
    SafeIffStaleIsSafe(current, stale, TombstoneIds(file));
    if NoErrors(result.findings) {
      SafeMeans(current, stale, file);
    }
    return NoErrors(result.findings);
  }
}
