/** What an accepted register looks like, without reference to findings. */
module RegisterMeaning {
  import opened Wrappers
  import opened RegisterChecks

  predicate SoundTombstones(file: seq<Tombstone>) {
    && (forall k :: 0 <= k < |file| ==> Named(file[k]) && file[k].fieldsOk)
    && (forall i, j :: 0 <= i < j < |file| && Named(file[i]) && Named(file[j]) ==> file[i].id != file[j].id)
  }

  predicate RemovedIffTombstoned(rows: Register, tombstoned: set<string>) {
    forall k :: 0 <= k < |rows| && rows[k].Row? ==> (rows[k].status == Removed <==> rows[k].id in tombstoned)
  }

  predicate Revives(row: Row, previous: Register) {
    row.Row? && Live(row.status) && RowOf(previous, row.id).Some? && RowOf(previous, row.id).value.status == Removed
  }

  predicate Follows(rows: Register, previous: Register) {
    forall k :: 0 <= k < |rows| ==>
      !Revives(rows[k], previous) && !Extended(rows[k], previous) && !Reactivated(rows[k], previous)
  }

  predicate Consistent(rows: Register, file: seq<Tombstone>, previous: Option<Register>, base: Option<seq<Tombstone>>) {
    && UniqueIds(rows)
    && SoundTombstones(file)
    && RemovedIffTombstoned(rows, TombstoneIds(file))
    && (base.Some? ==> SoundTombstones(base.value) && TombstoneIds(base.value) <= TombstoneIds(file))
    && (previous.Some? ==> Follows(rows, previous.value))
  }

  lemma NoErrorsConcat(a: seq<Finding>, b: seq<Finding>)
    ensures NoErrors(a + b) <==> NoErrors(a) && NoErrors(b)
  {
    assert forall k :: 0 <= k < |a| ==> (a + b)[k] == a[k];
    assert forall k :: 0 <= k < |b| ==> (a + b)[|a| + k] == b[k];
  }

  lemma {:induction false} CollectClean(rows: seq<Row>, check: Row -> seq<Finding>)
    ensures NoErrors(Collect(rows, check)) <==> forall k :: 0 <= k < |rows| ==> NoErrors(check(rows[k]))
    decreases |rows|
  {
    if rows != [] {
      var init := rows[..|rows| - 1];
      CollectClean(init, check);
      NoErrorsConcat(Collect(init, check), check(rows[|rows| - 1]));
      assert forall k :: 0 <= k < |init| ==> init[k] == rows[k];
    }
  }

  lemma {:induction false} TombstonesClean(file: seq<Tombstone>)
    ensures NoErrors(TombstoneFindings(file)) <==> SoundTombstones(file)
    decreases |file|
  {
    if file != [] {
      var n := |file| - 1;
      var init, last := file[..n], file[n];
      TombstonesClean(init);
      NoErrorsConcat(TombstoneFindings(init), LastFindings(init, last));
      assert TombstoneFindings(file) == TombstoneFindings(init) + LastFindings(init, last);
      LastClean(init, last);
      SoundStep(init, last);
      assert file == init + [last];
    }
  }

  function LastFindings(init: seq<Tombstone>, last: Tombstone): seq<Finding> {
    if !Named(last) then [Finding(true, TombstoneId, None)]
    else (if last.id in TombstoneIds(init) then [Finding(true, TombstoneDuplicate, None)] else [])
         + (if last.fieldsOk then [] else [ErrorFor(TombstoneFields, last.id)])
  }

  lemma LastClean(init: seq<Tombstone>, last: Tombstone)
    ensures NoErrors(LastFindings(init, last)) <==> Named(last) && last.fieldsOk && last.id !in TombstoneIds(init)
  {
    if Named(last) {
      NoErrorsConcat(if last.id in TombstoneIds(init) then [Finding(true, TombstoneDuplicate, None)] else [],
                     if last.fieldsOk then [] else [ErrorFor(TombstoneFields, last.id)]);
    }
    if LastFindings(init, last) != [] {
      assert LastFindings(init, last)[0].isError;
    }
  }

  lemma SoundStep(init: seq<Tombstone>, last: Tombstone)
    ensures SoundTombstones(init + [last]) <==>
              SoundTombstones(init) && Named(last) && last.fieldsOk && last.id !in TombstoneIds(init)
  {
    var file := init + [last];
    assert forall k :: 0 <= k < |init| ==> file[k] == init[k];
    assert file[|init|] == last;
  }

  lemma TombstoneRowsClean(rows: Register, tombstoned: set<string>)
    ensures NoErrors(Collect(rows, row => TombstoneRowFindings(row, tombstoned))) <==> RemovedIffTombstoned(rows, tombstoned)
  {
    var check := row => TombstoneRowFindings(row, tombstoned);
    CollectClean(rows, check);
    forall k | 0 <= k < |rows|
      ensures NoErrors(check(rows[k])) <==> (rows[k].Row? ==> (rows[k].status == Removed <==> rows[k].id in tombstoned))
    {
      OnlyErrors(check(rows[k]));
    }
  }

  lemma OnlyErrors(findings: seq<Finding>)
    requires forall k :: 0 <= k < |findings| ==> findings[k].isError
    ensures NoErrors(findings) <==> findings == []
  {
    if findings != [] {
      assert findings[0].isError;
    }
  }

  lemma PreviousClean(rows: Register, previous: Register, tombstoned: set<string>)
    requires RemovedIffTombstoned(rows, tombstoned)
    ensures NoErrors(PreviousFindings(rows, Some(previous), tombstoned)) <==> Follows(rows, previous)
  {
    var revived := row => ResurrectionRowFindings(row, previous, tombstoned);
    var extended := row => ExtensionRowFindings(row, previous);
    var reactivated := row => ReactivationRowFindings(row, previous);
    NoErrorsConcat(Collect(rows, revived), Collect(rows, extended));
    NoErrorsConcat(Collect(rows, revived) + Collect(rows, extended), Collect(rows, reactivated));
    CollectClean(rows, revived);
    CollectClean(rows, extended);
    CollectClean(rows, reactivated);
    forall k | 0 <= k < |rows|
      ensures NoErrors(revived(rows[k])) <==> !Revives(rows[k], previous)
      ensures NoErrors(extended(rows[k])) <==> !Extended(rows[k], previous)
      ensures NoErrors(reactivated(rows[k])) <==> !Reactivated(rows[k], previous)
    {
      RowClean(rows[k], previous, tombstoned);
    }
  }

  lemma RowClean(row: Row, previous: Register, tombstoned: set<string>)
    requires row.Row? ==> (row.status == Removed <==> row.id in tombstoned)
    ensures NoErrors(ResurrectionRowFindings(row, previous, tombstoned)) <==> !Revives(row, previous)
    ensures NoErrors(ExtensionRowFindings(row, previous)) <==> !Extended(row, previous)
    ensures NoErrors(ReactivationRowFindings(row, previous)) <==> !Reactivated(row, previous)
  {
    OnlyErrors(ResurrectionRowFindings(row, previous, tombstoned));
    OnlyErrors(ExtensionRowFindings(row, previous));
    OnlyErrors(ReactivationRowFindings(row, previous));
  }

  lemma BaseClean(base: seq<Tombstone>, tombstoned: set<string>)
    ensures NoErrors(BaseFindings(Some(base), tombstoned)) <==> SoundTombstones(base) && TombstoneIds(base) <= tombstoned
  {
    TombstonesClean(base);
    var deleted := if TombstoneIds(base) <= tombstoned then [] else [Finding(true, TombstoneDeleted, None)];
    NoErrorsConcat(TombstoneFindings(base), deleted);
    OnlyErrors(deleted);
  }

  /** The validator reports no error exactly when the register is consistent with its tombstones, base and predecessor. */
  lemma AcceptedIffConsistent(rows: Register, fields: seq<Finding>, file: seq<Tombstone>,
                              previous: Option<Register>, base: Option<seq<Tombstone>>)
    ensures AcceptedAgainst(rows, fields, file, previous, base) <==>
              rows != [] && NoErrors(fields) && Consistent(rows, file, previous, base)
  {
    var tombstoned := TombstoneIds(file);
    var a := DuplicateFindings(rows);
    var b := TombstoneFindings(file);
    var c := Collect(rows, row => TombstoneRowFindings(row, tombstoned));
    var d := BaseFindings(base, tombstoned);
    var e := PreviousFindings(rows, previous, tombstoned);
    assert LinkFindings(rows, file, previous, base) == a + b + c + d + e;
    NoErrorsConcat(a, b);
    NoErrorsConcat(a + b, c);
    NoErrorsConcat(a + b + c, d);
    NoErrorsConcat(a + b + c + d, e);
    OnlyErrors(a);
    TombstonesClean(file);
    TombstoneRowsClean(rows, tombstoned);
    if base.Some? {
      BaseClean(base.value, tombstoned);
    }
    if previous.Some? && RemovedIffTombstoned(rows, tombstoned) {
      PreviousClean(rows, previous.value, tombstoned);
    }
  }
}
