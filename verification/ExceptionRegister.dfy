/** The checks as they run: each appends to the findings of a shared result. */
module ExceptionRegister {
  import opened Wrappers
  import opened StringOrder
  import opened RegisterChecks
  import opened RegisterMeaning

  class ValidationResult {
    var findings: seq<Finding>

    constructor ()
      ensures findings == []
    {
      findings := [];
    }

    method Error(code: Code, id: Option<string>)
      modifies this
      ensures findings == old(findings) + [Finding(true, code, id)]
    {
      findings := findings + [Finding(true, code, id)];
    }

    method Extend(more: seq<Finding>)
      modifies this
      ensures findings == old(findings) + more
    {
      findings := findings + more;
    }
  }

  /** `dedupe`: the first of every finding, in order. */
  method Dedupe(findings: seq<Finding>) returns (r: seq<Finding>)
    ensures Distinct(r) && forall f :: f in r <==> f in findings
    ensures NoErrors(r) <==> NoErrors(findings)
  {
    r := [];
    var seen := {};
    for i := 0 to |findings|
      invariant forall f :: f in seen <==> f in r
      invariant Distinct(r) && forall f :: f in r <==> f in findings[..i]
    {
      assert findings[..i + 1] == findings[..i] + [findings[i]];
      if findings[i] !in seen {
        seen := seen + {findings[i]};
        r := r + [findings[i]];
      }
    }
    assert findings[..|findings|] == findings;
    SameErrors(r, findings);
  }

  lemma SameErrors(r: seq<Finding>, findings: seq<Finding>)
    requires forall f :: f in r <==> f in findings
    ensures NoErrors(r) <==> NoErrors(findings)
  {
    assert NoErrors(r) <==> forall f :: f in r ==> !f.isError;
    assert NoErrors(findings) <==> forall f :: f in findings ==> !f.isError;
  }

  method ValidateTombstones(file: seq<Tombstone>, result: ValidationResult) returns (ids: set<string>)
    modifies result
    ensures ids == TombstoneIds(file)
    ensures result.findings == old(result.findings) + TombstoneFindings(file)
  {
    ids := {};
    assert file[..|file|] == file;
    for i := 0 to |file|
      invariant ids == TombstoneIds(file[..i])
      invariant result.findings == old(result.findings) + TombstoneFindings(file[..i])
    {
      assert file[..i + 1][..i] == file[..i];
      TombstoneIdsStep(file, i);
      if !Named(file[i]) {
        result.Error(TombstoneId, None);
        continue;
      }
      if file[i].id in ids {
        result.Error(TombstoneDuplicate, None);
      }
      ids := ids + {file[i].id};
      if !file[i].fieldsOk {
        result.Error(TombstoneFields, Some(file[i].id));
      }
    }
  }

  method CheckTombstoned(rows: Register, tombstoned: set<string>, result: ValidationResult)
    modifies result
    ensures result.findings == old(result.findings) + Collect(rows, row => TombstoneRowFindings(row, tombstoned))
  {
    ghost var check := row => TombstoneRowFindings(row, tombstoned);
    assert rows[..|rows|] == rows;
    for i := 0 to |rows|
      invariant result.findings == old(result.findings) + Collect(rows[..i], check)
    {
      CollectStep(rows, check, i);
      var row := rows[i];
      if row.Row? {
        if row.status == Removed && row.id !in tombstoned {
          result.Error(MissingTombstone, Some(row.id));
        }
        if row.id in tombstoned && row.status != Removed {
          result.Error(Resurrection, Some(row.id));
        }
      }
    }
  }

  method CheckAntiResurrection(previous: Register, rows: Register, tombstoned: set<string>, result: ValidationResult)
    modifies result
    ensures result.findings == old(result.findings) + Collect(rows, row => ResurrectionRowFindings(row, previous, tombstoned))
  {
    ghost var check := row => ResurrectionRowFindings(row, previous, tombstoned);
    assert rows[..|rows|] == rows;
    for i := 0 to |rows|
      invariant result.findings == old(result.findings) + Collect(rows[..i], check)
    {
      CollectStep(rows, check, i);
      var row := rows[i];
      if row.Row? && Live(row.status) {
        if row.id in tombstoned {
          result.Error(Resurrection, Some(row.id));
        }
        var prev := RowOf(previous, row.id);
        if prev.Some? && prev.value.status == Removed {
          result.Error(Resurrection, Some(row.id));
        }
      }
    }
  }

  method CheckExpirySelfExtension(previous: Register, rows: Register, result: ValidationResult)
    modifies result
    ensures result.findings == old(result.findings) + Collect(rows, row => ExtensionRowFindings(row, previous))
  {
    ghost var check := row => ExtensionRowFindings(row, previous);
    assert rows[..|rows|] == rows;
    for i := 0 to |rows|
      invariant result.findings == old(result.findings) + Collect(rows[..i], check)
    {
      CollectStep(rows, check, i);
      var row := rows[i];
      if row.NotARow? {
        continue;
      }
      var prev := RowOf(previous, row.id);
      if prev.None? || !prev.value.expiry.At? || !row.expiry.At? {
        continue;
      }
      if row.expiry.time > prev.value.expiry.time && Open(row.status) {
        result.Error(ExpirySelfExtension, Some(row.id));
      }
    }
  }

  method CheckExpiredReactivation(previous: Register, rows: Register, result: ValidationResult)
    modifies result
    ensures result.findings == old(result.findings) + Collect(rows, row => ReactivationRowFindings(row, previous))
  {
    ghost var check := row => ReactivationRowFindings(row, previous);
    assert rows[..|rows|] == rows;
    for i := 0 to |rows|
      invariant result.findings == old(result.findings) + Collect(rows[..i], check)
    {
      CollectStep(rows, check, i);
      var row := rows[i];
      if row.NotARow? {
        continue;
      }
      var prev := RowOf(previous, row.id);
      if prev.Some? && prev.value.status == Expired && Open(row.status) {
        result.Error(ExpiredReactivation, Some(row.id));
      }
    }
  }

  method CheckPrevious(rows: Register, previous: Option<Register>, tombstoned: set<string>, result: ValidationResult)
    modifies result
    ensures result.findings == old(result.findings) + PreviousFindings(rows, previous, tombstoned)
  {
    if previous.Some? {
      CheckAntiResurrection(previous.value, rows, tombstoned, result);
      CheckExpirySelfExtension(previous.value, rows, result);
      CheckExpiredReactivation(previous.value, rows, result);
    }
  }

  method CheckBase(base: Option<seq<Tombstone>>, tombstoned: set<string>, result: ValidationResult)
    modifies result
    ensures result.findings == old(result.findings) + BaseFindings(base, tombstoned)
  {
    if base.Some? {
      var ids := ValidateTombstones(base.value, result);
      if !(ids <= tombstoned) {
        result.Error(TombstoneDeleted, None);
      }
    }
  }

  method CheckDuplicates(rows: Register, result: ValidationResult)
    modifies result
    ensures result.findings == old(result.findings) + DuplicateFindings(rows)
  {
    if !UniqueIds(rows) {
      result.Error(DuplicateIds, None);
    }
  }

  method CheckOwnTombstones(rows: Register, file: seq<Tombstone>, result: ValidationResult) returns (tombstoned: set<string>)
    modifies result
    ensures tombstoned == TombstoneIds(file)
    ensures result.findings == old(result.findings) + OwnFindings(rows, file)
  {
    CheckDuplicates(rows, result);
    tombstoned := ValidateTombstones(file, result);
    CheckTombstoned(rows, tombstoned, result);
  }

  method CheckLinks(rows: Register, file: seq<Tombstone>, previous: Option<Register>, base: Option<seq<Tombstone>>,
                    result: ValidationResult)
    modifies result
    ensures result.findings == old(result.findings) + LinkFindings(rows, file, previous, base)
  {
    var tombstoned := CheckOwnTombstones(rows, file, result);
    CheckBase(base, tombstoned, result);
    CheckPrevious(rows, previous, tombstoned, result);
    AppendedInTurn(old(result.findings), OwnFindings(rows, file), BaseFindings(base, tombstoned),
                   PreviousFindings(rows, previous, tombstoned));
  }

  lemma AppendedInTurn(before: seq<Finding>, a: seq<Finding>, b: seq<Finding>, c: seq<Finding>)
    ensures before + a + b + c == before + (a + b + c)
  {
  }

  lemma AllFindings(rows: Register, fields: seq<Finding>, file: seq<Tombstone>,
                    previous: Option<Register>, base: Option<seq<Tombstone>>, all: seq<Finding>)
    requires rows != []
    requires all == [] + fields + LinkFindings(rows, file, previous, base)
    ensures all == fields + LinkFindings(rows, file, previous, base)
    ensures NoErrors(all) <==> NoErrors(fields) && Consistent(rows, file, previous, base)
  {
    assert [] + fields == fields;
    NoErrorsConcat(fields, LinkFindings(rows, file, previous, base));
    AcceptedIffConsistent(rows, fields, file, previous, base);
  }

  /** `validate_register`; a missing tombstone file is the empty one. */
  method ValidateRegister(rows: Register, fields: seq<Finding>, file: seq<Tombstone>,
                          previous: Option<Register>, base: Option<seq<Tombstone>>)
    returns (result: ValidationResult)
    ensures fresh(result)
    ensures NoErrors(result.findings) <==> rows != [] && NoErrors(fields) && Consistent(rows, file, previous, base)
    ensures rows == [] ==> result.findings == [Finding(true, NoExceptions, None)]
    ensures rows != [] ==> Distinct(result.findings)
    ensures rows != [] ==> forall f :: f in result.findings <==> f in fields + LinkFindings(rows, file, previous, base)
  {
    result := new ValidationResult();
    if rows == [] {
      result.Error(NoExceptions, None);
      assert result.findings[0].isError;
      return;
    }
    result.Extend(fields);
    CheckLinks(rows, file, previous, base, result);
    var findings := Dedupe(result.findings);
    AllFindings(rows, fields, file, previous, base, result.findings);
    result.findings := findings;
  }
}
