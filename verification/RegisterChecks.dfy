/** What the checks on the production exception register report, as sequences of findings. */
module RegisterChecks {
  import opened Wrappers

  datatype Status = Active | Planned | Expired | Removed | OtherStatus

  /** `expires_at`: not a string, a string that is no timestamp, or a timestamp. */
  datatype Expiry = NoExpiry | BadExpiry | At(time: int)

  /** A row of the register; `NotARow` is anything without a string id. */
  datatype Row = NotARow | Row(id: string, status: Status, expiry: Expiry)

  /** A row of the tombstone file: one without a string id, or one with an id and other, checked fields. */
  datatype Tombstone = NotATombstone | Tombstone(id: string, fieldsOk: bool)

  type Register = seq<Row>

  datatype Code =
    | NoExceptions | DuplicateIds
    | FieldCheck(name: string)      // the field-by-field checks, not part of this model
    | TombstoneId | TombstoneDuplicate | TombstoneFields
    | MissingTombstone | Resurrection | TombstoneDeleted
    | ExpirySelfExtension | ExpiredReactivation
    | Stale(code: Code)             // the same, found in a stale register

  datatype Finding = Finding(isError: bool, code: Code, id: Option<string>)

  function ErrorFor(code: Code, id: string): Finding {
    Finding(true, code, Some(id))
  }

  predicate Live(status: Status) {
    status == Active || status == Planned || status == Expired
  }

  predicate Open(status: Status) {
    status == Active || status == Planned
  }

  /** `exc-` followed by groups of lower-case letters and digits, joined by single dashes. */
  predicate ExceptionId(id: string) {
    && |id| > 4 && id[..4] == "exc-"
    && (forall i :: 4 <= i < |id| ==> 'a' <= id[i] <= 'z' || '0' <= id[i] <= '9' || id[i] == '-')
    && (forall i :: 4 <= i < |id| && id[i] == '-' ==> i + 1 < |id| && id[i - 1] != '-')
  }

  predicate NoErrors(findings: seq<Finding>) {
    forall k :: 0 <= k < |findings| ==> !findings[k].isError
  }

  /** The row that a dictionary built from `rows` holds for `id`: the last one. */
  function RowOf(rows: seq<Row>, id: string): (r: Option<Row>)
    ensures r.Some? ==> r.value.Row? && r.value.id == id && r.value in rows
    ensures r.None? ==> forall k :: 0 <= k < |rows| ==> !(rows[k].Row? && rows[k].id == id)
  {
    if rows == [] then None
    else
      var last := rows[|rows| - 1];
      assert last in rows;
      if last.Row? && last.id == id then Some(last) else RowOf(rows[..|rows| - 1], id)
  }

  predicate UniqueIds(rows: seq<Row>) {
    forall i, j :: 0 <= i < j < |rows| && rows[i].Row? && rows[j].Row? ==> rows[i].id != rows[j].id
  }

  lemma {:induction false} RowOfUnique(rows: seq<Row>, i: nat)
    requires UniqueIds(rows) && i < |rows| && rows[i].Row?
    ensures RowOf(rows, rows[i].id) == Some(rows[i])
    decreases |rows|
  {
    if i < |rows| - 1 {
      RowOfUnique(rows[..|rows| - 1], i);
    }
  }

  // ---------- per-row findings ----------

  function TombstoneRowFindings(row: Row, tombstoned: set<string>): seq<Finding> {
    if row.NotARow? then []
    else
      (if row.status == Removed && row.id !in tombstoned then [ErrorFor(MissingTombstone, row.id)] else []) +
      (if row.id in tombstoned && row.status != Removed then [ErrorFor(Resurrection, row.id)] else [])
  }

  function ResurrectionRowFindings(row: Row, previous: Register, tombstoned: set<string>): seq<Finding> {
    if row.NotARow? || !Live(row.status) then []
    else
      var prev := RowOf(previous, row.id);
      (if row.id in tombstoned then [ErrorFor(Resurrection, row.id)] else []) +
      (if prev.Some? && prev.value.status == Removed then [ErrorFor(Resurrection, row.id)] else [])
  }

  predicate Extended(row: Row, previous: Register) {
    && row.Row? && Open(row.status) && row.expiry.At?
    && RowOf(previous, row.id).Some? && RowOf(previous, row.id).value.expiry.At?
    && row.expiry.time > RowOf(previous, row.id).value.expiry.time
  }

  predicate Reactivated(row: Row, previous: Register) {
    && row.Row? && Open(row.status)
    && RowOf(previous, row.id).Some? && RowOf(previous, row.id).value.status == Expired
  }

  function ExtensionRowFindings(row: Row, previous: Register): seq<Finding> {
    if Extended(row, previous) then [ErrorFor(ExpirySelfExtension, row.id)] else []
  }

  function ReactivationRowFindings(row: Row, previous: Register): seq<Finding> {
    if Reactivated(row, previous) then [ErrorFor(ExpiredReactivation, row.id)] else []
  }

  /** The findings of one check over the rows, in order. */
  function Collect(rows: seq<Row>, check: Row -> seq<Finding>): seq<Finding> {
    if rows == [] then [] else Collect(rows[..|rows| - 1], check) + check(rows[|rows| - 1])
  }

  lemma CollectStep(rows: seq<Row>, check: Row -> seq<Finding>, i: nat)
    requires i < |rows|
    ensures Collect(rows[..i + 1], check) == Collect(rows[..i], check) + check(rows[i])
  {
    assert rows[..i + 1][..i] == rows[..i];
  }

  lemma {:induction false} CollectExact(rows: seq<Row>, check: Row -> seq<Finding>, f: Finding)
    ensures f in Collect(rows, check) <==> exists k :: 0 <= k < |rows| && f in check(rows[k])
    decreases |rows|
  {
    if rows != [] {
      var init := rows[..|rows| - 1];
      CollectExact(init, check, f);
      assert forall k :: 0 <= k < |init| ==> init[k] == rows[k];
    }
  }

  // ---------- tombstones ----------

  predicate Named(row: Tombstone) {
    row.Tombstone? && ExceptionId(row.id)
  }

  function TombstoneIds(file: seq<Tombstone>): set<string> {
    set k | 0 <= k < |file| && Named(file[k]) :: file[k].id
  }

  function TombstoneFindings(file: seq<Tombstone>): seq<Finding> {
    if file == [] then []
    else
      var init, last := file[..|file| - 1], file[|file| - 1];
      TombstoneFindings(init) +
      (if !Named(last) then [Finding(true, TombstoneId, None)]
       else (if last.id in TombstoneIds(init) then [Finding(true, TombstoneDuplicate, None)] else [])
            + (if last.fieldsOk then [] else [ErrorFor(TombstoneFields, last.id)]))
  }

  lemma TombstoneIdsStep(file: seq<Tombstone>, i: nat)
    requires i < |file|
    ensures TombstoneIds(file[..i + 1]) == TombstoneIds(file[..i]) + if Named(file[i]) then {file[i].id} else {}
  {
    var more := file[..i + 1];
    assert forall k :: 0 <= k < i ==> more[k] == file[..i][k];
    if Named(file[i]) {
      assert more[i].id in TombstoneIds(more);
    }
    forall x | x in TombstoneIds(file[..i])
      ensures x in TombstoneIds(more)
    {
      var k :| 0 <= k < i && Named(file[..i][k]) && file[..i][k].id == x;
      assert more[k].id == x;
    }
  }

  // ---------- the whole check ----------

  /** The findings that do not come from the field-by-field checks. */
  function LinkFindings(rows: Register, file: seq<Tombstone>, previous: Option<Register>, base: Option<seq<Tombstone>>): seq<Finding> {
    var tombstoned := TombstoneIds(file);
    OwnFindings(rows, file)
    + BaseFindings(base, tombstoned)
    + PreviousFindings(rows, previous, tombstoned)
  }

  function OwnFindings(rows: Register, file: seq<Tombstone>): seq<Finding> {
    var tombstoned := TombstoneIds(file);
    DuplicateFindings(rows) + TombstoneFindings(file) + Collect(rows, row => TombstoneRowFindings(row, tombstoned))
  }

  function DuplicateFindings(rows: Register): seq<Finding> {
    if UniqueIds(rows) then [] else [Finding(true, DuplicateIds, None)]
  }

  function BaseFindings(base: Option<seq<Tombstone>>, tombstoned: set<string>): seq<Finding> {
    if base.None? then []
    else
      TombstoneFindings(base.value) +
      if TombstoneIds(base.value) <= tombstoned then [] else [Finding(true, TombstoneDeleted, None)]
  }

  function PreviousFindings(rows: Register, previous: Option<Register>, tombstoned: set<string>): seq<Finding> {
    if previous.None? then []
    else
      Collect(rows, row => ResurrectionRowFindings(row, previous.value, tombstoned))
      + Collect(rows, row => ExtensionRowFindings(row, previous.value))
      + Collect(rows, row => ReactivationRowFindings(row, previous.value))
  }

  /** `fields` are the findings of the field-by-field checks on the register. */
  predicate AcceptedAgainst(rows: Register, fields: seq<Finding>, file: seq<Tombstone>,
                            previous: Option<Register>, base: Option<seq<Tombstone>>) {
    rows != [] && NoErrors(fields) && NoErrors(LinkFindings(rows, file, previous, base))
  }
}
