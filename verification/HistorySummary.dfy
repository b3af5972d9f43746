/** One register and one tombstone file that stand for a whole history. */
module HistorySummary {
  import opened Wrappers
  import opened RegisterChecks
  import opened RegisterMeaning

  /** A row that bounds later expiries: live, with a readable expiry. */
  predicate Dated(row: Row, id: string) {
    row.Row? && row.id == id && Live(row.status) && row.expiry.At?
  }

  predicate ExpiredFor(row: Row, id: string) {
    row.Row? && row.id == id && row.status == Expired
  }

  function Earliest(rows: seq<Row>, id: string): Option<int> {
    if rows == [] then None
    else
      var before, last := Earliest(rows[..|rows| - 1], id), rows[|rows| - 1];
      if Dated(last, id) && (before.None? || last.expiry.time < before.value) then Some(last.expiry.time) else before
  }

  predicate SawExpired(rows: seq<Row>, id: string) {
    exists k :: 0 <= k < |rows| && ExpiredFor(rows[k], id)
  }

  function SummaryRow(row: Row, rows: seq<Row>): Row {
    if row.NotARow? then row
    else
      var earliest := Earliest(rows, row.id);
      Row(row.id,
          if SawExpired(rows, row.id) && Open(row.status) then Expired else row.status,
          if earliest.Some? then At(earliest.value) else row.expiry)
  }

  function Summary(tip: Register, rows: seq<Row>): (r: Register)
    ensures |r| == |tip|
    ensures forall k :: 0 <= k < |tip| ==> r[k] == SummaryRow(tip[k], rows)
  {
    seq(|tip|, k requires 0 <= k < |tip| => SummaryRow(tip[k], rows))
  }

  /** The rows of every readable register, oldest first. */
  function AllRows(history: seq<Option<Register>>): seq<Row> {
    if history == [] then []
    else
      var last := history[|history| - 1];
      var before := AllRows(history[..|history| - 1]);
      if last.None? then before else before + last.value
  }

  predicate DatedBefore(row: Row, id: string, time: int) {
    Dated(row, id) && row.expiry.time < time
  }

  /** The earliest date decides every comparison that some date of the history decides. */
  lemma {:induction false} EarliestDecides(rows: seq<Row>, id: string, time: int)
    ensures (Earliest(rows, id).Some? && Earliest(rows, id).value < time) <==>
              exists k :: 0 <= k < |rows| && DatedBefore(rows[k], id, time)
    decreases |rows|
  {
    if rows != [] {
      var init := rows[..|rows| - 1];
      EarliestDecides(init, id, time);
      assert forall k :: 0 <= k < |init| ==> init[k] == rows[k];
      if DatedBefore(rows[|rows| - 1], id, time) {
        assert Earliest(rows, id).Some?;
      }
      if Earliest(init, id).Some? && Earliest(init, id).value < time {
        var k :| 0 <= k < |init| && DatedBefore(init[k], id, time);
        assert DatedBefore(rows[k], id, time);
      }
    }
  }

  lemma {:induction false} SummaryRowOf(tip: Register, rows: seq<Row>, id: string)
    ensures RowOf(Summary(tip, rows), id) ==
              if RowOf(tip, id).None? then None else Some(SummaryRow(RowOf(tip, id).value, rows))
    decreases |tip|
  {
    if tip != [] {
      var init := tip[..|tip| - 1];
      SummaryRowOf(init, rows, id);
      assert Summary(tip, rows)[..|tip| - 1] == Summary(init, rows);
    }
  }

  predicate SomeDatedBefore(rows: seq<Row>, id: string, time: int) {
    exists j :: 0 <= j < |rows| && DatedBefore(rows[j], id, time)
  }

  /**
    * What comparing with the summary amounts to on any register: a row is held against the whole history, and,
    * where the history has no date for it, against the last row of its own register with the same id.
    */
  lemma SummaryCompares(tip: Register, rows: seq<Row>, k: nat)
    requires k < |tip| && tip[k].Row?
    ensures RowOf(tip, tip[k].id).Some?
    ensures var own := RowOf(tip, tip[k].id).value;
            Extended(tip[k], Summary(tip, rows)) <==>
              Open(tip[k].status) && tip[k].expiry.At? &&
              (SomeDatedBefore(rows, tip[k].id, tip[k].expiry.time) ||
               (Earliest(rows, tip[k].id).None? && own.expiry.At? && own.expiry.time < tip[k].expiry.time))
    ensures var own := RowOf(tip, tip[k].id).value;
            Reactivated(tip[k], Summary(tip, rows)) <==>
              Open(tip[k].status) && (own.status == Expired || (Open(own.status) && SawExpired(rows, tip[k].id)))
    ensures Revives(tip[k], Summary(tip, rows)) <==>
              Live(tip[k].status) && RowOf(tip, tip[k].id).value.status == Removed
  {
    SummaryRowOf(tip, rows, tip[k].id);
    if tip[k].expiry.At? {
      EarliestDecides(rows, tip[k].id, tip[k].expiry.time);
    }
  }

  /** With unique ids, comparing a register with the summary is comparing it with every row of the history. */
  lemma SummaryComparesAll(tip: Register, rows: seq<Row>, k: nat)
    requires UniqueIds(tip) && k < |tip| && tip[k].Row?
    ensures Extended(tip[k], Summary(tip, rows)) <==>
              Open(tip[k].status) && tip[k].expiry.At? && SomeDatedBefore(rows, tip[k].id, tip[k].expiry.time)
    ensures Reactivated(tip[k], Summary(tip, rows)) <==> Open(tip[k].status) && SawExpired(rows, tip[k].id)
    ensures !Revives(tip[k], Summary(tip, rows))
  {
    SummaryCompares(tip, rows, k);
    RowOfUnique(tip, k);
  }

  /** Without unique ids the summary can blame a row for the date of its own double. */
  lemma DoubleIsBlamed()
    ensures var tip := [Row("exc-a", Active, At(2)), Row("exc-a", Active, At(1))];
            Extended(tip[0], Summary(tip, []))
  {
    var tip := [Row("exc-a", Active, At(2)), Row("exc-a", Active, At(1))];
    SummaryCompares(tip, [], 0);
    assert RowOf(tip, tip[0].id) == Some(tip[1]);
  }

  // ---------- tombstones ----------

  function AllTombstones(history: seq<Option<seq<Tombstone>>>): seq<Tombstone> {
    if history == [] then []
    else
      var last := history[|history| - 1];
      var before := AllTombstones(history[..|history| - 1]);
      if last.None? then before else before + last.value
  }

  predicate HasId(rows: seq<Tombstone>, id: string) {
    exists k :: 0 <= k < |rows| && rows[k].Tombstone? && rows[k].id == id
  }

  /** The first row of every id, in order of first appearance. */
  function FirstPerId(rows: seq<Tombstone>): seq<Tombstone> {
    if rows == [] then []
    else
      var kept, last := FirstPerId(rows[..|rows| - 1]), rows[|rows| - 1];
      if last.Tombstone? && !HasId(kept, last.id) then kept + [last] else kept
  }

  lemma FirstPerIdStep(rows: seq<Tombstone>, row: Tombstone)
    ensures FirstPerId(rows + [row]) ==
              if row.Tombstone? && !HasId(FirstPerId(rows), row.id) then FirstPerId(rows) + [row] else FirstPerId(rows)
  {
    assert (rows + [row])[..|rows|] == rows;
  }

  predicate OnePerId(kept: seq<Tombstone>) {
    && (forall k :: 0 <= k < |kept| ==> kept[k].Tombstone?)
    && (forall i, j :: 0 <= i < j < |kept| && kept[i].Tombstone? && kept[j].Tombstone? ==> kept[i].id != kept[j].id)
  }

  predicate CoversIds(kept: seq<Tombstone>, rows: seq<Tombstone>) {
    forall k :: 0 <= k < |rows| && rows[k].Tombstone? ==> HasId(kept, rows[k].id)
  }

  lemma {:induction false} FirstPerIdKeeps(rows: seq<Tombstone>)
    ensures OnePerId(FirstPerId(rows))
    ensures CoversIds(FirstPerId(rows), rows)
    ensures forall k :: 0 <= k < |FirstPerId(rows)| ==> FirstPerId(rows)[k] in rows
    decreases |rows|
  {
    if rows != [] {
      var init, last := rows[..|rows| - 1], rows[|rows| - 1];
      FirstPerIdKeeps(init);
      assert rows == init + [last];
      if last.Tombstone? {
        HasIdGrows(FirstPerId(init), last);
      }
    }
  }

  lemma HasIdGrows(kept: seq<Tombstone>, last: Tombstone)
    requires last.Tombstone?
    ensures forall id :: HasId(kept, id) ==> HasId(kept + [last], id)
    ensures HasId(kept + [last], last.id)
  {
    forall id | HasId(kept, id)
      ensures HasId(kept + [last], id)
    {
      var k :| 0 <= k < |kept| && kept[k].Tombstone? && kept[k].id == id;
      assert (kept + [last])[k].id == id;
    }
    assert (kept + [last])[|kept|].id == last.id;
  }

  /** Keeping one row per id loses no tombstoned id. */
  lemma UnionKeepsIds(rows: seq<Tombstone>)
    ensures TombstoneIds(FirstPerId(rows)) == TombstoneIds(rows)
  {
    var kept := FirstPerId(rows);
    FirstPerIdKeeps(rows);
    forall id | id in TombstoneIds(rows)
      ensures id in TombstoneIds(kept)
    {
      var k :| 0 <= k < |rows| && Named(rows[k]) && rows[k].id == id;
      assert HasId(kept, rows[k].id);
      var j :| 0 <= j < |kept| && kept[j].Tombstone? && kept[j].id == id;
      assert Named(kept[j]);
    }
    forall id | id in TombstoneIds(kept)
      ensures id in TombstoneIds(rows)
    {
      var k :| 0 <= k < |kept| && Named(kept[k]) && kept[k].id == id;
      assert kept[k] in rows;
    }
  }

  /** The row kept for an id is the first one of the history. */
  lemma {:induction false} FirstSeenWins(rows: seq<Tombstone>, k: nat)
    requires k < |rows| && rows[k].Tombstone?
    requires forall j :: 0 <= j < k && rows[j].Tombstone? ==> rows[j].id != rows[k].id
    ensures rows[k] in FirstPerId(rows)
    decreases |rows|
  {
    var n := |rows| - 1;
    FirstPerIdKeeps(rows[..n]);
    if k < n {
      FirstSeenWins(rows[..n], k);
    }
  }
}
