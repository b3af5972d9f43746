/** The loops that build the two summaries. */
module HistoryMethods {
  import opened Wrappers
  import opened RegisterChecks
  import opened HistorySummary

  ghost predicate Recorded(earliest: map<string, int>, saw: set<string>, rows: seq<Row>) {
    && (forall id :: id in earliest <==> Earliest(rows, id).Some?)
    && (forall id :: id in earliest ==> Earliest(rows, id) == Some(earliest[id]))
    && (forall id :: id in saw <==> SawExpired(rows, id))
  }

  lemma RecordedStep(rows: seq<Row>, row: Row, id: string)
    ensures Earliest(rows + [row], id) ==
              if Dated(row, id) && (Earliest(rows, id).None? || row.expiry.time < Earliest(rows, id).value)
              then Some(row.expiry.time) else Earliest(rows, id)
    ensures SawExpired(rows + [row], id) <==> SawExpired(rows, id) || ExpiredFor(row, id)
  {
    var more := rows + [row];
    assert more[..|more| - 1] == rows;
    if SawExpired(rows, id) {
      var k :| 0 <= k < |rows| && ExpiredFor(rows[k], id);
      assert ExpiredFor(more[k], id);
    }
    if ExpiredFor(row, id) {
      assert ExpiredFor(more[|rows|], id);
    }
  }

  method RecordRow(earliest: map<string, int>, saw: set<string>, row: Row, ghost rows: seq<Row>)
    returns (earliest': map<string, int>, saw': set<string>)
    requires Recorded(earliest, saw, rows)
    ensures Recorded(earliest', saw', rows + [row])
  {
    earliest', saw' := earliest, saw;
    forall id {
      RecordedStep(rows, row, id);
    }
    if row.NotARow? || !Live(row.status) {
      return;
    }
    if row.status == Expired {
      saw' := saw' + {row.id};
    }
    if !row.expiry.At? {
      return;
    }
    if row.id !in earliest || row.expiry.time < earliest[row.id] {
      earliest' := earliest[row.id := row.expiry.time];
    }
  }

  method RecordRegister(earliest: map<string, int>, saw: set<string>, register: Register, ghost rows: seq<Row>)
    returns (earliest': map<string, int>, saw': set<string>)
    requires Recorded(earliest, saw, rows)
    ensures Recorded(earliest', saw', rows + register)
  {
    earliest', saw' := earliest, saw;
    assert rows + register[..0] == rows;
    for i := 0 to |register|
      invariant Recorded(earliest', saw', rows + register[..i])
    {
      earliest', saw' := RecordRow(earliest', saw', register[i], rows + register[..i]);
      assert rows + register[..i] + [register[i]] == rows + register[..i + 1];
    }
    assert register[..|register|] == register;
  }

  /** `earliest_expiry_previous_register`. */
  method EarliestExpiryPreviousRegister(tip: Register, history: seq<Option<Register>>) returns (previous: Register)
    ensures previous == Summary(tip, AllRows(history))
  {
    var earliest: map<string, int>, saw: set<string> := map[], {};
    assert history[..|history|] == history;
    for i := 0 to |history|
      invariant Recorded(earliest, saw, AllRows(history[..i]))
    {
      assert history[..i + 1][..i] == history[..i];
      if history[i].Some? {
        earliest, saw := RecordRegister(earliest, saw, history[i].value, AllRows(history[..i]));
      }
    }
    ghost var rows := AllRows(history);
    previous := tip;
    for i := 0 to |tip|
      invariant |previous| == |tip|
      invariant forall k :: 0 <= k < i ==> previous[k] == SummaryRow(tip[k], rows)
      invariant forall k :: i <= k < |tip| ==> previous[k] == tip[k]
    {
      var row := previous[i];
      if row.Row? {
        if row.id in earliest {
          row := row.(expiry := At(earliest[row.id]));
        }
        if row.id in saw && Open(row.status) {
          row := row.(status := Expired);
        }
        previous := previous[i := row];
      }
    }
  }

  /** `union_tombstone_docs`. */
  method UnionTombstones(history: seq<Option<seq<Tombstone>>>) returns (union: seq<Tombstone>)
    ensures union == FirstPerId(AllTombstones(history))
  {
    union := [];
    assert history[..|history|] == history;
    for i := 0 to |history|
      invariant union == FirstPerId(AllTombstones(history[..i]))
    {
      assert history[..i + 1][..i] == history[..i];
      if history[i].Some? {
        union := UnionRows(union, history[i].value, AllTombstones(history[..i]));
      }
    }
  }

  method UnionRows(union: seq<Tombstone>, more: seq<Tombstone>, ghost rows: seq<Tombstone>) returns (union': seq<Tombstone>)
    requires union == FirstPerId(rows)
    ensures union' == FirstPerId(rows + more)
  {
    union' := union;
    assert rows + more[..0] == rows;
    for i := 0 to |more|
      invariant union' == FirstPerId(rows + more[..i])
    {
      FirstPerIdStep(rows + more[..i], more[i]);
      assert rows + more[..i] + [more[i]] == rows + more[..i + 1];
      if more[i].Tombstone? && !HasId(union', more[i].id) {
        union' := union' + [more[i]];
      }
    }
    assert more[..|more|] == more;
  }
}
