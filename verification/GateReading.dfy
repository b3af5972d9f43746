/** The promotion gate in terms of the rows and tombstones of the whole history. */
module GateReading {
  import opened Wrappers
  import opened RegisterChecks
  import opened RegisterMeaning
  import opened HistorySummary
  import opened RegisterRuns
  import opened ExceptionIds
  import opened RegisterReading

  // ---------- rows of the history ----------

  /** Some readable register of the history has this row. */
  ghost predicate InHistory(registers: seq<Option<Register>>, row: Row) {
    exists h :: 0 <= h < |registers| && registers[h].Some? && row in registers[h].value
  }

  lemma {:induction false} AllRowsMean(registers: seq<Option<Register>>, row: Row)
    ensures row in AllRows(registers) <==> InHistory(registers, row)
    decreases |registers|
  {
    if registers != [] {
      var n := |registers| - 1;
      AllRowsMean(registers[..n], row);
      assert forall h :: 0 <= h < n ==> registers[..n][h] == registers[h];
    }
  }

  /** What an open row may be after a row of the history: not after expired, and not later than a dated live row. */
  predicate MayStandAfter(was: Row, now: Row)
    requires was.Row? && now.Row?
  {
    now.status == Active || now.status == Planned ==>
      && was.status != Expired
      && ((was.status == Active || was.status == Planned) && was.expiry.At? && now.expiry.At? ==>
            now.expiry.time <= was.expiry.time)
  }

  ghost predicate StandsAfterAll(tip: Register, registers: seq<Option<Register>>) {
    forall k, was :: 0 <= k < |tip| && tip[k].Row? && InHistory(registers, was) && was.Row? && was.id == tip[k].id ==>
      MayStandAfter(was, tip[k])
  }

  lemma StandsMeans(tip: Register, registers: seq<Option<Register>>)
    ensures RespectsHistory(tip, AllRows(registers)) <==> StandsAfterAll(tip, registers)
  {
    var rows := AllRows(registers);
    if RespectsHistory(tip, rows) {
      forall k, was | 0 <= k < |tip| && tip[k].Row? && InHistory(registers, was) && was.Row? && was.id == tip[k].id
        ensures MayStandAfter(was, tip[k])
      {
        AllRowsMean(registers, was);
        var j :| 0 <= j < |rows| && rows[j] == was;
        assert ExpiredFor(rows[j], tip[k].id) <==> was.status == Expired;
        assert tip[k].expiry.At? ==> (DatedBefore(rows[j], tip[k].id, tip[k].expiry.time) <==>
                 Live(was.status) && was.expiry.At? && was.expiry.time < tip[k].expiry.time);
      }
    }
    if StandsAfterAll(tip, registers) {
      forall k | 0 <= k < |tip| && tip[k].Row? && Open(tip[k].status)
        ensures !SawExpired(rows, tip[k].id)
        ensures tip[k].expiry.At? ==> !SomeDatedBefore(rows, tip[k].id, tip[k].expiry.time)
      {
        forall j | 0 <= j < |rows| && rows[j].Row? && rows[j].id == tip[k].id
          ensures MayStandAfter(rows[j], tip[k])
        {
          AllRowsMean(registers, rows[j]);
        }
      }
    }
  }

  // ---------- tombstones of the history ----------

  ghost predicate EverBuried(files: seq<Option<seq<Tombstone>>>, id: string) {
    exists h :: 0 <= h < |files| && files[h].Some? && Buried(files[h].value, id)
  }

  /** A tombstone at a place of the history. */
  predicate Placed(files: seq<Option<seq<Tombstone>>>, h: nat, k: nat) {
    h < |files| && files[h].Some? && k < |files[h].value|
  }

  lemma {:induction false} PlaceOf(files: seq<Option<seq<Tombstone>>>, h: nat, k: nat)
    requires Placed(files, h, k)
    ensures |AllTombstones(files[..h])| + k < |AllTombstones(files)|
    ensures AllTombstones(files)[|AllTombstones(files[..h])| + k] == files[h].value[k]
    decreases |files|
  {
    var n := |files| - 1;
    if h < n {
      PlaceOf(files[..n], h, k);
      assert files[..n][..h] == files[..h];
    }
  }

  lemma {:induction false} TombstoneAt(files: seq<Option<seq<Tombstone>>>, p: nat) returns (h: nat, k: nat)
    requires p < |AllTombstones(files)|
    ensures Placed(files, h, k) && p == |AllTombstones(files[..h])| + k && AllTombstones(files)[p] == files[h].value[k]
    decreases |files|
  {
    var n := |files| - 1;
    var before := AllTombstones(files[..n]);
    if p < |before| {
      h, k := TombstoneAt(files[..n], p);
      assert files[..n][..h] == files[..h];
    } else {
      h, k := n, p - |before|;
    }
  }

  lemma EarlierStandsBefore(files: seq<Option<seq<Tombstone>>>, h: nat, k: nat, g: nat)
    requires Placed(files, h, k) && h < g <= |files|
    ensures |AllTombstones(files[..h])| + k < |AllTombstones(files[..g])|
  {
    assert files[..g][..h] == files[..h];
    PlaceOf(files[..g], h, k);
  }

  predicate Before(h: nat, k: nat, g: nat, l: nat) {
    h < g || (h == g && k < l)
  }

  /** The first tombstone of its id in the history. */
  ghost predicate FirstOfItsId(files: seq<Option<seq<Tombstone>>>, h: nat, k: nat) {
    && Placed(files, h, k) && files[h].value[k].Tombstone?
    && forall g: nat, l: nat :: Placed(files, g, l) && Before(g, l, h, k) ==> !SameTombstone(files[g].value[l], files[h].value[k])
  }

  predicate IsFirst(rows: seq<Tombstone>, p: nat) {
    p < |rows| && rows[p].Tombstone? && forall q :: 0 <= q < p ==> !SameTombstone(rows[q], rows[p])
  }

  lemma {:induction false} KeptIsFirst(rows: seq<Tombstone>, row: Tombstone) returns (p: nat)
    requires row in FirstPerId(rows)
    ensures IsFirst(rows, p) && rows[p] == row
    decreases |rows|
  {
    var n := |rows| - 1;
    var kept := FirstPerId(rows[..n]);
    if row in kept {
      p := KeptIsFirst(rows[..n], row);
    } else {
      p := n;
      FirstPerIdKeeps(rows[..n]);
      assert forall q :: 0 <= q < n ==> rows[..n][q] == rows[q];
    }
  }

  ghost predicate FirstsProper(rows: seq<Tombstone>) {
    forall p: nat :: IsFirst(rows, p) ==> ProperId(rows[p].id) && rows[p].fieldsOk
  }

  lemma FirstsMean(rows: seq<Tombstone>)
    ensures FirstSeenSound(rows) <==> FirstsProper(rows)
  {
    var kept := FirstPerId(rows);
    if FirstSeenSound(rows) {
      forall p: nat | IsFirst(rows, p)
        ensures ProperId(rows[p].id) && rows[p].fieldsOk
      {
        FirstSeenWins(rows, p);
        var k :| 0 <= k < |kept| && kept[k] == rows[p];
        IdMeans(rows[p].id);
      }
    }
    if FirstsProper(rows) {
      forall k | 0 <= k < |kept|
        ensures Named(kept[k]) && kept[k].fieldsOk
      {
        var p := KeptIsFirst(rows, kept[k]);
        IdMeans(rows[p].id);
      }
    }
  }

  lemma FirstIsFirst(files: seq<Option<seq<Tombstone>>>, h: nat, k: nat)
    requires FirstOfItsId(files, h, k)
    ensures IsFirst(AllTombstones(files), |AllTombstones(files[..h])| + k)
  {
    var all, p := AllTombstones(files), |AllTombstones(files[..h])| + k;
    PlaceOf(files, h, k);
    forall q | 0 <= q < p
      ensures !SameTombstone(all[q], all[p])
    {
      var g, l := TombstoneAt(files, q);
      if h < g {
        EarlierStandsBefore(files, h, k, g);
      }
    }
  }

  lemma PlacedIsFirst(files: seq<Option<seq<Tombstone>>>, p: nat) returns (h: nat, k: nat)
    requires IsFirst(AllTombstones(files), p)
    ensures FirstOfItsId(files, h, k) && files[h].value[k] == AllTombstones(files)[p]
  {
    h, k := TombstoneAt(files, p);
    forall g: nat, l: nat | Placed(files, g, l) && Before(g, l, h, k)
      ensures !SameTombstone(files[g].value[l], files[h].value[k])
    {
      PlaceOf(files, g, l);
      if g < h {
        EarlierStandsBefore(files, g, l, h);
      }
    }
  }

  /** The first tombstone of every id of the history is proper. */
  ghost predicate FirstTombstonesProper(files: seq<Option<seq<Tombstone>>>) {
    forall h: nat, k: nat :: FirstOfItsId(files, h, k) ==> ProperId(files[h].value[k].id) && files[h].value[k].fieldsOk
  }

  lemma FirstTombstonesMean(files: seq<Option<seq<Tombstone>>>)
    ensures FirstsProper(AllTombstones(files)) <==> FirstTombstonesProper(files)
  {
    var all := AllTombstones(files);
    if FirstsProper(all) {
      forall h: nat, k: nat | FirstOfItsId(files, h, k)
        ensures ProperId(files[h].value[k].id) && files[h].value[k].fieldsOk
      {
        FirstIsFirst(files, h, k);
        PlaceOf(files, h, k);
      }
    }
    if FirstTombstonesProper(files) {
      forall p: nat | IsFirst(all, p)
        ensures ProperId(all[p].id) && all[p].fieldsOk
      {
        var h, k := PlacedIsFirst(files, p);
      }
    }
  }

  lemma EverBuriedMeans(files: seq<Option<seq<Tombstone>>>, id: string)
    ensures Buried(AllTombstones(files), id) <==> EverBuried(files, id)
  {
    var all := AllTombstones(files);
    if Buried(all, id) {
      var p :| 0 <= p < |all| && all[p].Tombstone? && all[p].id == id;
      var h, k := TombstoneAt(files, p);
      assert Buried(files[h].value, id);
    }
    if EverBuried(files, id) {
      var h :| 0 <= h < |files| && files[h].Some? && Buried(files[h].value, id);
      var k :| 0 <= k < |files[h].value| && files[h].value[k].Tombstone? && files[h].value[k].id == id;
      PlaceOf(files, h, k);
    }
  }

  lemma BuriedStays(files: seq<Option<seq<Tombstone>>>, file: seq<Tombstone>)
    ensures TombstoneIds(AllTombstones(files)) <= TombstoneIds(file) <==> forall id :: EverBuried(files, id) ==> Buried(file, id)
  {
    KeepsMeans(AllTombstones(files), file);
    forall id
      ensures Buried(AllTombstones(files), id) <==> EverBuried(files, id)
    {
      EverBuriedMeans(files, id);
    }
  }

  // ---------- the gate ----------

  /** The tip stands on its own, keeps every tombstone of the history and respects every row of it. */
  ghost predicate Promotable(tip: Version, registers: seq<Option<Register>>, files: seq<Option<seq<Tombstone>>>) {
    && |tip.rows| > 0 && Faultless(tip.fields)
    && DistinctIds(tip.rows) && ProperFile(tip.file) && RemovedAreBuried(tip.rows, tip.file)
    && FirstTombstonesProper(files)
    && (forall id :: EverBuried(files, id) ==> Buried(tip.file, id))
    && StandsAfterAll(tip.rows, registers)
  }

  /** The gate passes exactly the promotable tips. */
  lemma GateMeans(tip: Version, registers: seq<Option<Register>>, files: seq<Option<seq<Tombstone>>>)
    ensures GatePasses(tip, registers, files) <==> Promotable(tip, registers, files)
  {
    GateChecksAllHistory(tip, registers, files);
    FaultlessMeans(tip.fields);
    ProperFileMeans(tip.file);
    RemovedMeans(tip.rows, tip.file);
    FirstsMean(AllTombstones(files));
    FirstTombstonesMean(files);
    BuriedStays(files, tip.file);
    StandsMeans(tip.rows, registers);
    assert UniqueIds(tip.rows) <==> DistinctIds(tip.rows);
  }

  // ---------- runs ----------

  /** The version lists the exception as active or planned, with a date. */
  ghost predicate ListedOpen(v: Version, id: string, time: int) {
    exists k :: 0 <= k < |v.rows| && v.rows[k].Row? && v.rows[k].id == id && v.rows[k].expiry == At(time)
                && (v.rows[k].status == Active || v.rows[k].status == Planned)
  }

  lemma ListedOpenMeans(versions: seq<Version>, k: nat, id: string, time: int)
    requires Chain(versions) && k < |versions| && ListedOpen(versions[k], id, time)
    ensures ListsOpen(versions[k], id) && DateOf(versions[k], id) == time
  {
    var v := versions[k];
    assert AcceptedAfter(versions, k);
    var previous, base := if k == 0 then None else Some(versions[k - 1].rows), if k == 0 then None else Some(versions[k - 1].file);
    AcceptedIffConsistent(v.rows, v.fields, v.file, previous, base);
    var a :| 0 <= a < |v.rows| && v.rows[a].Row? && v.rows[a].id == id && v.rows[a].expiry == At(time)
             && (v.rows[a].status == Active || v.rows[a].status == Planned);
    RowOfUnique(v.rows, a);
  }

  /** Checked version by version, an exception that is open and dated in all of them never gets a later date. */
  lemma OpenDatesNeverLater(versions: seq<Version>, i: nat, j: nat, id: string, times: seq<int>)
    requires Chain(versions) && i <= j < |versions| && |times| == |versions|
    requires forall k :: i <= k <= j ==> ListedOpen(versions[k], id, times[k])
    ensures times[j] <= times[i]
  {
    forall k | i <= k <= j
      ensures ListsOpen(versions[k], id) && DateOf(versions[k], id) == times[k]
    {
      ListedOpenMeans(versions, k, id, times[k]);
    }
    ListedDateNeverLater(versions, i, j, id);
  }
}
