/** The chosen winner and the reason for having none, on the fields of the cells alone. */
module WinnerMeaning {
  import opened Wrappers
  import opened Digests
  import opened StringOrder
  import opened WinnerSelection

  // ---------- cells that meet the gates ----------

  /** The longest admissible 95th percentile of the time to the first token, in milliseconds. */
  function TtftLimit(workload: Workload): Option<real> {
    match workload
    case ShortChat => Some(8000.0)
    case MediumWithSystem => Some(12000.0)
    case CodeCompletion => Some(12000.0)
    case AgentStyle => Some(20000.0)
    case LongContext => Some(60000.0)
    case _ => None
  }

  /** The largest context with a draft model. */
  function DraftContext(tier: Tier): int {
    match tier
    case Gb64Plus => 120000
    case Gb32 => 50000
    case Gb16 => 20000
    case Gb8 => 8192
    case _ => 0
  }

  /** The cell could run: it has no draft fields without a draft model, and admissible ones with it. */
  predicate CouldRun(c: Cell) {
    && !c.nonRunnable
    && (c.draftModel == "" ==> c.draftSha == None && c.draftTokens == None)
    && (c.draftModel != "" ==>
          && (|| "local_operator_override:" <= c.candidateSource || "research_fixture:" <= c.candidateSource
              || "static_draft_candidates:" <= c.candidateSource)
          && c.draftSha.Some? && HexCodes(c.draftSha.value)
          && c.draftTokens.Some? && 1 <= c.draftTokens.value <= 16
          && c.maxConcurrency <= 1 && c.maxContext <= DraftContext(c.tier))
  }

  predicate MeetsGates(c: Cell) {
    && CouldRun(c) && c.samples >= 20 && c.leakRate <= 0.0
    && c.p95.Some? && TtftLimit(c.workload).Some? && c.p95.value <= TtftLimit(c.workload).value
  }

  predicate Belongs(c: Cell, workload: Workload, tier: Tier, model: Option<string>) {
    c.workload == workload && c.tier == tier && (model.Some? ==> c.model == model)
  }

  predicate Competes(c: Cell, workload: Workload, tier: Tier, model: Option<string>) {
    Belongs(c, workload, tier, model) && MeetsGates(c)
  }

  lemma RunnableMeans(c: Cell)
    ensures Runnable(c) <==> CouldRun(c)
  {
    if c.draftSha.Some? {
      HexMeans(c.draftSha.value);
    }
  }

  lemma PassesMeans(c: Cell)
    requires Included(c.workload)
    ensures Passes(c, PolicyFor(c.workload)) <==> MeetsGates(c)
  {
    RunnableMeans(c);
  }

  // ---------- the winner ----------

  /** A cell without a measured throughput counts as slower than any other. */
  function Speed(c: Cell): real {
    if c.tps.None? then -1.0 else c.tps.value
  }

  predicate Clean(c: Cell) {
    c.hardFailures == 0 && c.leakRate == 0.0
  }

  /** What a winner recommends. */
  function TupleOf(c: Cell): Recommended {
    var draft := if c.draftModel == "" then None else Some(Draft(c.draftModel, c.draftSha, c.draftTokens));
    Recommended(kvBits := c.kvBits, maxContext := c.maxContext, maxConcurrency := c.maxConcurrency, draft := draft)
  }

  /** One cell is at least as good as another: cleaner, then faster, then sooner, then with less context and concurrency. */
  predicate AtLeastAsGood(w: Cell, c: Cell, ser: Serialize)
    requires w.p95.Some? && c.p95.Some?
  {
    && (Clean(c) ==> Clean(w))
    && (Clean(c) == Clean(w) ==>
          && Speed(w) >= Speed(c)
          && (Speed(w) == Speed(c) ==>
                && w.p95.value <= c.p95.value
                && (w.p95.value == c.p95.value ==>
                      && w.maxContext <= c.maxContext
                      && (w.maxContext == c.maxContext ==>
                            && w.maxConcurrency <= c.maxConcurrency
                            && (w.maxConcurrency == c.maxConcurrency ==>
                                  !Less(ser(TupleOf(c)), ser(TupleOf(w))))))))
  }

  lemma NotBeforeMeans(w: Cell, c: Cell, ser: Serialize)
    requires w.p95.Some? && c.p95.Some?
    ensures !Before(KeyOf(c, ser), KeyOf(w, ser)) <==> AtLeastAsGood(w, c, ser)
  {
  }

  ghost predicate IsWinner(w: Cell, cells: seq<Cell>, workload: Workload, tier: Tier, model: Option<string>, ser: Serialize) {
    && w in cells && Competes(w, workload, tier, model)
    && forall c :: c in cells && Competes(c, workload, tier, model) ==> AtLeastAsGood(w, c, ser)
  }

  lemma CompetesMeans(c: Cell, workload: Workload, tier: Tier, model: Option<string>)
    requires Included(workload)
    ensures InPartition(c, workload, tier, model) <==> Belongs(c, workload, tier, model)
    ensures InPartition(c, workload, tier, model) && Passes(c, PolicyFor(workload)) <==> Competes(c, workload, tier, model)
  {
    if c.workload == workload {
      PassesMeans(c);
    }
  }

  /** There is a winner exactly when some cell competes. */
  lemma WinnerExistsIff(cells: seq<Cell>, workload: Workload, tier: Tier, model: Option<string>, ser: Serialize)
    requires ChoosePartition(cells, workload, tier, model, ser).Some?
    ensures ChoosePartition(cells, workload, tier, model, ser).value.winner.Some? <==>
              exists c :: c in cells && Competes(c, workload, tier, model)
  {
    WinnerIffPassing(cells, workload, tier, model, ser);
    forall c
      ensures InPartition(c, workload, tier, model) && Passes(c, PolicyFor(workload)) <==> Competes(c, workload, tier, model)
    {
      CompetesMeans(c, workload, tier, model);
    }
  }

  lemma WinnerBeats(cells: seq<Cell>, workload: Workload, tier: Tier, model: Option<string>, ser: Serialize, c: Cell)
    requires ChoosePartition(cells, workload, tier, model, ser).Some?
    requires ChoosePartition(cells, workload, tier, model, ser).value.winner.Some?
    ensures var w := ChoosePartition(cells, workload, tier, model, ser).value.winner.value;
            && w in cells && Competes(w, workload, tier, model)
            && (c in cells && Competes(c, workload, tier, model) ==> AtLeastAsGood(w, c, ser))
  {
    var w := ChoosePartition(cells, workload, tier, model, ser).value.winner.value;
    WinnerIsBest(cells, workload, tier, model, ser, c);
    CompetesMeans(w, workload, tier, model);
    CompetesMeans(c, workload, tier, model);
    if Competes(c, workload, tier, model) {
      NotBeforeMeans(w, c, ser);
    }
  }

  /** The winner competes, and it is at least as good as every cell that does. */
  lemma WinnerMeans(cells: seq<Cell>, workload: Workload, tier: Tier, model: Option<string>, ser: Serialize)
    requires ChoosePartition(cells, workload, tier, model, ser).Some?
    requires ChoosePartition(cells, workload, tier, model, ser).value.winner.Some?
    ensures IsWinner(ChoosePartition(cells, workload, tier, model, ser).value.winner.value, cells, workload, tier, model, ser)
  {
    var w := ChoosePartition(cells, workload, tier, model, ser).value.winner.value;
    WinnerBeats(cells, workload, tier, model, ser, w);
    forall c | c in cells && Competes(c, workload, tier, model)
      ensures AtLeastAsGood(w, c, ser)
    {
      WinnerBeats(cells, workload, tier, model, ser, c);
    }
  }

  // ---------- the label ----------

  /** What the label says of the winner and the runner-up. */
  predicate LabelFits(tie: TieBreaker, w: Cell, c: Cell, ser: Serialize)
    requires w.p95.Some? && c.p95.Some?
  {
    match tie
    case OnlyCell => false
    case ZeroFailures => Clean(w) && !Clean(c)
    case HigherTps => Clean(w) == Clean(c) && Speed(w) > Speed(c)
    case LowerTtft => Clean(w) == Clean(c) && Speed(w) == Speed(c) && w.p95.value < c.p95.value
    case LowerContext =>
      Clean(w) == Clean(c) && Speed(w) == Speed(c) && w.p95 == c.p95 && w.maxContext < c.maxContext
    case LowerConcurrency =>
      && Clean(w) == Clean(c) && Speed(w) == Speed(c) && w.p95 == c.p95 && w.maxContext == c.maxContext
      && w.maxConcurrency < c.maxConcurrency
    case LexicalTuple =>
      && Clean(w) == Clean(c) && Speed(w) == Speed(c) && w.p95 == c.p95 && w.maxContext == c.maxContext
      && w.maxConcurrency == c.maxConcurrency && Less(ser(TupleOf(w)), ser(TupleOf(c)))
    case DeterministicTie =>
      && Clean(w) == Clean(c) && Speed(w) == Speed(c) && w.p95 == c.p95 && w.maxContext == c.maxContext
      && w.maxConcurrency == c.maxConcurrency && ser(TupleOf(w)) == ser(TupleOf(c))
  }

  lemma FirstDifferenceMeans(w: Cell, c: Cell, ser: Serialize)
    requires w.p95.Some? && c.p95.Some? && AtLeastAsGood(w, c, ser)
    ensures LabelFits(FirstDifference(KeyOf(w, ser), KeyOf(c, ser)), w, c, ser)
  {
    LessTotal(ser(TupleOf(w)), ser(TupleOf(c)));
  }

  /** The cells that a predicate selects, each as often as it is listed. */
  ghost predicate Selects(chosen: seq<Cell>, cells: seq<Cell>, keep: Cell -> bool) {
    forall c :: multiset(chosen)[c] == if keep(c) then multiset(cells)[c] else 0
  }

  lemma MemberCompetes(competing: seq<Cell>, cells: seq<Cell>, keep: Cell -> bool, i: nat)
    requires Selects(competing, cells, keep) && i < |competing|
    ensures keep(competing[i])
  {
    assert competing[i] in multiset(competing);
  }

  /** The positions of the least key and of the least of the others. */
  lemma RunnerUpKeys(keys: seq<Key>) returns (i: nat, j: nat)
    requires |keys| > 1
    ensures i == LeastAt(keys) && j < |keys| && i != j && TieBreakerOf(keys) == FirstDifference(keys[i], keys[j])
    ensures !Before(keys[j], keys[i]) && forall k :: 0 <= k < |keys| && k != i ==> !Before(keys[k], keys[j])
  {
    i := LeastAt(keys);
    var others := Others(keys);
    var p := LeastAt(others);
    j := if p < i then p else p + 1;
    assert others[p] == keys[j];
    LeastAtIsLeast(keys, j);
    forall k | 0 <= k < |keys| && k != i
      ensures !Before(keys[k], keys[j])
    {
      var q := if k < i then k else k - 1;
      assert others[q] == keys[k];
      LeastAtIsLeast(others, q);
    }
  }

  /** The winner is a least of the competing cells, and the runner-up a least of the others. */
  lemma RunnerUp(competing: seq<Cell>, ser: Serialize) returns (i: nat, j: nat)
    requires |competing| > 1 && forall k :: 0 <= k < |competing| ==> competing[k].p95.Some?
    ensures i < |competing| && j < |competing| && i != j && competing[i] == FirstLeast(competing, ser)
    ensures LabelFits(TieBreakerOf(Keys(competing, ser)), competing[i], competing[j], ser)
    ensures forall k :: 0 <= k < |competing| && k != i ==> AtLeastAsGood(competing[j], competing[k], ser)
  {
    i, j := RunnerUpKeys(Keys(competing, ser));
    NotBeforeMeans(competing[i], competing[j], ser);
    FirstDifferenceMeans(competing[i], competing[j], ser);
    forall k | 0 <= k < |competing| && k != i
      ensures AtLeastAsGood(competing[j], competing[k], ser)
    {
      NotBeforeMeans(competing[j], competing[k], ser);
    }
  }

  lemma CompetingIs(cells: seq<Cell>, workload: Workload, tier: Tier, model: Option<string>)
    requires Included(workload)
    ensures Selects(Passing(Partition(cells, workload, tier, model), PolicyFor(workload)), cells,
                    c => Competes(c, workload, tier, model))
  {
    forall c
      ensures multiset(Passing(Partition(cells, workload, tier, model), PolicyFor(workload)))[c] ==
                if Competes(c, workload, tier, model) then multiset(cells)[c] else 0
    {
      PassingExact(Partition(cells, workload, tier, model), PolicyFor(workload), c);
      PartitionExact(cells, workload, tier, model, c);
      CompetesMeans(c, workload, tier, model);
    }
  }

  /** What the tie-breaker label says: how the winner beats the best of the other competing cells. */
  lemma LabelMeans(cells: seq<Cell>, workload: Workload, tier: Tier, model: Option<string>, ser: Serialize)
    returns (competing: seq<Cell>, i: nat, j: nat)
    requires ChoosePartition(cells, workload, tier, model, ser).Some?
    requires ChoosePartition(cells, workload, tier, model, ser).value.winner.Some?
    ensures Selects(competing, cells, c => Competes(c, workload, tier, model))
    ensures forall k :: 0 <= k < |competing| ==> competing[k].p95.Some?
    ensures var s := ChoosePartition(cells, workload, tier, model, ser).value;
            && s.tie.Some? && (s.tie.value == OnlyCell <==> |competing| == 1)
            && i < |competing| && competing[i] == s.winner.value
            && (|competing| != 1 ==>
                  && j < |competing| && i != j && LabelFits(s.tie.value, competing[i], competing[j], ser)
                  && forall k :: 0 <= k < |competing| && k != i ==> AtLeastAsGood(competing[j], competing[k], ser))
  {
    competing := Passing(Partition(cells, workload, tier, model), PolicyFor(workload));
    CompetingIs(cells, workload, tier, model);
    forall k | 0 <= k < |competing|
      ensures competing[k].p95.Some?
    {
      MemberCompetes(competing, cells, c => Competes(c, workload, tier, model), k);
    }
    if |competing| == 1 {
      i, j := 0, 0;
    } else {
      i, j := RunnerUp(competing, ser);
    }
  }

  // ---------- no winner ----------

  /** A cell of the partition that ran has so many successful samples. */
  ghost predicate SomeRan(cells: seq<Cell>, workload: Workload, tier: Tier, model: Option<string>, least: int) {
    exists c :: c in cells && Belongs(c, workload, tier, model) && CouldRun(c) && c.samples >= least
  }

  lemma RanMeans(c: Cell, policy: GatePolicy)
    requires policy.minSamples == 20
    ensures Produced(c) <==> CouldRun(c) && c.samples >= 1
    ensures ReachedMin(c, policy) <==> CouldRun(c) && c.samples >= 20
  {
    RunnableMeans(c);
  }

  lemma PartitionIs(cells: seq<Cell>, workload: Workload, tier: Tier, model: Option<string>)
    ensures forall c :: c in Partition(cells, workload, tier, model) <==> c in cells && Belongs(c, workload, tier, model)
    ensures Selects(Partition(cells, workload, tier, model), cells, c => Belongs(c, workload, tier, model))
  {
    forall c
      ensures c in Partition(cells, workload, tier, model) <==> c in cells && Belongs(c, workload, tier, model)
      ensures multiset(Partition(cells, workload, tier, model))[c] == if Belongs(c, workload, tier, model) then multiset(cells)[c] else 0
    {
      PartitionExact(cells, workload, tier, model, c);
    }
  }

  lemma SomeRanMeans(cells: seq<Cell>, workload: Workload, tier: Tier, model: Option<string>, policy: GatePolicy)
    requires policy.minSamples == 20
    ensures AnyProduced(Partition(cells, workload, tier, model)) <==> SomeRan(cells, workload, tier, model, 1)
    ensures AnyReachedMin(Partition(cells, workload, tier, model), policy) <==> SomeRan(cells, workload, tier, model, 20)
  {
    var partition := Partition(cells, workload, tier, model);
    PartitionIs(cells, workload, tier, model);
    if AnyProduced(partition) {
      var c :| c in partition && Produced(c);
      RanMeans(c, policy);
    }
    if AnyReachedMin(partition, policy) {
      var c :| c in partition && ReachedMin(c, policy);
      RanMeans(c, policy);
    }
    forall c | c in partition && CouldRun(c)
      ensures (c.samples >= 1 ==> Produced(c)) && (c.samples >= 20 ==> ReachedMin(c, policy))
    {
      RanMeans(c, policy);
    }
  }

  /** Why there is no winner. */
  lemma ReasonMeans(cells: seq<Cell>, workload: Workload, tier: Tier, model: Option<string>, ser: Serialize)
    requires ChoosePartition(cells, workload, tier, model, ser).Some?
    requires ChoosePartition(cells, workload, tier, model, ser).value.winner.None?
    ensures ChoosePartition(cells, workload, tier, model, ser).value.reason == Some(
              if forall c :: c in cells ==> !Belongs(c, workload, tier, model) then NoCellsEvaluated
              else if SomeRan(cells, workload, tier, model, 20) then GateUnmet
              else if SomeRan(cells, workload, tier, model, 1) then InsufficientSamples
              else HardFailure)
  {
    var partition := Partition(cells, workload, tier, model);
    SomeRanMeans(cells, workload, tier, model, PolicyFor(workload));
    PartitionIs(cells, workload, tier, model);
    if partition != [] {
      assert partition[0] in partition;
    }
  }

  /** The reported count: the most successful samples of a cell of the partition that ran. */
  lemma CountMeans(cells: seq<Cell>, workload: Workload, tier: Tier, model: Option<string>, ser: Serialize)
    requires ChoosePartition(cells, workload, tier, model, ser).Some?
    ensures var highest := ChoosePartition(cells, workload, tier, model, ser).value.highest;
            && highest >= 0 && !SomeRan(cells, workload, tier, model, highest + 1)
            && (highest > 0 ==> SomeRan(cells, workload, tier, model, highest))
  {
    var partition := Partition(cells, workload, tier, model);
    HighestIsMaximum(partition);
    PartitionIs(cells, workload, tier, model);
    forall c
      ensures Produced(c) <==> CouldRun(c) && c.samples >= 1
    {
      RanMeans(c, PolicyFor(workload));
    }
  }

  /** When a choice is made at all, and how many cells it looks at. */
  lemma ChoiceMeans(cells: seq<Cell>, workload: Workload, tier: Tier, model: Option<string>, ser: Serialize) returns (partition: seq<Cell>)
    ensures Selects(partition, cells, c => Belongs(c, workload, tier, model))
    ensures ChoosePartition(cells, workload, tier, model, ser).Some? <==>
              && TtftLimit(workload).Some? && !tier.OtherTier?
              && (model.None? ==> forall a, b :: a in partition && b in partition ==> a.model == b.model)
    ensures ChoosePartition(cells, workload, tier, model, ser).Some? ==>
              ChoosePartition(cells, workload, tier, model, ser).value.evaluated == |partition|
  {
    partition := Partition(cells, workload, tier, model);
    PartitionIs(cells, workload, tier, model);
    assert OneModel(partition) <==> forall a, b :: a in partition && b in partition ==> a.model == b.model;
  }
}
