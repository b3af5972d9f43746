/** How the sweep picks a winning cell for one workload and memory tier. */
module WinnerSelection {
  import opened Wrappers
  import opened Digests
  import opened StringOrder

  datatype Workload =
    | ShortChat | MediumWithSystem | LongContext | CodeCompletion | AgentStyle
    | StreamingCheck
    | OtherWorkload(name: string)

  datatype Tier = Gb8 | Gb16 | Gb32 | Gb64Plus | OtherTier(name: string)

  datatype GatePolicy = GatePolicy(minSamples: int, maxP95: real, maxLeakRate: real, minMedianTps: Option<real>)

  /** An absent draft model or candidate source is the empty string. */
  datatype Cell = Cell(
    workload: Workload, tier: Tier, kvBits: int, maxContext: int, maxConcurrency: int,
    samples: int, p95: Option<real>, tps: Option<real>, leakRate: real, hardFailures: int, nonRunnable: bool,
    draftModel: string, draftSha: Option<string>, draftTokens: Option<int>, acceptance: Option<real>,
    candidateSource: string, model: Option<string>)

  datatype Draft = Draft(model: string, sha: Option<string>, tokens: Option<int>)

  datatype Recommended = Recommended(kvBits: int, maxContext: int, maxConcurrency: int, draft: Option<Draft>)

  predicate Included(workload: Workload) {
    !workload.StreamingCheck? && !workload.OtherWorkload?
  }

  function MaxP95(workload: Workload): real
    requires Included(workload)
  {
    match workload
    case ShortChat => 8000.0
    case MediumWithSystem => 12000.0
    case LongContext => 60000.0
    case CodeCompletion => 12000.0
    case AgentStyle => 20000.0
  }

  function PolicyFor(workload: Workload): GatePolicy
    requires Included(workload)
  {
    GatePolicy(20, MaxP95(workload), 0.0, None)
  }

  // ---------- gates ----------

  function ContextCap(tier: Tier): int {
    match tier
    case Gb8 => 8192
    case Gb16 => 20000
    case Gb32 => 50000
    case Gb64Plus => 120000
    case OtherTier(_) => 0   // the lookup fails; no partition has such a tier
  }

  predicate ApprovedSource(source: string) {
    "static_draft_candidates:" <= source || "research_fixture:" <= source || "local_operator_override:" <= source
  }

  predicate DraftOk(cell: Cell) {
    if cell.draftModel == "" then cell.draftSha.None? && cell.draftTokens.None?
    else
      && ApprovedSource(cell.candidateSource)
      && cell.draftSha.Some? && Hex64(cell.draftSha.value)
      && cell.draftTokens.Some? && 1 <= cell.draftTokens.value <= 16
      && cell.maxConcurrency <= 1
      && cell.maxContext <= ContextCap(cell.tier)
  }

  predicate Runnable(cell: Cell) {
    !cell.nonRunnable && DraftOk(cell)
  }

  predicate Produced(cell: Cell) {
    cell.samples > 0 && Runnable(cell)
  }

  predicate HardFailed(cell: Cell) {
    !Runnable(cell) || cell.samples == 0
  }

  predicate ReachedMin(cell: Cell, policy: GatePolicy) {
    Produced(cell) && cell.samples >= policy.minSamples
  }

  predicate Passes(cell: Cell, policy: GatePolicy) {
    && ReachedMin(cell, policy)
    && cell.p95.Some? && cell.p95.value <= policy.maxP95
    && cell.leakRate <= policy.maxLeakRate
    && Runnable(cell)
  }

  function RecommendedOf(cell: Cell): Recommended {
    Recommended(cell.kvBits, cell.maxContext, cell.maxConcurrency,
                if cell.draftModel == "" then None else Some(Draft(cell.draftModel, cell.draftSha, cell.draftTokens)))
  }

  // ---------- the order of winners ----------

  /** The JSON text of a recommended tuple, left open; different tuples have different texts. */
  type Serialize = Recommended -> string

  ghost predicate Injective(ser: Serialize) {
    forall a, b :: ser(a) == ser(b) ==> a == b
  }

  /** A missing time to first token counts as infinite. */
  datatype Key = Key(unclean: int, negatedTps: real, p95: Option<real>, context: int, concurrency: int, text: string)

  function KeyOf(cell: Cell, ser: Serialize): Key {
    Key(if cell.hardFailures == 0 && cell.leakRate == 0.0 then 0 else 1,
        if cell.tps.Some? then -cell.tps.value else 1.0,
        cell.p95, cell.maxContext, cell.maxConcurrency, ser(RecommendedOf(cell)))
  }

  predicate Sooner(a: Option<real>, b: Option<real>) {
    a.Some? && (b.None? || a.value < b.value)
  }

  /** Tuples compare component by component. */
  predicate Before(a: Key, b: Key) {
    || a.unclean < b.unclean
    || (a.unclean == b.unclean && (
        || a.negatedTps < b.negatedTps
        || (a.negatedTps == b.negatedTps && (
            || Sooner(a.p95, b.p95)
            || (a.p95 == b.p95 && (
                || a.context < b.context
                || (a.context == b.context && (
                    || a.concurrency < b.concurrency
                    || (a.concurrency == b.concurrency && Less(a.text, b.text))))))))))
  }

  lemma BeforeTotal(a: Key, b: Key)
    ensures a == b || Before(a, b) || Before(b, a)
  {
    LessTotal(a.text, b.text);
  }

  lemma BeforeAsymmetric(a: Key, b: Key)
    requires Before(a, b)
    ensures a != b && !Before(b, a)
  {
    if Less(a.text, b.text) {
      LessAsymmetric(a.text, b.text);
    }
  }

  lemma BeforeTransitive(a: Key, b: Key, c: Key)
    requires Before(a, b) && Before(b, c)
    ensures Before(a, c)
  {
    if Less(a.text, b.text) && Less(b.text, c.text) {
      LessTransitive(a.text, b.text, c.text);
    }
  }

  /** The head of the stably sorted list: the first cell that no other comes before. */
  function FirstLeast(cells: seq<Cell>, ser: Serialize): (r: Cell)
    requires cells != []
    ensures r in cells
  {
    cells[LeastAt(Keys(cells, ser))]
  }

  /** No cell comes before the chosen one. */
  lemma FirstLeastIsLeast(cells: seq<Cell>, ser: Serialize, i: nat)
    requires i < |cells|
    ensures !Before(KeyOf(cells[i], ser), KeyOf(FirstLeast(cells, ser), ser))
  {
    LeastAtIsLeast(Keys(cells, ser), i);
  }

  /** The key of the chosen cell, and so its recommended tuple, do not depend on the order of the cells. */
  lemma ChoiceIgnoresOrder(cells: seq<Cell>, shuffled: seq<Cell>, ser: Serialize)
    requires cells != [] && shuffled != [] && SameCells(cells, shuffled)
    ensures KeyOf(FirstLeast(cells, ser), ser) == KeyOf(FirstLeast(shuffled, ser), ser)
    ensures Injective(ser) ==> RecommendedOf(FirstLeast(cells, ser)) == RecommendedOf(FirstLeast(shuffled, ser))
  {
    var a, b := FirstLeast(cells, ser), FirstLeast(shuffled, ser);
    var i :| 0 <= i < |shuffled| && shuffled[i] == a;
    var j :| 0 <= j < |cells| && cells[j] == b;
    FirstLeastIsLeast(shuffled, ser, i);
    FirstLeastIsLeast(cells, ser, j);
    BeforeTotal(KeyOf(a, ser), KeyOf(b, ser));
  }

  // ---------- the tie-breaker label ----------

  datatype TieBreaker =
    | OnlyCell | ZeroFailures | HigherTps | LowerTtft | LowerContext | LowerConcurrency | LexicalTuple | DeterministicTie

  function Keys(cells: seq<Cell>, ser: Serialize): (r: seq<Key>)
    ensures |r| == |cells| && forall i :: 0 <= i < |cells| ==> r[i] == KeyOf(cells[i], ser)
  {
    seq(|cells|, i requires 0 <= i < |cells| => KeyOf(cells[i], ser))
  }

  /** Where the first of the least keys stands. */
  function LeastAt(keys: seq<Key>): (r: nat)
    requires keys != []
    ensures r < |keys|
  {
    var n := |keys| - 1;
    if n == 0 then 0
    else
      var best := LeastAt(keys[..n]);
      if Before(keys[n], keys[best]) then n else best
  }

  function Drop<T>(s: seq<T>, i: nat): seq<T>
    requires i < |s|
  {
    s[..i] + s[i + 1..]
  }

  /** The keys behind the first one in sorted order. */
  function Others(keys: seq<Key>): seq<Key>
    requires keys != []
  {
    Drop(keys, LeastAt(keys))
  }

  /** The first component in which the winner's key differs from the runner-up's. */
  function FirstDifference(a: Key, b: Key): TieBreaker {
    if a.unclean != b.unclean then ZeroFailures
    else if a.negatedTps != b.negatedTps then HigherTps
    else if a.p95 != b.p95 then LowerTtft
    else if a.context != b.context then LowerContext
    else if a.concurrency != b.concurrency then LowerConcurrency
    else if a.text != b.text then LexicalTuple
    else DeterministicTie
  }

  /** `_tie_breaker_reason`, on the sort keys of the winners. */
  function TieBreakerOf(keys: seq<Key>): TieBreaker
    requires keys != []
  {
    if |keys| == 1 then OnlyCell
    else FirstDifference(keys[LeastAt(keys)], Others(keys)[LeastAt(Others(keys))])
  }

  lemma {:induction false} LeastAtIsLeast(keys: seq<Key>, i: nat)
    requires i < |keys|
    ensures !Before(keys[i], keys[LeastAt(keys)])
    decreases |keys|
  {
    var n := |keys| - 1;
    if i == n {
      if Before(keys[n], keys[n]) {
        BeforeAsymmetric(keys[n], keys[n]);
      }
    } else {
      LeastAtIsLeast(keys[..n], i);
      var best := keys[LeastAt(keys[..n])];
      if Before(keys[n], best) && Before(keys[i], keys[n]) {
        BeforeTransitive(keys[i], keys[n], best);
      }
    }
  }

  lemma LeastKeyOfMultiset(keys: seq<Key>, shuffled: seq<Key>)
    requires multiset(keys) == multiset(shuffled) && keys != [] && shuffled != []
    ensures keys[LeastAt(keys)] == shuffled[LeastAt(shuffled)]
  {
    var a, b := keys[LeastAt(keys)], shuffled[LeastAt(shuffled)];
    assert a in multiset(keys) && b in multiset(shuffled);
    assert a in shuffled && b in keys;
    var i :| 0 <= i < |shuffled| && shuffled[i] == a;
    var j :| 0 <= j < |keys| && keys[j] == b;
    LeastAtIsLeast(shuffled, i);
    LeastAtIsLeast(keys, j);
    BeforeTotal(a, b);
  }

  lemma WithoutOne<T>(s: seq<T>, i: nat)
    requires i < |s|
    ensures multiset(Drop(s, i)) == multiset(s) - multiset{s[i]}
    ensures multiset(s) == multiset(Drop(s, i)) + multiset{s[i]}
  {
    assert s == s[..i] + ([s[i]] + s[i + 1..]);
  }

  lemma TieBreakerIgnoresOrder(keys: seq<Key>, shuffled: seq<Key>)
    requires multiset(keys) == multiset(shuffled) && keys != [] && shuffled != []
    ensures TieBreakerOf(keys) == TieBreakerOf(shuffled)
  {
    assert |keys| == |multiset(keys)| == |multiset(shuffled)| == |shuffled|;
    LeastKeyOfMultiset(keys, shuffled);
    if |keys| > 1 {
      WithoutOne(keys, LeastAt(keys));
      WithoutOne(shuffled, LeastAt(shuffled));
      LeastKeyOfMultiset(Others(keys), Others(shuffled));
    }
  }

  lemma KeysWithoutOne(cells: seq<Cell>, i: nat, ser: Serialize)
    requires i < |cells|
    ensures multiset(Keys(cells, ser)) == multiset(Keys(Drop(cells, i), ser)) + multiset{KeyOf(cells[i], ser)}
  {
    WithoutOne(Keys(cells, ser), i);
    assert Drop(Keys(cells, ser), i) == Keys(Drop(cells, i), ser);
  }

  lemma {:induction false} KeysOfMultiset(cells: seq<Cell>, shuffled: seq<Cell>, ser: Serialize)
    requires multiset(cells) == multiset(shuffled)
    ensures multiset(Keys(cells, ser)) == multiset(Keys(shuffled, ser))
    decreases |cells|
  {
    assert |cells| == |multiset(cells)| == |multiset(shuffled)| == |shuffled|;
    if cells == [] {
      assert Keys(cells, ser) == Keys(shuffled, ser);
    } else {
      assert cells[0] in multiset(shuffled);
      var j :| 0 <= j < |shuffled| && shuffled[j] == cells[0];
      WithoutOne(cells, 0);
      WithoutOne(shuffled, j);
      KeysOfMultiset(Drop(cells, 0), Drop(shuffled, j), ser);
      KeysWithoutOne(cells, 0, ser);
      KeysWithoutOne(shuffled, j, ser);
    }
  }

  // ---------- selection ----------

  datatype Reason = InsufficientSamples | GateUnmet | HardFailure | NoCellsEvaluated

  datatype Selection = Selection(
    policy: GatePolicy, winner: Option<Cell>, reason: Option<Reason>, evaluated: nat, highest: int, tie: Option<TieBreaker>)

  predicate InPartition(cell: Cell, workload: Workload, tier: Tier, model: Option<string>) {
    cell.workload == workload && cell.tier == tier && (model.None? || cell.model == model)
  }

  function Filter<T>(s: seq<T>, keep: T -> bool): seq<T> {
    if s == [] then []
    else
      var before, last := Filter(s[..|s| - 1], keep), s[|s| - 1];
      if keep(last) then before + [last] else before
  }

  lemma {:induction false} FilterCount<T>(s: seq<T>, keep: T -> bool, x: T)
    ensures multiset(Filter(s, keep))[x] == if keep(x) then multiset(s)[x] else 0
    ensures x in Filter(s, keep) <==> x in s && keep(x)
    decreases |s|
  {
    if s != [] {
      var init, last := s[..|s| - 1], s[|s| - 1];
      FilterCount(init, keep, x);
      assert s == init + [last];
    }
  }

  function Partition(cells: seq<Cell>, workload: Workload, tier: Tier, model: Option<string>): seq<Cell> {
    Filter(cells, c => InPartition(c, workload, tier, model))
  }

  function Passing(cells: seq<Cell>, policy: GatePolicy): seq<Cell> {
    Filter(cells, c => Passes(c, policy))
  }

  /** The most samples any productive cell got; 0 when there is none. */
  function Highest(cells: seq<Cell>): int {
    if cells == [] then 0
    else
      var before, last := Highest(cells[..|cells| - 1]), cells[|cells| - 1];
      if Produced(last) && last.samples > before then last.samples else before
  }

  predicate AnyProduced(cells: seq<Cell>) {
    exists c :: c in cells && Produced(c)
  }

  predicate AnyReachedMin(cells: seq<Cell>, policy: GatePolicy) {
    exists c :: c in cells && ReachedMin(c, policy)
  }

  predicate AllHardFailed(cells: seq<Cell>) {
    forall c :: c in cells ==> HardFailed(c)
  }

  /** `no_winner_reason_for_cells`, with its fall-through kept. */
  function ReasonFor(cells: seq<Cell>, policy: GatePolicy): Reason {
    if cells == [] then NoCellsEvaluated
    else if AllHardFailed(cells) then HardFailure
    else if AnyProduced(cells) && !AnyReachedMin(cells, policy) then InsufficientSamples
    else if AnyReachedMin(cells, policy) then GateUnmet
    else HardFailure
  }

  predicate OneModel(cells: seq<Cell>) {
    forall a, b :: a in cells && b in cells ==> a.model == b.model
  }

  function SelectFrom(partition: seq<Cell>, policy: GatePolicy, model: Option<string>, ser: Serialize): Option<Selection> {
    if partition == [] then Some(Selection(policy, None, Some(NoCellsEvaluated), 0, 0, None))
    else if model.None? && !OneModel(partition) then None
    else
      var passing := Passing(partition, policy);
      if passing != [] then
        Some(Selection(policy, Some(FirstLeast(passing, ser)), None, |partition|, Highest(partition), Some(TieBreakerOf(Keys(passing, ser)))))
      else Some(Selection(policy, None, Some(ReasonFor(partition, policy)), |partition|, Highest(partition), None))
  }

  /** `choose_partition`; nothing is returned where the source raises. */
  function ChoosePartition(cells: seq<Cell>, workload: Workload, tier: Tier, model: Option<string>, ser: Serialize): Option<Selection> {
    if !Included(workload) || tier.OtherTier? then None
    else SelectFrom(Partition(cells, workload, tier, model), PolicyFor(workload), model, ser)
  }

  lemma PartitionExact(cells: seq<Cell>, workload: Workload, tier: Tier, model: Option<string>, c: Cell)
    ensures c in Partition(cells, workload, tier, model) <==> c in cells && InPartition(c, workload, tier, model)
    ensures multiset(Partition(cells, workload, tier, model))[c] == if InPartition(c, workload, tier, model) then multiset(cells)[c] else 0
  {
    FilterCount(cells, c => InPartition(c, workload, tier, model), c);
  }

  lemma PassingExact(cells: seq<Cell>, policy: GatePolicy, c: Cell)
    ensures c in Passing(cells, policy) <==> c in cells && Passes(c, policy)
    ensures multiset(Passing(cells, policy))[c] == if Passes(c, policy) then multiset(cells)[c] else 0
  {
    FilterCount(cells, c => Passes(c, policy), c);
  }

  /** The highest count is 0 without a productive cell, and otherwise the maximum over them. */
  lemma {:induction false} HighestIsMaximum(cells: seq<Cell>)
    ensures !AnyProduced(cells) ==> Highest(cells) == 0
    ensures AnyProduced(cells) ==> Highest(cells) > 0 && exists c :: c in cells && Produced(c) && c.samples == Highest(cells)
    ensures forall c :: c in cells && Produced(c) ==> c.samples <= Highest(cells)
    decreases |cells|
  {
    if cells != [] {
      var init, last := cells[..|cells| - 1], cells[|cells| - 1];
      HighestIsMaximum(init);
      assert cells == init + [last];
      assert last in cells;
    }
  }

  lemma HighestReachesMin(cells: seq<Cell>, policy: GatePolicy)
    requires policy.minSamples > 0
    ensures AnyReachedMin(cells, policy) <==> Highest(cells) >= policy.minSamples
  {
    HighestIsMaximum(cells);
  }

  /** The winner passes every gate of its partition, and no passing cell of the partition comes before it. */
  lemma WinnerIsBest(cells: seq<Cell>, workload: Workload, tier: Tier, model: Option<string>, ser: Serialize, c: Cell)
    requires ChoosePartition(cells, workload, tier, model, ser).Some?
    requires ChoosePartition(cells, workload, tier, model, ser).value.winner.Some?
    ensures var winner := ChoosePartition(cells, workload, tier, model, ser).value.winner.value;
            && winner in cells && InPartition(winner, workload, tier, model) && Passes(winner, PolicyFor(workload))
            && (c in cells && InPartition(c, workload, tier, model) && Passes(c, PolicyFor(workload)) ==>
                  !Before(KeyOf(c, ser), KeyOf(winner, ser)))
  {
    var partition, policy := Partition(cells, workload, tier, model), PolicyFor(workload);
    var passing := Passing(partition, policy);
    var winner := FirstLeast(passing, ser);
    PassingExact(partition, policy, winner);
    PartitionExact(cells, workload, tier, model, winner);
    PassingExact(partition, policy, c);
    PartitionExact(cells, workload, tier, model, c);
    if c in passing {
      var i :| 0 <= i < |passing| && passing[i] == c;
      FirstLeastIsLeast(passing, ser, i);
    }
  }

  /** There is a winner exactly when some cell of the partition passes the gates. */
  lemma WinnerIffPassing(cells: seq<Cell>, workload: Workload, tier: Tier, model: Option<string>, ser: Serialize)
    requires ChoosePartition(cells, workload, tier, model, ser).Some?
    ensures ChoosePartition(cells, workload, tier, model, ser).value.winner.Some? <==>
              exists c :: c in cells && InPartition(c, workload, tier, model) && Passes(c, PolicyFor(workload))
  {
    var partition, policy := Partition(cells, workload, tier, model), PolicyFor(workload);
    var passing := Passing(partition, policy);
    forall c
      ensures c in passing <==> c in cells && InPartition(c, workload, tier, model) && Passes(c, policy)
    {
      PassingExact(partition, policy, c);
      PartitionExact(cells, workload, tier, model, c);
    }
    if passing != [] {
      assert passing[0] in passing;
    }
  }

  predicate SameCells(p: seq<Cell>, q: seq<Cell>) {
    (forall c :: c in p ==> c in q) && (forall c :: c in q ==> c in p)
  }

  lemma SameCellsSameFacts(p: seq<Cell>, q: seq<Cell>, policy: GatePolicy)
    requires SameCells(p, q)
    ensures p == [] <==> q == []
    ensures OneModel(p) <==> OneModel(q)
    ensures ReasonFor(p, policy) == ReasonFor(q, policy)
  {
    assert p != [] ==> p[0] in q;
    assert q != [] ==> q[0] in p;
    assert AllHardFailed(p) <==> AllHardFailed(q);
    assert AnyProduced(p) <==> AnyProduced(q);
    assert AnyReachedMin(p, policy) <==> AnyReachedMin(q, policy);
  }

  lemma SameCellsSameHighest(p: seq<Cell>, q: seq<Cell>)
    requires SameCells(p, q)
    ensures Highest(p) == Highest(q)
  {
    HighestIsMaximum(p);
    HighestIsMaximum(q);
  }

  lemma SameCellsSamePassing(p: seq<Cell>, q: seq<Cell>, policy: GatePolicy)
    requires SameCells(p, q)
    ensures SameCells(Passing(p, policy), Passing(q, policy))
  {
    forall c
      ensures c in Passing(p, policy) <==> c in Passing(q, policy)
    {
      PassingExact(p, policy, c);
      PassingExact(q, policy, c);
    }
  }

  predicate SameVerdict(a: Option<Selection>, b: Option<Selection>) {
    && (a.Some? <==> b.Some?)
    && (a.Some? ==>
          && a.value.policy == b.value.policy && a.value.reason == b.value.reason && a.value.highest == b.value.highest
          && (a.value.winner.Some? <==> b.value.winner.Some?)
          && (a.value.winner.Some? ==> RecommendedOf(a.value.winner.value) == RecommendedOf(b.value.winner.value)))
  }

  lemma SelectFromIgnoresOrder(p: seq<Cell>, q: seq<Cell>, policy: GatePolicy, model: Option<string>, ser: Serialize)
    requires Injective(ser) && SameCells(p, q)
    ensures SameVerdict(SelectFrom(p, policy, model, ser), SelectFrom(q, policy, model, ser))
  {
    SameCellsSameFacts(p, q, policy);
    SameCellsSameHighest(p, q);
    SameCellsSamePassing(p, q, policy);
    var x, y := Passing(p, policy), Passing(q, policy);
    SameCellsSameFacts(x, y, policy);
    if x != [] {
      ChoiceIgnoresOrder(x, y, ser);
    }
  }

  /** The same cells in another order give the same verdict, and recommend the same tuple. */
  lemma SelectionIgnoresOrder(cells: seq<Cell>, shuffled: seq<Cell>, workload: Workload, tier: Tier, model: Option<string>, ser: Serialize)
    requires Injective(ser) && SameCells(cells, shuffled)
    ensures SameVerdict(ChoosePartition(cells, workload, tier, model, ser), ChoosePartition(shuffled, workload, tier, model, ser))
  {
    if Included(workload) {
      var p, q := Partition(cells, workload, tier, model), Partition(shuffled, workload, tier, model);
      forall c
        ensures c in p <==> c in q
      {
        PartitionExact(cells, workload, tier, model, c);
        PartitionExact(shuffled, workload, tier, model, c);
      }
      SelectFromIgnoresOrder(p, q, PolicyFor(workload), model, ser);
    }
  }

  lemma SelectFromPermuted(p: seq<Cell>, q: seq<Cell>, policy: GatePolicy, model: Option<string>, ser: Serialize)
    requires multiset(p) == multiset(q)
    ensures SelectFrom(p, policy, model, ser).Some? && SelectFrom(q, policy, model, ser).Some? ==>
              && SelectFrom(p, policy, model, ser).value.evaluated == SelectFrom(q, policy, model, ser).value.evaluated
              && SelectFrom(p, policy, model, ser).value.tie == SelectFrom(q, policy, model, ser).value.tie
  {
    assert |p| == |multiset(p)| == |multiset(q)| == |q|;
    var x, y := Passing(p, policy), Passing(q, policy);
    forall c
      ensures multiset(x)[c] == multiset(y)[c]
    {
      PassingExact(p, policy, c);
      PassingExact(q, policy, c);
    }
    assert multiset(x) == multiset(y);
    assert |x| == |multiset(x)| == |multiset(y)| == |y|;
    if x != [] {
      KeysOfMultiset(x, y, ser);
      TieBreakerIgnoresOrder(Keys(x, ser), Keys(y, ser));
    }
  }

  /** A permutation of the cells moreover leaves the number of cells and the tie-breaker label alone. */
  lemma SelectionOfPermutation(cells: seq<Cell>, shuffled: seq<Cell>, workload: Workload, tier: Tier, model: Option<string>, ser: Serialize)
    requires Injective(ser) && multiset(cells) == multiset(shuffled)
    ensures var a, b := ChoosePartition(cells, workload, tier, model, ser), ChoosePartition(shuffled, workload, tier, model, ser);
            SameVerdict(a, b) && (a.Some? ==> a.value.evaluated == b.value.evaluated && a.value.tie == b.value.tie)
  {
    forall c
      ensures c in cells <==> c in shuffled
    {
      assert c in multiset(cells) <==> c in multiset(shuffled);
    }
    SelectionIgnoresOrder(cells, shuffled, workload, tier, model, ser);
    if Included(workload) {
      var p, q := Partition(cells, workload, tier, model), Partition(shuffled, workload, tier, model);
      forall c
        ensures multiset(p)[c] == multiset(q)[c]
      {
        PartitionExact(cells, workload, tier, model, c);
        PartitionExact(shuffled, workload, tier, model, c);
      }
      assert multiset(p) == multiset(q);
      SelectFromPermuted(p, q, PolicyFor(workload), model, ser);
    }
  }

  // ---------- the last branch ----------

  /** No branch of `no_winner_reason_for_cells` but the last applies. */
  predicate FallsThrough(cells: seq<Cell>, policy: GatePolicy) {
    cells != [] && !AllHardFailed(cells) && !AnyProduced(cells) && !AnyReachedMin(cells, policy)
  }

  /** The last branch is reached exactly when nothing was produced and a runnable cell has a negative count. */
  lemma FallThroughIff(cells: seq<Cell>, policy: GatePolicy)
    ensures FallsThrough(cells, policy) <==> !AnyProduced(cells) && exists c :: c in cells && Runnable(c) && c.samples < 0
  {
    if !AllHardFailed(cells) && !AnyProduced(cells) {
      var c :| c in cells && !HardFailed(c);
      assert Runnable(c) && c.samples < 0;
    }
  }

  /** Counts are lengths of lists of rows; then the last branch is dead, and `hard_failure` means that every cell failed. */
  lemma HardFailureMeansAllFailed(cells: seq<Cell>, policy: GatePolicy)
    requires forall c :: c in cells ==> c.samples >= 0
    ensures !FallsThrough(cells, policy)
    ensures ReasonFor(cells, policy) == HardFailure <==> cells != [] && AllHardFailed(cells)
  {
    FallThroughIff(cells, policy);
  }

  /** With a negative count, which no list of rows has, the last branch answers although no cell failed hard. */
  lemma NegativeCountFallsThrough(cell: Cell, policy: GatePolicy)
    requires Runnable(cell)
    ensures FallsThrough([cell.(samples := -1)], policy) && ReasonFor([cell.(samples := -1)], policy) == HardFailure
  {
    var negative := cell.(samples := -1);
    assert Runnable(negative) && negative in [negative];
    assert forall c :: c in [negative] ==> c == negative;
  }
}
