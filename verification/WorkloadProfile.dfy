/** The profile published for a selection, and the release validator's rules for profiles. */
module WorkloadProfile {
  import opened Wrappers
  import opened WinnerSelection
  import WinnerMeaning

  datatype Status = Winner | NoWinner

  datatype Metrics = Metrics(tps: Option<real>, p95: Option<real>, leakRate: Option<real>, acceptance: Option<real>, samples: int)

  /** `fields` are the names present in the JSON object. */
  datatype Profile = Profile(
    fields: set<string>, status: Status, reason: Option<Reason>, recommended: Option<Recommended>,
    gate: GatePolicy, metrics: Metrics, source: string)

  /** `workload_profile`. */
  function ProfileOf(selection: Selection, source: string): Profile {
    if selection.winner.Some? then
      var winner := selection.winner.value;
      Profile({"status", "recommended", "candidate_source", "tie_breaker_reason", "gate_policy", "profile_metrics", "source"},
              Winner, None, Some(RecommendedOf(winner)), selection.policy,
              Metrics(winner.tps, winner.p95, Some(winner.leakRate), winner.acceptance, winner.samples), source)
    else
      Profile({"status", "no_winner_reason", "gate_policy", "profile_metrics", "source"},
              NoWinner, selection.reason, None, selection.policy,
              Metrics(None, None, None, None, selection.highest), source)
  }

  const ALLOWED: set<string> := {
    "status", "no_winner_reason", "recommended", "gate_policy", "profile_metrics", "source", "candidate_source"
  }

  const REQUIRED: set<string> := {"gate_policy", "profile_metrics", "source"}

  predicate InRange(x: Option<real>, top: Option<real>) {
    x.Some? ==> 0.0 <= x.value && (top.Some? ==> x.value <= top.value)
  }

  predicate MetricsOk(metrics: Metrics) {
    && metrics.samples >= 0
    && InRange(metrics.tps, None) && InRange(metrics.p95, None)
    && InRange(metrics.leakRate, Some(1.0)) && InRange(metrics.acceptance, Some(1.0))
  }

  predicate NoWinnerRules(profile: Profile) {
    && profile.reason.Some? && profile.recommended.None?
    && profile.metrics == Metrics(None, None, None, None, profile.metrics.samples)
    && match profile.reason.value
       case NoCellsEvaluated => profile.metrics.samples == 0
       case HardFailure => profile.metrics.samples == 0
       case InsufficientSamples => 0 < profile.metrics.samples < profile.gate.minSamples
       case GateUnmet => profile.metrics.samples >= profile.gate.minSamples
  }

  /** The validator on one profile; `winnerRules` stands for its rules on recommendations. */
  predicate Accepts(profile: Profile, workload: Workload, tier: Tier, winnerRules: bool) {
    && Included(workload) && !tier.OtherTier?
    && REQUIRED <= profile.fields <= ALLOWED
    && profile.source != ""
    && profile.gate == GatePolicy(20, MaxP95(workload), 0.0, None)
    && MetricsOk(profile.metrics)
    && if profile.status == NoWinner then NoWinnerRules(profile) else winnerRules
  }

  lemma ReasonFitsCount(cells: seq<Cell>, policy: GatePolicy)
    requires cells != [] && policy.minSamples > 0
    ensures match ReasonFor(cells, policy)
            case NoCellsEvaluated => false
            case HardFailure => Highest(cells) == 0
            case InsufficientSamples => 0 < Highest(cells) < policy.minSamples
            case GateUnmet => Highest(cells) >= policy.minSamples
  {
    HighestIsMaximum(cells);
    HighestReachesMin(cells, policy);
  }

  /** Every selection without a winner is published as a profile that meets the validator's reason and count rules. */
  lemma NoWinnerMeetsRules(cells: seq<Cell>, workload: Workload, tier: Tier, model: Option<string>, ser: Serialize, source: string)
    requires ChoosePartition(cells, workload, tier, model, ser).Some?
    requires ChoosePartition(cells, workload, tier, model, ser).value.winner.None?
    ensures NoWinnerRules(ProfileOf(ChoosePartition(cells, workload, tier, model, ser).value, source))
  {
    var partition := Partition(cells, workload, tier, model);
    if partition != [] {
      ReasonFitsCount(partition, PolicyFor(workload));
    }
  }

  /** Which measurements the validator takes: no negative one, and rates of at most one. */
  lemma MetricsMean(m: Metrics)
    ensures MetricsOk(m) <==>
              && m.samples >= 0
              && (m.tps.None? || m.tps.value >= 0.0) && (m.p95.None? || m.p95.value >= 0.0)
              && (m.leakRate.None? || 0.0 <= m.leakRate.value <= 1.0)
              && (m.acceptance.None? || 0.0 <= m.acceptance.value <= 1.0)
  {
  }

  /** What the validator refuses in a profile without a winner. */
  lemma RefusedProfiles(profile: Profile, workload: Workload, tier: Tier, winnerRules: bool)
    requires profile.status == NoWinner
    requires || profile.reason == None || profile.recommended != None || profile.source == ""
             || profile.metrics.tps != None || profile.metrics.p95 != None
             || profile.metrics.leakRate != None || profile.metrics.acceptance != None
             || profile.gate.minSamples != 20 || profile.gate.maxLeakRate != 0.0 || profile.gate.minMedianTps != None
             || WinnerMeaning.TtftLimit(workload) != Some(profile.gate.maxP95) || tier.OtherTier?
             || (profile.reason == Some(NoCellsEvaluated) && profile.metrics.samples != 0)
             || (profile.reason == Some(HardFailure) && profile.metrics.samples != 0)
             || (profile.reason == Some(InsufficientSamples) && !(1 <= profile.metrics.samples <= 19))
             || (profile.reason == Some(GateUnmet) && profile.metrics.samples < 20)
    ensures !Accepts(profile, workload, tier, winnerRules)
  {
  }

  /** A profile reports the measurements of the winner, or no measurement and the count. */
  lemma ProfileReports(selection: Selection, source: string)
    ensures var profile := ProfileOf(selection, source);
            && profile.gate == selection.policy && profile.source == source
            && (selection.winner.Some? ==>
                  var w, m := selection.winner.value, profile.metrics;
                  && profile.status == Winner && profile.reason == None && profile.recommended == Some(WinnerMeaning.TupleOf(w))
                  && m.tps == w.tps && m.p95 == w.p95 && m.leakRate == Some(w.leakRate)
                  && m.acceptance == w.acceptance && m.samples == w.samples)
            && (selection.winner.None? ==>
                  var m := profile.metrics;
                  && profile.status == NoWinner && profile.reason == selection.reason && profile.recommended == None
                  && m.tps == None && m.p95 == None && m.leakRate == None && m.acceptance == None
                  && m.samples == selection.highest)
  {
  }

  /** What a winner's metrics satisfy, whatever the validator says of its fields. */
  lemma WinnerMeetsGate(cells: seq<Cell>, workload: Workload, tier: Tier, model: Option<string>, ser: Serialize, source: string)
    requires ChoosePartition(cells, workload, tier, model, ser).Some?
    requires ChoosePartition(cells, workload, tier, model, ser).value.winner.Some?
    ensures var profile := ProfileOf(ChoosePartition(cells, workload, tier, model, ser).value, source);
            && profile.metrics.p95.Some? && profile.metrics.p95.value <= profile.gate.maxP95
            && profile.metrics.leakRate.Some? && profile.metrics.leakRate.value <= profile.gate.maxLeakRate
            && profile.metrics.samples >= profile.gate.minSamples
  {
    var winner := ChoosePartition(cells, workload, tier, model, ser).value.winner.value;
    WinnerIsBest(cells, workload, tier, model, ser, winner);
  }

  /**
    * The validator takes an emitted profile exactly when there is no winner and the source is named: a winner's
    * profile has a field the validator does not know.
    */
  lemma AcceptedIffNoWinner(cells: seq<Cell>, workload: Workload, tier: Tier, model: Option<string>, ser: Serialize,
                            source: string, winnerRules: bool)
    requires ChoosePartition(cells, workload, tier, model, ser).Some?
    ensures var selection := ChoosePartition(cells, workload, tier, model, ser).value;
            Accepts(ProfileOf(selection, source), workload, tier, winnerRules) <==> selection.winner.None? && source != ""
  {
    var selection := ChoosePartition(cells, workload, tier, model, ser).value;
    if selection.winner.None? {
      NoWinnerMeetsRules(cells, workload, tier, model, ser, source);
    } else {
      assert "tie_breaker_reason" in ProfileOf(selection, source).fields;
      assert "tie_breaker_reason" !in ALLOWED;
    }
  }
}
