/**
 The semaphore as a state machine over its actor steps. A call of `withPermit` is
 named by an id; the permit it was given counts as held until its operation ends,
 by returning or by throwing.
 */
module SemaphoreProtocol {
  import opened StringOrder

  type CallId = nat

  datatype Resumption = Granted(id: CallId) | Cancelled(id: CallId)

  datatype Step =
    | Acquire(id: CallId)  // `wait` up to its return or to the enqueued continuation
    | Finish(id: CallId)   // the operation returned or threw: `signal`
    | Cancel(id: CallId)   // `cancelWaiter`, at any time and for any id

  /** The two fields of the actor, and what a run has done so far. */
  datatype State = State(
    permits: nat,
    waiters: seq<CallId>,
    holders: set<CallId>,
    finished: set<CallId>,
    arrived: seq<CallId>,       // calls that had to wait, in order of arrival
    resumed: seq<Resumption>)   // continuations resumed, in order

  function Capacity(value: int): nat {
    if value < 0 then 0 else value
  }

  function Init(value: int): State {
    State(Capacity(value), [], {}, {}, [], [])
  }

  /** A call has one identity, and only a holder finishes. */
  predicate Enabled(s: State, step: Step) {
    match step
    case Acquire(id) => id !in s.holders && id !in s.finished && id !in s.arrived
    case Finish(id) => id in s.holders
    case Cancel(_) => true
  }

  function Without(waiters: seq<CallId>, id: CallId): seq<CallId> {
    if waiters == [] then [] else if waiters[0] == id then waiters[1..] else [waiters[0]] + Without(waiters[1..], id)
  }

  function Next(s: State, step: Step): State
    requires Enabled(s, step)
  {
    match step
    case Acquire(id) =>
      if s.permits > 0 then s.(permits := s.permits - 1, holders := s.holders + {id})
      else s.(waiters := s.waiters + [id], arrived := s.arrived + [id])
    case Finish(id) =>
      var done := s.(holders := s.holders - {id}, finished := s.finished + {id});
      if s.waiters == [] then done.(permits := s.permits + 1)
      else done.(waiters := s.waiters[1..], holders := done.holders + {s.waiters[0]}, resumed := s.resumed + [Granted(s.waiters[0])])
    case Cancel(id) =>
      if id !in s.waiters then s
      else s.(waiters := Without(s.waiters, id), resumed := s.resumed + [Cancelled(id)])
  }

  // ---------- runs ----------

  predicate Possible(value: int, steps: seq<Step>)
    decreases |steps|, 0
  {
    steps == [] ||
    (Possible(value, steps[..|steps| - 1]) && Enabled(After(value, steps[..|steps| - 1]), steps[|steps| - 1]))
  }

  function After(value: int, steps: seq<Step>): State
    requires Possible(value, steps)
    decreases |steps|, 1
  {
    if steps == [] then Init(value) else Next(After(value, steps[..|steps| - 1]), steps[|steps| - 1])
  }

  // ---------- what holds in every reachable state ----------

  predicate ResumedIn(log: seq<Resumption>, id: CallId) {
    exists p :: 0 <= p < |log| && log[p].id == id
  }

  /** The calls among `ids` whose continuation has not been resumed, in order. */
  function Pending(ids: seq<CallId>, log: seq<Resumption>): seq<CallId> {
    if ids == [] then []
    else
      var before := Pending(ids[..|ids| - 1], log);
      if ResumedIn(log, ids[|ids| - 1]) then before else before + [ids[|ids| - 1]]
  }

  predicate ResumedOnce(log: seq<Resumption>) {
    forall p, q :: 0 <= p < q < |log| ==> log[p].id != log[q].id
  }

  /** When a permit was handed to a waiter, every call that arrived before it had been resumed already. */
  predicate ArrivalOrder(arrived: seq<CallId>, log: seq<Resumption>) {
    forall p, i, j :: 0 <= p < |log| && log[p].Granted? && 0 <= i < j < |arrived| && arrived[j] == log[p].id ==>
      ResumedIn(log[..p], arrived[i])
  }

  predicate OnlyWaitersResumed(arrived: seq<CallId>, log: seq<Resumption>) {
    forall p :: 0 <= p < |log| ==> log[p].id in arrived
  }

  /** A granted call holds its permit or has finished; a cancelled one never held any. */
  predicate ResumptionsKept(s: State) {
    forall p :: 0 <= p < |s.resumed| ==>
      if s.resumed[p].Granted? then s.resumed[p].id in s.holders + s.finished
      else s.resumed[p].id !in s.holders + s.finished
  }

  predicate Conserved(capacity: nat, s: State) {
    s.permits + |s.holders| == capacity
  }

  predicate NeverBoth(s: State) {
    s.permits == 0 || s.waiters == []
  }

  predicate Invariant(capacity: nat, s: State) {
    && Conserved(capacity, s) && NeverBoth(s)
    && Distinct(s.arrived) && ResumedOnce(s.resumed) && OnlyWaitersResumed(s.arrived, s.resumed)
    && s.waiters == Pending(s.arrived, s.resumed)
    && ArrivalOrder(s.arrived, s.resumed)
    && ResumptionsKept(s)
    && s.holders !! s.finished
    && (forall k :: 0 <= k < |s.waiters| ==> s.waiters[k] !in s.holders + s.finished)
  }

  // ---------- lemmas about the queue ----------

  lemma {:induction false} PendingExact(ids: seq<CallId>, log: seq<Resumption>, id: CallId)
    ensures id in Pending(ids, log) <==> id in ids && !ResumedIn(log, id)
    decreases |ids|
  {
    if ids != [] {
      PendingExact(ids[..|ids| - 1], log, id);
      assert ids == ids[..|ids| - 1] + [ids[|ids| - 1]];
    }
  }

  lemma ResumedInSnoc(log: seq<Resumption>, r: Resumption, id: CallId)
    ensures ResumedIn(log + [r], id) <==> ResumedIn(log, id) || r.id == id
  {
    var more := log + [r];
    if ResumedIn(log, id) {
      var p :| 0 <= p < |log| && log[p].id == id;
      assert more[p].id == id;
    }
    if r.id == id {
      assert more[|log|].id == id;
    }
  }

  lemma {:induction false} WithoutAbsent(waiters: seq<CallId>, id: CallId)
    requires id !in waiters
    ensures Without(waiters, id) == waiters
  {
    if waiters != [] {
      WithoutAbsent(waiters[1..], id);
    }
  }

  lemma {:induction false} WithoutSnoc(waiters: seq<CallId>, last: CallId, id: CallId)
    requires id !in waiters || last != id
    ensures Without(waiters + [last], id) == if last == id then waiters else Without(waiters, id) + [last]
    decreases |waiters|
  {
    if waiters != [] {
      assert (waiters + [last])[1..] == waiters[1..] + [last];
      if waiters[0] != id {
        WithoutSnoc(waiters[1..], last, id);
      }
    } else {
      assert waiters + [last] == [last];
    }
  }

  /** Resuming one more call takes exactly that call out of the queue. */
  lemma {:induction false} PendingAfter(ids: seq<CallId>, log: seq<Resumption>, r: Resumption)
    requires Distinct(ids)
    ensures Pending(ids, log + [r]) == Without(Pending(ids, log), r.id)
    decreases |ids|
  {
    if ids != [] {
      var init, last := ids[..|ids| - 1], ids[|ids| - 1];
      PendingAfter(init, log, r);
      ResumedInSnoc(log, r, last);
      PendingExact(init, log, r.id);
      if last == r.id {
        assert forall k :: 0 <= k < |init| ==> init[k] != last;
        WithoutAbsent(Pending(init, log), r.id);
      }
      if !ResumedIn(log, last) {
        WithoutSnoc(Pending(init, log), last, r.id);
      }
    }
  }

  lemma PendingArrival(ids: seq<CallId>, id: CallId, log: seq<Resumption>)
    requires !ResumedIn(log, id)
    ensures Pending(ids + [id], log) == Pending(ids, log) + [id]
  {
    assert (ids + [id])[..|ids|] == ids;
  }

  /** The first in the queue is the earliest arrival not yet resumed. */
  lemma {:induction false} FirstPending(ids: seq<CallId>, log: seq<Resumption>, i: nat, j: nat)
    requires Distinct(ids) && Pending(ids, log) != [] && i < j < |ids| && ids[j] == Pending(ids, log)[0]
    ensures ResumedIn(log, ids[i])
    decreases |ids|
  {
    var init, last := ids[..|ids| - 1], ids[|ids| - 1];
    PendingExact(init, log, ids[i]);
    if Pending(init, log) != [] {
      PendingExact(init, log, Pending(init, log)[0]);
      if j < |ids| - 1 {
        FirstPending(init, log, i, j);
      }
    } else {
      assert ids[i] == init[i];
    }
  }

  // ---------- every step keeps the invariant ----------

  lemma AcquireKeeps(capacity: nat, s: State, id: CallId)
    requires Invariant(capacity, s) && Enabled(s, Acquire(id))
    ensures Invariant(capacity, Next(s, Acquire(id)))
  {
    if s.permits == 0 {
      var t := Next(s, Acquire(id));
      assert !ResumedIn(s.resumed, id);
      PendingArrival(s.arrived, id, s.resumed);
      assert forall x :: x in s.arrived ==> x in t.arrived;
      ArrivalKeepsOrder(s.arrived, id, s.resumed);
    } else {
      PendingExact(s.arrived, s.resumed, id);
      assert forall p :: 0 <= p < |s.resumed| ==> s.resumed[p].id != id;
    }
  }

  lemma ArrivalKeepsOrder(arrived: seq<CallId>, id: CallId, log: seq<Resumption>)
    requires ArrivalOrder(arrived, log) && OnlyWaitersResumed(arrived, log) && id !in arrived
    ensures ArrivalOrder(arrived + [id], log)
  {
    var more := arrived + [id];
    forall p, i, j | 0 <= p < |log| && log[p].Granted? && 0 <= i < j < |more| && more[j] == log[p].id
      ensures ResumedIn(log[..p], more[i])
    {
      assert log[p].id in arrived;
      assert arrived[j] == log[p].id && arrived[i] == more[i];
    }
  }

  /** A log grows by one resumption of a call that is still waiting. */
  lemma ResumeKeeps(s: State, r: Resumption)
    requires Distinct(s.arrived) && ResumedOnce(s.resumed) && OnlyWaitersResumed(s.arrived, s.resumed)
    requires s.waiters == Pending(s.arrived, s.resumed) && ArrivalOrder(s.arrived, s.resumed)
    requires r.id in s.waiters && (r.Granted? ==> r.id == s.waiters[0])
    ensures var log := s.resumed + [r];
            && ResumedOnce(log) && OnlyWaitersResumed(s.arrived, log) && ArrivalOrder(s.arrived, log)
            && Pending(s.arrived, log) == Without(s.waiters, r.id)
  {
    var log := s.resumed + [r];
    PendingExact(s.arrived, s.resumed, r.id);
    PendingAfter(s.arrived, s.resumed, r);
    forall p, i, j | 0 <= p < |log| && log[p].Granted? && 0 <= i < j < |s.arrived| && s.arrived[j] == log[p].id
      ensures ResumedIn(log[..p], s.arrived[i])
    {
      if p < |s.resumed| {
        assert log[..p] == s.resumed[..p];
      } else {
        assert log[..p] == s.resumed;
        FirstPending(s.arrived, s.resumed, i, j);
      }
    }
  }

  lemma {:induction false} WithoutKeepsMembers(waiters: seq<CallId>, id: CallId)
    ensures forall k :: 0 <= k < |Without(waiters, id)| ==> Without(waiters, id)[k] in waiters
    decreases |waiters|
  {
    if waiters != [] && waiters[0] != id {
      WithoutKeepsMembers(waiters[1..], id);
      var rest := Without(waiters[1..], id);
      assert forall k :: 0 <= k < |rest| ==> rest[k] in waiters[1..];
    }
  }

  /** Handing the permit of one call to the first waiter. */
  lemma HandOverKeepsHolders(capacity: nat, s: State, id: CallId)
    requires Invariant(capacity, s) && id in s.holders && s.waiters != []
    ensures var t := Next(s, Finish(id));
            Conserved(capacity, t) && NeverBoth(t) && t.holders !! t.finished && s.waiters[0] !in s.holders + s.finished
  {
    var first := s.waiters[0];
    assert first !in s.holders + s.finished;
    assert |s.holders - {id} + {first}| == |s.holders|;
  }

  lemma HandOverKeepsQueue(capacity: nat, s: State, id: CallId)
    requires Invariant(capacity, s) && id in s.holders && s.waiters != []
    ensures var t := Next(s, Finish(id));
            && ResumedOnce(t.resumed) && OnlyWaitersResumed(t.arrived, t.resumed) && ArrivalOrder(t.arrived, t.resumed)
            && t.waiters == Pending(t.arrived, t.resumed) && s.waiters[0] !in t.waiters
  {
    var r, t := Granted(s.waiters[0]), Next(s, Finish(id));
    ResumeKeeps(s, r);
    PendingExact(t.arrived, t.resumed, r.id);
    ResumedInSnoc(s.resumed, r, r.id);
  }

  lemma HandOverKeepsPlaces(capacity: nat, s: State, id: CallId)
    requires Invariant(capacity, s) && id in s.holders && s.waiters != [] && s.waiters[0] !in s.waiters[1..]
    ensures var t := Next(s, Finish(id));
            ResumptionsKept(t) && forall k :: 0 <= k < |t.waiters| ==> t.waiters[k] !in t.holders + t.finished
  {
    var first, t := s.waiters[0], Next(s, Finish(id));
    PendingExact(s.arrived, s.resumed, first);
    assert forall p :: 0 <= p < |s.resumed| ==> s.resumed[p].id != first;
    assert forall k :: 0 <= k < |t.waiters| ==> t.waiters[k] in s.waiters[1..] && t.waiters[k] == s.waiters[k + 1];
  }

  lemma FinishKeeps(capacity: nat, s: State, id: CallId)
    requires Invariant(capacity, s) && Enabled(s, Finish(id))
    ensures Invariant(capacity, Next(s, Finish(id)))
  {
    if s.waiters != [] {
      HandOverKeepsHolders(capacity, s, id);
      HandOverKeepsQueue(capacity, s, id);
      HandOverKeepsPlaces(capacity, s, id);
    }
  }

  lemma CancelKeeps(capacity: nat, s: State, id: CallId)
    requires Invariant(capacity, s)
    ensures Invariant(capacity, Next(s, Cancel(id)))
  {
    if id in s.waiters {
      ResumeKeeps(s, Cancelled(id));
      WithoutKeepsMembers(s.waiters, id);
    }
  }

  /** In every reachable state of every run the invariant holds. */
  lemma {:induction false} RunInvariant(value: int, steps: seq<Step>)
    requires Possible(value, steps)
    ensures Invariant(Capacity(value), After(value, steps))
    decreases |steps|
  {
    if steps != [] {
      var init := steps[..|steps| - 1];
      RunInvariant(value, init);
      match steps[|steps| - 1]
      case Acquire(id) => AcquireKeeps(Capacity(value), After(value, init), id);
      case Finish(id) => FinishKeeps(Capacity(value), After(value, init), id);
      case Cancel(id) => CancelKeeps(Capacity(value), After(value, init), id);
    }
  }

  // ---------- consequences ----------

  ghost predicate Waiting(s: State, id: CallId) { id in s.waiters }

  ghost predicate Refused(s: State, id: CallId) { Cancelled(id) in s.resumed }

  /** Every call that had to wait is in exactly one place: queued, refused, or past its grant. */
  lemma ResumedExactlyOnce(value: int, steps: seq<Step>, id: CallId)
    requires Possible(value, steps) && id in After(value, steps).arrived
    ensures var s := After(value, steps);
            && (Waiting(s, id) <==> !ResumedIn(s.resumed, id))
            && (ResumedIn(s.resumed, id) <==> Refused(s, id) || Granted(id) in s.resumed)
            && !(Refused(s, id) && Granted(id) in s.resumed)
            && (Granted(id) in s.resumed <==> id in s.holders + s.finished)
            && multiset(seq(|s.resumed|, p requires 0 <= p < |s.resumed| => s.resumed[p].id))[id] <= 1
  {
    var s := After(value, steps);
    RunInvariant(value, steps);
    PendingExact(s.arrived, s.resumed, id);
    if ResumedIn(s.resumed, id) {
      var p :| 0 <= p < |s.resumed| && s.resumed[p].id == id;
      assert s.resumed[p] == Cancelled(id) || s.resumed[p] == Granted(id);
    }
    DistinctCount(seq(|s.resumed|, p requires 0 <= p < |s.resumed| => s.resumed[p].id), id);
    assert id in s.waiters ==> id !in s.holders + s.finished;
  }

  lemma {:induction false} DistinctCount(ids: seq<CallId>, id: CallId)
    requires Distinct(ids)
    ensures multiset(ids)[id] <= 1
    decreases |ids|
  {
    if ids != [] {
      var init, last := ids[..|ids| - 1], ids[|ids| - 1];
      assert ids == init + [last];
      DistinctCount(init, id);
      if last == id {
        assert forall k :: 0 <= k < |init| ==> init[k] != id;
        assert id !in init;
      }
    }
  }

  /** Of two waiters that both got a permit, the one that arrived first got it first. */
  lemma GrantsInArrivalOrder(value: int, steps: seq<Step>, i: nat, j: nat, p: nat, q: nat)
    requires Possible(value, steps)
    requires var s := After(value, steps);
             && i < j < |s.arrived| && p < |s.resumed| && q < |s.resumed|
             && s.resumed[p] == Granted(s.arrived[i]) && s.resumed[q] == Granted(s.arrived[j])
    ensures p < q
  {
    RunInvariant(value, steps);
    var s := After(value, steps);
    assert ResumedIn(s.resumed[..q], s.arrived[i]);
    var k :| 0 <= k < q && s.resumed[..q][k].id == s.arrived[i];
    assert s.resumed[k].id == s.resumed[p].id;
  }

  /** Cancelling, at any moment of any run, neither frees nor takes a permit, and disturbs no other call. */
  lemma CancelConservesPermits(value: int, steps: seq<Step>, id: CallId)
    requires Possible(value, steps)
    ensures Possible(value, steps + [Cancel(id)])
    ensures var s, t := After(value, steps), After(value, steps + [Cancel(id)]);
            && t.permits == s.permits && t.holders == s.holders && t.finished == s.finished
            && t.waiters == Without(s.waiters, id) && id !in t.waiters
            && (forall x :: x != id ==> (x in t.waiters <==> x in s.waiters))
            && (id !in s.waiters ==> t == s)
  {
    var more := steps + [Cancel(id)];
    assert more[..|more| - 1] == steps;
    RunInvariant(value, steps);
    RunInvariant(value, more);
    var s, t := After(value, steps), After(value, more);
    if id in s.waiters {
      forall x
        ensures x in t.waiters <==> x in s.waiters && x != id
      {
        PendingExact(s.arrived, s.resumed, x);
        PendingExact(t.arrived, t.resumed, x);
        ResumedInSnoc(s.resumed, Cancelled(id), x);
      }
    } else {
      WithoutAbsent(s.waiters, id);
    }
  }

  /** With a positive value a waiter is never stranded: some holder will still signal. With none, no call is ever granted. */
  lemma NoLostWakeup(value: int, steps: seq<Step>)
    requires Possible(value, steps)
    ensures var s := After(value, steps);
            && (value > 0 && s.waiters != [] ==> s.holders != {})
            && (s.holders == {} ==> s.permits == Capacity(value))
            && (value <= 0 ==> s.holders == {} && s.finished == {} && s.permits == 0)
    decreases |steps|
  {
    RunInvariant(value, steps);
    if value <= 0 {
      NeverGranted(value, steps);
    }
  }

  lemma {:induction false} NeverGranted(value: int, steps: seq<Step>)
    requires Possible(value, steps) && value <= 0
    ensures After(value, steps).holders == {} && After(value, steps).finished == {} && After(value, steps).permits == 0
    decreases |steps|
  {
    if steps != [] {
      NeverGranted(value, steps[..|steps| - 1]);
    }
  }

  /** From every reachable state of a semaphore with permits, some run of `Finish` steps serves every waiter. */
  lemma {:induction false} WaitersCanBeServed(value: int, steps: seq<Step>) returns (finishes: seq<Step>)
    requires Possible(value, steps) && value > 0
    ensures forall k :: 0 <= k < |finishes| ==> finishes[k].Finish?
    ensures Possible(value, steps + finishes) && After(value, steps + finishes).waiters == []
    ensures |finishes| == |After(value, steps).waiters|
    decreases |After(value, steps).waiters|
  {
    var s := After(value, steps);
    if s.waiters == [] {
      finishes := [];
      assert steps + finishes == steps;
    } else {
      NoLostWakeup(value, steps);
      var id :| id in s.holders;
      var more := steps + [Finish(id)];
      assert more[..|more| - 1] == steps;
      var rest := WaitersCanBeServed(value, more);
      finishes := [Finish(id)] + rest;
      assert steps + finishes == more + rest;
    }
  }

  // ---------- the value itself ----------

  /** After every run, permits and holders add up to the value; a negative value counts as zero. */
  lemma PermitsAreTheValue(value: int, steps: seq<Step>)
    requires Possible(value, steps)
    ensures var s := After(value, steps);
            && (value >= 0 ==> s.permits + |s.holders| == value)
            && (value < 0 ==> s.permits == 0 && s.holders == {})
            && |s.holders| <= if value < 0 then 0 else value
  {
    RunInvariant(value, steps);
    if value < 0 {
      NeverGranted(value, steps);
    }
  }

  /** A call gets its permit at once exactly when fewer calls than the value hold one; otherwise it queues up last. */
  lemma GrantedAtOnceIff(value: int, steps: seq<Step>, id: CallId)
    requires Possible(value, steps + [Acquire(id)])
    ensures Possible(value, steps)
    ensures var s, t := After(value, steps), After(value, steps + [Acquire(id)]);
            if |s.holders| < value then t.holders == s.holders + {id} && t.waiters == s.waiters
            else t.holders == s.holders && t.waiters == s.waiters + [id]
  {
    var more := steps + [Acquire(id)];
    assert more[..|more| - 1] == steps;
    PermitsAreTheValue(value, steps);
  }

  /** A holder that is done frees its place, or hands it to the call that has waited longest. */
  lemma DoneHandsOver(value: int, steps: seq<Step>, id: CallId)
    requires Possible(value, steps + [Finish(id)])
    ensures Possible(value, steps) && id in After(value, steps).holders
    ensures var s, t := After(value, steps), After(value, steps + [Finish(id)]);
            if s.waiters == [] then t.holders == s.holders - {id} && t.waiters == []
            else t.holders == s.holders - {id} + {s.waiters[0]} && t.waiters == s.waiters[1..]
  {
    var more := steps + [Finish(id)];
    assert more[..|more| - 1] == steps;
  }

  predicate Known(s: State, id: CallId) {
    id in s.holders || id in s.finished || id in s.arrived
  }

  lemma StepMakesCalls(capacity: nat, s: State, step: Step, id: CallId)
    requires Invariant(capacity, s) && Enabled(s, step)
    ensures Known(Next(s, step), id) <==> Known(s, id) || step == Acquire(id)
  {
    if step.Finish? && s.waiters != [] {
      PendingExact(s.arrived, s.resumed, s.waiters[0]);
    }
  }

  /** The calls that a run has made so far are those that hold, have finished, or had to wait. */
  lemma {:induction false} CallsMade(value: int, steps: seq<Step>, id: CallId)
    requires Possible(value, steps)
    ensures Acquire(id) in steps <==> Known(After(value, steps), id)
    decreases |steps|
  {
    if steps != [] {
      var init, last := steps[..|steps| - 1], steps[|steps| - 1];
      assert steps == init + [last];
      CallsMade(value, init, id);
      RunInvariant(value, init);
      StepMakesCalls(Capacity(value), After(value, init), last, id);
    }
  }

  /** Every call may start once, every holder may finish, and anything may be cancelled; nothing else restricts a run. */
  lemma PossibleIff(value: int, steps: seq<Step>, step: Step)
    requires Possible(value, steps)
    ensures Possible(value, steps + [step]) <==>
              match step
              case Acquire(id) => Acquire(id) !in steps
              case Finish(id) => id in After(value, steps).holders
              case Cancel(_) => true
  {
    var more := steps + [step];
    assert more[..|more| - 1] == steps;
    if step.Acquire? {
      CallsMade(value, steps, step.id);
    }
  }
}
