/** The actor: each method is one step of the protocol. */
module AsyncSemaphore {
  import opened SemaphoreProtocol

  class Semaphore {
    var permits: nat
    var waiters: seq<CallId>
    ghost var holders: set<CallId>
    ghost var finished: set<CallId>
    ghost var arrived: seq<CallId>
    ghost var resumed: seq<Resumption>
    ghost const capacity: nat

    ghost function View(): State
      reads this
    {
      State(permits, waiters, holders, finished, arrived, resumed)
    }

    ghost predicate Valid()
      reads this
    {
      Invariant(capacity, View())
    }

    constructor (value: int)
      ensures View() == Init(value) && capacity == Capacity(value)
      ensures Valid()
      ensures waiters == [] && holders == {} && (if value < 0 then permits == 0 else permits == value)
    {
      permits := if value < 0 then 0 else value;
      waiters := [];
      holders, finished, arrived, resumed := {}, {}, [], [];
      capacity := Capacity(value);
    }

    /** `wait` up to its first suspension; `granted` tells whether it returned at once. */
    method Wait(id: CallId) returns (granted: bool)
      requires Valid() && Enabled(View(), Acquire(id))
      modifies this
      ensures Valid() && View() == Next(old(View()), Acquire(id))
      ensures granted <==> id in holders
      ensures granted <==> old(permits) > 0
      ensures if granted then permits == old(permits) - 1 && waiters == old(waiters)
              else permits == old(permits) && waiters == old(waiters) + [id]
    {
      AcquireKeeps(capacity, View(), id);
      if permits > 0 {
        permits := permits - 1;
        holders := holders + {id};
        return true;
      }
      waiters := waiters + [id];
      arrived := arrived + [id];
      return false;
    }

    /** `signal` by the call that held the permit. */
    method Signal(ghost id: CallId)
      requires Valid() && Enabled(View(), Finish(id))
      modifies this
      ensures Valid() && View() == Next(old(View()), Finish(id))
      ensures if old(waiters) == [] then permits == old(permits) + 1 && waiters == []
              else permits == old(permits) && waiters == old(waiters)[1..] && old(waiters)[0] in holders
    {
      ghost var after := Finished(id);
      holders, finished := holders - {id}, finished + {id};
      if waiters == [] {
        permits := permits + 1;
      } else {
        holders, resumed := holders + {waiters[0]}, resumed + [Granted(waiters[0])];
        waiters := waiters[1..];
      }
      assert View() == after;
    }

    ghost function Finished(id: CallId): (after: State)
      requires Valid() && Enabled(View(), Finish(id))
      reads this
      ensures after == Next(View(), Finish(id)) && Invariant(capacity, after)
    {
      FinishKeeps(capacity, View(), id);
      Next(View(), Finish(id))
    }

    method CancelWaiter(id: CallId)
      requires Valid()
      modifies this
      ensures Valid() && View() == Next(old(View()), Cancel(id))
    {
      CancelKeeps(capacity, View(), id);
      var index := FirstIndex(waiters, id);
      if index == |waiters| {
        return;
      }
      WithoutAt(waiters, id, index);
      waiters := waiters[..index] + waiters[index + 1..];
      resumed := resumed + [Cancelled(id)];
    }
  }

  /** `firstIndex(where:)`, with the length for nil. */
  method FirstIndex(waiters: seq<CallId>, id: CallId) returns (index: nat)
    ensures index <= |waiters| && (index == |waiters| <==> id !in waiters)
    ensures index < |waiters| ==> waiters[index] == id && id !in waiters[..index]
  {
    index := 0;
    while index < |waiters| && waiters[index] != id
      invariant index <= |waiters| && id !in waiters[..index]
    {
      assert waiters[..index + 1] == waiters[..index] + [waiters[index]];
      index := index + 1;
    }
    assert index == |waiters| ==> waiters[..index] == waiters;
  }

  lemma {:induction false} WithoutAt(waiters: seq<CallId>, id: CallId, index: nat)
    requires index < |waiters| && waiters[index] == id && id !in waiters[..index]
    ensures Without(waiters, id) == waiters[..index] + waiters[index + 1..]
    decreases |waiters|
  {
    if index == 0 {
      assert waiters[..0] == [];
    } else {
      assert waiters[0] == waiters[..index][0];
      assert waiters[1..][..index - 1] == waiters[..index][1..];
      WithoutAt(waiters[1..], id, index - 1);
      assert waiters[1..][index..] == waiters[index + 1..];
      assert waiters[..index] == [waiters[0]] + waiters[1..][..index - 1];
    }
  }
}
