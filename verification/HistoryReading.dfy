/** Well-formed histories, read off the messages themselves: the `k`-th call of message `i` and what answers it. */
module HistoryReading {
  import opened MessageHistory

  /** Message `i` makes a `k`-th call. */
  predicate Made(messages: seq<Message>, i: nat, k: nat) {
    i < |messages| && messages[i].calls.Some? && k < |messages[i].calls.value|
  }

  function CallAt(messages: seq<Message>, i: nat, k: nat): Call
    requires Made(messages, i, k)
  {
    messages[i].calls.value[k]
  }

  /** `call_` and 16 to 64 ASCII digits, capital or small letters. */
  predicate ProperId(id: string) {
    && 21 <= |id| <= 69 && id[..5] == "call_"
    && forall i :: 5 <= i < |id| ==>
         48 <= id[i] as int <= 57 || 65 <= id[i] as int <= 90 || 97 <= id[i] as int <= 122
  }

  function Sum(weights: seq<nat>): nat {
    if weights == [] then 0 else Sum(weights[..|weights| - 1]) + weights[|weights| - 1]
  }

  function Sizes(calls: seq<Call>): (r: seq<nat>)
    ensures |r| == |calls|
  {
    seq(|calls|, k requires 0 <= k < |calls| => calls[k].argumentBytes)
  }

  function CallCounts(messages: seq<Message>): (r: seq<nat>)
    ensures |r| == |messages|
  {
    seq(|messages|, i requires 0 <= i < |messages| => if messages[i].calls.None? then 0 else |messages[i].calls.value|)
  }

  function ArgumentSizes(messages: seq<Message>): (r: seq<nat>)
    ensures |r| == |messages|
  {
    seq(|messages|, i requires 0 <= i < |messages| =>
      if messages[i].calls.None? then 0 else Sum(Sizes(messages[i].calls.value)))
  }

  function ResultSizes(messages: seq<Message>): (r: seq<nat>)
    ensures |r| == |messages|
  {
    seq(|messages|, i requires 0 <= i < |messages| => if messages[i].isTool then messages[i].contentBytes else 0)
  }

  /** The tool message `i` answers a call that an earlier message makes. */
  ghost predicate AnswersEarlier(messages: seq<Message>, i: nat)
    requires i < |messages| && messages[i].callId.Some?
  {
    exists j: nat, k: nat :: j < i && Made(messages, j, k) && CallAt(messages, j, k).id == messages[i].callId.value
  }

  ghost predicate IdsProper(messages: seq<Message>) {
    forall i: nat, k: nat :: Made(messages, i, k) ==> ProperId(CallAt(messages, i, k).id)
  }

  /** No two calls share an id. */
  ghost predicate DistinctCalls(messages: seq<Message>) {
    forall i: nat, k: nat, j: nat, l: nat :: Made(messages, i, k) && Made(messages, j, l) && (i, k) != (j, l) ==>
      CallAt(messages, i, k).id != CallAt(messages, j, l).id
  }

  /** Every tool message answers an earlier call, within 256 KiB. */
  ghost predicate ResultsProper(messages: seq<Message>) {
    forall i: nat :: i < |messages| && messages[i].isTool ==>
      && messages[i].callId.Some? && ProperId(messages[i].callId.value) && AnswersEarlier(messages, i)
      && messages[i].contentBytes <= 262144
  }

  /** No two tool messages answer the same call. */
  ghost predicate AnswersDiffer(messages: seq<Message>) {
    forall i: nat, j: nat :: i < j < |messages| && messages[i].isTool && messages[j].isTool ==>
      messages[i].callId != messages[j].callId
  }

  ghost predicate Proper(messages: seq<Message>) {
    && |messages| <= 256
    && Sum(CallCounts(messages)) <= 128
    && Sum(ArgumentSizes(messages)) <= 2097152
    && Sum(ResultSizes(messages)) <= 1048576
    && IdsProper(messages) && DistinctCalls(messages)
    && ResultsProper(messages) && AnswersDiffer(messages)
  }

  // ---------- where a call stands in the list of all calls ----------

  lemma {:induction false} PlaceOf(messages: seq<Message>, n: nat, i: nat, k: nat)
    requires i < n <= |messages| && Made(messages, i, k)
    ensures |Calls(messages, i)| + k < |Calls(messages, n)|
    ensures Calls(messages, n)[|Calls(messages, i)| + k] == Placed(CallAt(messages, i, k), i)
    decreases n
  {
    if i < n - 1 {
      PlaceOf(messages, n - 1, i, k);
    }
  }

  lemma {:induction false} CallOf(messages: seq<Message>, n: nat, p: nat) returns (i: nat, k: nat)
    requires n <= |messages| && p < |Calls(messages, n)|
    ensures i < n && Made(messages, i, k) && p == |Calls(messages, i)| + k
    ensures Calls(messages, n)[p] == Placed(CallAt(messages, i, k), i)
    decreases n
  {
    if p < |Calls(messages, n - 1)| {
      i, k := CallOf(messages, n - 1, p);
    } else {
      i, k := n - 1, p - |Calls(messages, n - 1)|;
    }
  }

  lemma IdsMean(id: string)
    ensures CallId(id) <==> ProperId(id)
  {
    assert |id| >= 5 ==> ("call_" <= id <==> id[..5] == "call_");
  }

  lemma ValidIdsMean(messages: seq<Message>)
    ensures ValidIds(Calls(messages, |messages|)) <==> IdsProper(messages)
  {
    var calls := Calls(messages, |messages|);
    if ValidIds(calls) {
      forall i: nat, k: nat | Made(messages, i, k)
        ensures ProperId(CallAt(messages, i, k).id)
      {
        PlaceOf(messages, |messages|, i, k);
        IdsMean(CallAt(messages, i, k).id);
      }
    }
    if IdsProper(messages) {
      forall p | 0 <= p < |calls|
        ensures CallId(calls[p].call.id)
      {
        var i, k := CallOf(messages, |messages|, p);
        IdsMean(calls[p].call.id);
      }
    }
  }

  lemma EarlierStandsBefore(messages: seq<Message>, i: nat, k: nat, j: nat, l: nat)
    requires Made(messages, i, k) && Made(messages, j, l) && (i < j || (i == j && k < l))
    ensures |Calls(messages, i)| + k < |Calls(messages, j)| + l
  {
    if i < j {
      PlaceOf(messages, j, i, k);
    }
  }

  lemma CallsDiffer(messages: seq<Message>, i: nat, k: nat, j: nat, l: nat)
    requires DistinctIds(Calls(messages, |messages|)) && Made(messages, i, k) && Made(messages, j, l)
    requires i < j || (i == j && k < l)
    ensures CallAt(messages, i, k).id != CallAt(messages, j, l).id
  {
    PlaceOf(messages, |messages|, i, k);
    PlaceOf(messages, |messages|, j, l);
    EarlierStandsBefore(messages, i, k, j, l);
  }

  lemma DistinctIdsMean(messages: seq<Message>)
    ensures DistinctIds(Calls(messages, |messages|)) <==> DistinctCalls(messages)
  {
    var calls := Calls(messages, |messages|);
    if DistinctIds(calls) {
      forall i: nat, k: nat, j: nat, l: nat | Made(messages, i, k) && Made(messages, j, l) && (i, k) != (j, l)
        ensures CallAt(messages, i, k).id != CallAt(messages, j, l).id
      {
        if i < j || (i == j && k < l) {
          CallsDiffer(messages, i, k, j, l);
        } else {
          CallsDiffer(messages, j, l, i, k);
        }
      }
    }
    if DistinctCalls(messages) {
      forall p, q | 0 <= p < q < |calls|
        ensures calls[p].call.id != calls[q].call.id
      {
        var i, k := CallOf(messages, |messages|, p);
        var j, l := CallOf(messages, |messages|, q);
      }
    }
  }

  // ---------- sums ----------

  lemma SumStep(weights: seq<nat>, n: nat)
    requires 0 < n <= |weights|
    ensures Sum(weights[..n]) == Sum(weights[..n - 1]) + weights[n - 1]
  {
    assert weights[..n][..n - 1] == weights[..n - 1];
  }

  lemma {:induction false} CountsAre(messages: seq<Message>, n: nat)
    requires n <= |messages|
    ensures |Calls(messages, n)| == Sum(CallCounts(messages)[..n])
    decreases n
  {
    if n > 0 {
      CountsAre(messages, n - 1);
      SumStep(CallCounts(messages), n);
    }
  }

  lemma {:induction false} BytesOfPlaced(before: seq<Placed>, calls: seq<Call>, message: nat, n: nat)
    requires n <= |calls|
    ensures ArgumentBytes(before + Place(calls, message)[..n]) ==
              ArgumentBytes(before) + Sum(Sizes(calls)[..n])
    decreases n
  {
    var placed, sizes := Place(calls, message), Sizes(calls);
    if n == 0 {
      assert before + placed[..0] == before;
    } else {
      BytesOfPlaced(before, calls, message, n - 1);
      assert (before + placed[..n])[..|before| + n - 1] == before + placed[..n - 1];
      SumStep(sizes, n);
    }
  }

  lemma BytesOfMessage(before: seq<Placed>, calls: seq<Call>, message: nat)
    ensures ArgumentBytes(before + Place(calls, message)) == ArgumentBytes(before) + Sum(Sizes(calls))
  {
    BytesOfPlaced(before, calls, message, |calls|);
    assert Place(calls, message)[..|calls|] == Place(calls, message);
    assert Sizes(calls)[..|calls|] == Sizes(calls);
  }

  lemma {:induction false} ArgumentsAre(messages: seq<Message>, n: nat)
    requires n <= |messages|
    ensures ArgumentBytes(Calls(messages, n)) == Sum(ArgumentSizes(messages)[..n])
    decreases n
  {
    if n > 0 {
      ArgumentsAre(messages, n - 1);
      BytesOfMessage(Calls(messages, n - 1), CallsOf(messages[n - 1]), n - 1);
      SumStep(ArgumentSizes(messages), n);
      assert Sum(Sizes([])) == 0;
    }
  }

  lemma {:induction false} ResultsAre(messages: seq<Message>, n: nat)
    requires n <= |messages|
    ensures ResultBytes(messages, n) == Sum(ResultSizes(messages)[..n])
    decreases n
  {
    if n > 0 {
      ResultsAre(messages, n - 1);
      SumStep(ResultSizes(messages), n);
    }
  }

  lemma SumsAre(messages: seq<Message>)
    ensures |Calls(messages, |messages|)| == Sum(CallCounts(messages))
    ensures ArgumentBytes(Calls(messages, |messages|)) == Sum(ArgumentSizes(messages))
    ensures ResultBytes(messages, |messages|) == Sum(ResultSizes(messages))
  {
    var n := |messages|;
    CountsAre(messages, n);
    ArgumentsAre(messages, n);
    ResultsAre(messages, n);
    assert CallCounts(messages)[..n] == CallCounts(messages);
    assert ArgumentSizes(messages)[..n] == ArgumentSizes(messages);
    assert ResultSizes(messages)[..n] == ResultSizes(messages);
  }

  // ---------- results ----------

  lemma CalledBeforeMeans(messages: seq<Message>, i: nat)
    requires i < |messages| && messages[i].callId.Some?
    ensures CalledBefore(Calls(messages, |messages|), messages[i].callId.value, i) <==> AnswersEarlier(messages, i)
  {
    var calls, id := Calls(messages, |messages|), messages[i].callId.value;
    if CalledBefore(calls, id, i) {
      var p :| 0 <= p < |calls| && Makes(calls[p], id) && calls[p].message < i;
      var j, k := CallOf(messages, |messages|, p);
      assert Made(messages, j, k) && CallAt(messages, j, k).id == id;
    }
    if AnswersEarlier(messages, i) {
      var j: nat, k: nat :| j < i && Made(messages, j, k) && CallAt(messages, j, k).id == id;
      PlaceOf(messages, |messages|, j, k);
      assert Makes(calls[|Calls(messages, j)| + k], id);
    }
  }

  lemma ResultsMean(messages: seq<Message>)
    ensures AllResultsOk(messages, Calls(messages, |messages|), |messages|) <==> ResultsProper(messages)
  {
    var calls := Calls(messages, |messages|);
    forall i: nat | i < |messages|
      ensures ResultOk(messages, calls, i) <==>
                (messages[i].isTool ==>
                  && messages[i].callId.Some? && ProperId(messages[i].callId.value) && AnswersEarlier(messages, i)
                  && messages[i].contentBytes <= 262144)
    {
      if messages[i].callId.Some? {
        IdsMean(messages[i].callId.value);
        CalledBeforeMeans(messages, i);
      }
    }
  }

  lemma AnsweredOnceMeans(messages: seq<Message>)
    requires ResultsProper(messages)
    ensures AnsweredOnce(messages, |messages|) <==> AnswersDiffer(messages)
  {
    if AnsweredOnce(messages, |messages|) {
      forall i: nat, j: nat | i < j < |messages| && messages[i].isTool && messages[j].isTool
        ensures messages[i].callId != messages[j].callId
      {
        var id := messages[j].callId.value;
        assert !Answered(messages, j, id);
        assert !Answers(messages, i, id);
      }
    }
    if AnswersDiffer(messages) {
      forall j | 0 <= j < |messages| && messages[j].isTool && messages[j].callId.Some?
        ensures !Answered(messages, j, messages[j].callId.value)
      {
        assert forall i :: 0 <= i < j ==> !Answers(messages, i, messages[j].callId.value);
      }
    }
  }

  /** The history check in terms of the messages alone. */
  lemma WellFormedMeans(messages: seq<Message>)
    ensures WellFormed(messages) <==> Proper(messages)
  {
    SumsAre(messages);
    ValidIdsMean(messages);
    DistinctIdsMean(messages);
    ResultsMean(messages);
    if ResultsProper(messages) {
      AnsweredOnceMeans(messages);
    }
  }
}
