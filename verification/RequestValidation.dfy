/** The two loops of `RequestValidation.validate`. */
module RequestValidation {
  import opened Wrappers
  import opened MessageHistory
  import opened HistoryReading

  // ---------- prefixes ----------

  lemma PrefixStays<T>(a: seq<T>, b: seq<T>, c: seq<T>)
    requires a <= b
    ensures a <= b + c
  {
  }

  lemma {:induction false} CallsGrow(messages: seq<Message>, n: nat, m: nat)
    requires n <= m <= |messages|
    ensures Calls(messages, n) <= Calls(messages, m)
    decreases m
  {
    if n < m {
      CallsGrow(messages, n, m - 1);
      PrefixStays(Calls(messages, n), Calls(messages, m - 1), Place(CallsOf(messages[m - 1]), m - 1));
    }
  }

  lemma BytesPush(calls: seq<Placed>, last: Placed)
    ensures ArgumentBytes(calls + [last]) == ArgumentBytes(calls) + last.call.argumentBytes
  {
    assert (calls + [last])[..|calls|] == calls;
  }

  lemma {:induction false} BytesGrow(some: seq<Placed>, all: seq<Placed>)
    requires some <= all
    ensures ArgumentBytes(some) <= ArgumentBytes(all)
    decreases |all|
  {
    if |some| < |all| {
      BytesGrow(some, all[..|all| - 1]);
    } else {
      assert some == all;
    }
  }

  lemma {:induction false} ResultBytesGrow(messages: seq<Message>, n: nat, m: nat)
    requires n <= m <= |messages|
    ensures ResultBytes(messages, n) <= ResultBytes(messages, m)
    decreases m
  {
    if n < m {
      ResultBytesGrow(messages, n, m - 1);
    }
  }

  // ---------- the calls ----------

  datatype Scan = Scan(ids: map<string, nat>, duplicate: bool, bytes: nat)

  /** The table holds the message of the first call of every id. */
  predicate FirstAt(calls: seq<Placed>, id: string, message: nat) {
    exists k :: 0 <= k < |calls| && Makes(calls[k], id) && calls[k].message == message
                && forall j :: 0 <= j < k ==> !Makes(calls[j], id)
  }

  ghost predicate Scanned(scan: Scan, calls: seq<Placed>) {
    && ValidIds(calls)
    && (scan.duplicate <==> !DistinctIds(calls))
    && scan.bytes == ArgumentBytes(calls) <= ARGUMENTS_CAP
    && (forall id :: id in scan.ids <==> HasCall(calls, id))
    && (forall id :: id in scan.ids ==> FirstAt(calls, id, scan.ids[id]))
  }

  lemma HasCallPush(calls: seq<Placed>, last: Placed, id: string)
    ensures HasCall(calls + [last], id) <==> HasCall(calls, id) || last.call.id == id
  {
    var more := calls + [last];
    assert forall k :: 0 <= k < |calls| ==> more[k] == calls[k];
    assert more[|calls|] == last;
  }

  lemma FirstAtPush(calls: seq<Placed>, last: Placed, id: string, message: nat)
    requires FirstAt(calls, id, message) || (!HasCall(calls, id) && last == Placed(last.call, message) && last.call.id == id)
    ensures FirstAt(calls + [last], id, message)
  {
    var more := calls + [last];
    assert forall k :: 0 <= k < |calls| ==> more[k] == calls[k];
    if FirstAt(calls, id, message) {
      var k :| 0 <= k < |calls| && Makes(calls[k], id) && calls[k].message == message
               && forall j :: 0 <= j < k ==> !Makes(calls[j], id);
      assert Makes(more[k], id);
    } else {
      assert Makes(more[|calls|], id);
    }
  }

  lemma DistinctPush(calls: seq<Placed>, last: Placed)
    ensures DistinctIds(calls + [last]) <==> DistinctIds(calls) && !HasCall(calls, last.call.id)
  {
    var more := calls + [last];
    assert forall k :: 0 <= k < |calls| ==> more[k] == calls[k];
    assert more[|calls|] == last;
    if DistinctIds(more) {
      assert forall k :: 0 <= k < |calls| ==> calls[k] == more[k] && !Makes(more[k], last.call.id);
    }
    assert forall k :: 0 <= k < |calls| ==> (calls[k].call.id == last.call.id <==> Makes(calls[k], last.call.id));
  }

  datatype Outcome = Go(scan: Scan) | Stop(error: Error)

  /** What stopping in the middle of the calls means. */
  predicate StopsAt(error: Error, calls: seq<Placed>) {
    (error == InvalidToolCallId && !ValidIds(calls)) || (error == ArgumentsTooLarge && ArgumentBytes(calls) > ARGUMENTS_CAP)
  }

  method ScanCall(scan: Scan, placed: Placed, ghost calls: seq<Placed>) returns (r: Outcome)
    requires Scanned(scan, calls)
    ensures r.Go? ==> Scanned(r.scan, calls + [placed])
    ensures r.Stop? ==> StopsAt(r.error, calls + [placed])
  {
    ghost var more := calls + [placed];
    assert more[|calls|] == placed;
    var id := placed.call.id;
    if !CallId(id) {
      return Stop(InvalidToolCallId);
    }
    assert ValidIds(more) by {
      assert forall k :: 0 <= k < |calls| ==> more[k] == calls[k];
    }
    BytesPush(calls, placed);
    var bytes := scan.bytes + placed.call.argumentBytes;
    if bytes > ARGUMENTS_CAP {
      return Stop(ArgumentsTooLarge);
    }
    DistinctPush(calls, placed);
    var ids := if id in scan.ids then scan.ids else scan.ids[id := placed.message];
    forall x
      ensures x in ids <==> HasCall(more, x)
    {
      HasCallPush(calls, placed, x);
    }
    forall x | x in ids
      ensures FirstAt(more, x, ids[x])
    {
      FirstAtPush(calls, placed, x, ids[x]);
    }
    return Go(Scan(ids, scan.duplicate || id in scan.ids, bytes));
  }

  lemma StopsAtGrows(error: Error, some: seq<Placed>, all: seq<Placed>)
    requires StopsAt(error, some) && some <= all
    ensures StopsAt(error, all)
  {
    BytesGrow(some, all);
    assert forall k :: 0 <= k < |some| ==> all[k] == some[k];
  }

  method ScanMessage(scan: Scan, calls: seq<Call>, index: nat, ghost done: seq<Placed>) returns (r: Outcome)
    requires Scanned(scan, done)
    ensures r.Go? ==> Scanned(r.scan, done + Place(calls, index))
    ensures r.Stop? ==> StopsAt(r.error, done + Place(calls, index))
  {
    r := Go(scan);
    ghost var placed := Place(calls, index);
    assert done + placed[..0] == done;
    for k := 0 to |calls|
      invariant r.Go? && Scanned(r.scan, done + placed[..k])
    {
      assert done + placed[..k] + [placed[k]] == done + placed[..k + 1];
      r := ScanCall(r.scan, Placed(calls[k], index), done + placed[..k]);
      if r.Stop? {
        StopsAtGrows(r.error, done + placed[..k + 1], done + placed);
        return;
      }
    }
    assert placed[..|calls|] == placed;
  }

  lemma Empty()
    ensures Scanned(Scan(map[], false, 0), [])
  {
  }

  predicate CallsFault(error: Error, calls: seq<Placed>) {
    || StopsAt(error, calls)
    || (error == TooManyToolCalls && |calls| > MAX_CALLS)
    || (error == DuplicateToolCallId && !DistinctIds(calls))
  }

  lemma FaultStays(messages: seq<Message>, n: nat, error: Error)
    requires n <= |messages| && CallsFault(error, Calls(messages, n))
    ensures CallsFault(error, Calls(messages, |messages|))
  {
    var some, all := Calls(messages, n), Calls(messages, |messages|);
    CallsGrow(messages, n, |messages|);
    if StopsAt(error, some) {
      StopsAtGrows(error, some, all);
    }
    assert forall k :: 0 <= k < |some| ==> all[k] == some[k];
  }

  lemma ScannedAll(scan: Scan, calls: seq<Placed>)
    requires Scanned(scan, calls) && |calls| <= MAX_CALLS
    ensures if scan.duplicate then CallsFault(DuplicateToolCallId, calls) else CallsOk(calls)
  {
  }

  /** One round of the first loop. */
  method ScanRound(messages: seq<Message>, i: nat, scan: Scan, total: nat) returns (r: Outcome, sum: nat)
    requires i < |messages| && Scanned(scan, Calls(messages, i)) && total == |Calls(messages, i)|
    ensures r.Go? ==> Scanned(r.scan, Calls(messages, i + 1)) && sum == |Calls(messages, i + 1)| <= MAX_CALLS
    ensures r.Stop? ==> CallsFault(r.error, Calls(messages, |messages|))
  {
    var calls := CallsOf(messages[i]);
    sum := total + |calls|;
    if sum > MAX_CALLS {
      r := Stop(TooManyToolCalls);
    } else {
      r := ScanMessage(scan, calls, i, Calls(messages, i));
    }
    if r.Stop? {
      FaultStays(messages, i + 1, r.error);
    }
  }

  method ScanLoop(messages: seq<Message>) returns (r: Outcome)
    ensures r.Go? ==> Scanned(r.scan, Calls(messages, |messages|)) && |Calls(messages, |messages|)| <= MAX_CALLS
    ensures r.Stop? ==> CallsFault(r.error, Calls(messages, |messages|))
  {
    r := Go(Scan(map[], false, 0));
    Empty();
    var total := 0;
    for i := 0 to |messages|
      invariant r.Go? && Scanned(r.scan, Calls(messages, i))
      invariant total == |Calls(messages, i)| <= MAX_CALLS
    {
      r, total := ScanRound(messages, i, r.scan, total);
      if r.Stop? {
        return;
      }
    }
  }

  method ScanCalls(messages: seq<Message>) returns (r: Outcome)
    ensures r.Go? ==> Scanned(r.scan, Calls(messages, |messages|)) && CallsOk(Calls(messages, |messages|))
    ensures r.Stop? ==> CallsFault(r.error, Calls(messages, |messages|))
  {
    r := ScanLoop(messages);
    if r.Go? {
      ScannedAll(r.scan, Calls(messages, |messages|));
      if r.scan.duplicate {
        return Stop(DuplicateToolCallId);
      }
    }
  }

  // ---------- the results ----------

  lemma OnlyCall(calls: seq<Placed>, id: string, message: nat, i: nat)
    requires DistinctIds(calls) && FirstAt(calls, id, message)
    ensures HasCall(calls, id)
    ensures CalledBefore(calls, id, i) <==> message < i
  {
    var k :| 0 <= k < |calls| && Makes(calls[k], id) && calls[k].message == message;
    if CalledBefore(calls, id, i) {
      var j :| 0 <= j < |calls| && Makes(calls[j], id) && calls[j].message < i;
      assert j == k;
    }
  }

  /** One tool message against the calls found; the content limits are separate. */
  method CheckReference(messages: seq<Message>, i: nat, scan: Scan, fulfilled: set<string>, ghost calls: seq<Placed>)
    returns (error: Option<Error>)
    requires i < |messages| && messages[i].isTool
    requires Scanned(scan, calls) && DistinctIds(calls) && calls == Calls(messages, |messages|)
    requires forall id :: id in fulfilled <==> Answered(messages, i, id)
    ensures error.Some? ==> Explains(error.value, messages)
    ensures error.None? ==>
              && messages[i].callId.Some? && CallId(messages[i].callId.value)
              && CalledBefore(calls, messages[i].callId.value, i)
              && !Answered(messages, i, messages[i].callId.value)
  {
    if messages[i].callId.None? || !CallId(messages[i].callId.value) {
      assert InvalidIdAt(messages, i);
      return Some(InvalidToolCallId);
    }
    var id := messages[i].callId.value;
    if id !in scan.ids {
      assert AnswersNothing(messages, calls, i);
      return Some(CallNotFound);
    }
    OnlyCall(calls, id, scan.ids[id], i);
    if scan.ids[id] >= i {
      assert AnswersLater(messages, calls, i);
      return Some(ResultOutOfOrder);
    }
    if id in fulfilled {
      return Some(DuplicateToolCallId);
    }
    return None;
  }

  lemma AnsweredStep(messages: seq<Message>, i: nat, id: string)
    requires i < |messages|
    ensures Answered(messages, i + 1, id) <==> Answered(messages, i, id) || Answers(messages, i, id)
  {
  }

  lemma Settled(messages: seq<Message>, calls: seq<Placed>, i: nat)
    requires i < |messages|
    requires AllResultsOk(messages, calls, i) && AnsweredOnce(messages, i)
    requires ResultOk(messages, calls, i)
    requires messages[i].isTool ==> messages[i].callId.Some? && !Answered(messages, i, messages[i].callId.value)
    ensures AllResultsOk(messages, calls, i + 1) && AnsweredOnce(messages, i + 1)
  {
  }

  lemma FulfilledStep(messages: seq<Message>, i: nat, fulfilled: set<string>)
    requires i < |messages| && forall id :: id in fulfilled <==> Answered(messages, i, id)
    ensures !messages[i].isTool ==> forall id :: id in fulfilled <==> Answered(messages, i + 1, id)
    ensures messages[i].isTool && messages[i].callId.Some? ==>
              forall id :: id in fulfilled + {messages[i].callId.value} <==> Answered(messages, i + 1, id)
  {
    forall id {
      AnsweredStep(messages, i, id);
    }
  }

  method CheckResults(messages: seq<Message>, scan: Scan, ghost calls: seq<Placed>) returns (error: Option<Error>)
    requires Scanned(scan, calls) && DistinctIds(calls) && calls == Calls(messages, |messages|)
    ensures error.Some? ==> Explains(error.value, messages)
    ensures error.None? ==>
              && AllResultsOk(messages, calls, |messages|) && AnsweredOnce(messages, |messages|)
              && ResultBytes(messages, |messages|) <= RESULTS_CAP
  {
    var fulfilled, bytes := {}, 0;
    for i := 0 to |messages|
      invariant forall id :: id in fulfilled <==> Answered(messages, i, id)
      invariant bytes == ResultBytes(messages, i) <= RESULTS_CAP
      invariant AllResultsOk(messages, calls, i) && AnsweredOnce(messages, i)
    {
      FulfilledStep(messages, i, fulfilled);
      if messages[i].isTool {
        error := CheckReference(messages, i, scan, fulfilled, calls);
        if error.Some? {
          return;
        }
        fulfilled := fulfilled + {messages[i].callId.value};
        if messages[i].contentBytes > RESULT_CAP {
          return Some(ResultTooLarge);
        }
        bytes := bytes + messages[i].contentBytes;
        if bytes > RESULTS_CAP {
          ResultBytesGrow(messages, i + 1, |messages|);
          return Some(ResultsTooLarge);
        }
      }
      Settled(messages, calls, i);
    }
    return None;
  }

  /** `RequestValidation.validate`: accepts exactly the well-formed histories, and names something really wrong otherwise. */
  method Validate(messages: seq<Message>) returns (error: Option<Error>)
    ensures error.None? <==> WellFormed(messages)
    ensures error.None? <==> Proper(messages)
    ensures error.Some? ==> Explains(error.value, messages)
  {
    WellFormedMeans(messages);
    if |messages| > MAX_MESSAGES {
      return Some(MessagesTooLong);
    }
    ghost var calls := Calls(messages, |messages|);
    var scanned := ScanCalls(messages);
    if scanned.Stop? {
      ErrorsAreReal(scanned.error, messages);
      return Some(scanned.error);
    }
    error := CheckResults(messages, scanned.scan, calls);
    if error.Some? {
      ErrorsAreReal(error.value, messages);
    }
  }
}
