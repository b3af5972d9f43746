/** Which message histories with tool calls and tool results a request may carry. */
module MessageHistory {
  import opened Wrappers

  datatype Call = Call(id: string, argumentBytes: nat)

  /** `calls` are the tool calls of an assistant message, `callId` what a tool message answers. */
  datatype Message = Message(isTool: bool, calls: Option<seq<Call>>, callId: Option<string>, contentBytes: nat)

  const MAX_MESSAGES := 256
  const MAX_CALLS := 128
  const ARGUMENTS_CAP := 2 * 1024 * 1024
  const RESULT_CAP := 256 * 1024
  const RESULTS_CAP := 1024 * 1024

  predicate Alphanumeric(c: char) {
    '0' <= c <= '9' || 'A' <= c <= 'Z' || 'a' <= c <= 'z'
  }

  /** `call_` and 16 to 64 letters and digits. */
  predicate CallId(id: string) {
    && "call_" <= id
    && 16 <= |id| - 5 <= 64
    && forall i :: 5 <= i < |id| ==> Alphanumeric(id[i])
  }

  // ---------- what a history must look like ----------

  /** A call with the index of the message that makes it. */
  datatype Placed = Placed(call: Call, message: nat)

  function CallsOf(message: Message): seq<Call> {
    if message.calls.None? then [] else message.calls.value
  }

  function Place(calls: seq<Call>, message: nat): (r: seq<Placed>)
    ensures |r| == |calls| && forall k :: 0 <= k < |r| ==> r[k] == Placed(calls[k], message)
  {
    seq(|calls|, k requires 0 <= k < |calls| => Placed(calls[k], message))
  }

  /** The calls of the first `n` messages, in order. */
  function Calls(messages: seq<Message>, n: nat): seq<Placed>
    requires n <= |messages|
  {
    if n == 0 then [] else Calls(messages, n - 1) + Place(CallsOf(messages[n - 1]), n - 1)
  }

  function ArgumentBytes(calls: seq<Placed>): nat {
    if calls == [] then 0 else ArgumentBytes(calls[..|calls| - 1]) + calls[|calls| - 1].call.argumentBytes
  }

  predicate ValidIds(calls: seq<Placed>) {
    forall k :: 0 <= k < |calls| ==> CallId(calls[k].call.id)
  }

  predicate DistinctIds(calls: seq<Placed>) {
    forall i, j :: 0 <= i < j < |calls| ==> calls[i].call.id != calls[j].call.id
  }

  predicate Makes(placed: Placed, id: string) {
    placed.call.id == id
  }

  predicate HasCall(calls: seq<Placed>, id: string) {
    exists k :: 0 <= k < |calls| && Makes(calls[k], id)
  }

  /** Some call with this id is made in a message before `i`. */
  predicate CalledBefore(calls: seq<Placed>, id: string, i: nat) {
    exists k :: 0 <= k < |calls| && Makes(calls[k], id) && calls[k].message < i
  }

  predicate ResultOk(messages: seq<Message>, calls: seq<Placed>, i: nat)
    requires i < |messages|
  {
    messages[i].isTool ==>
      && messages[i].callId.Some? && CallId(messages[i].callId.value)
      && CalledBefore(calls, messages[i].callId.value, i)
      && messages[i].contentBytes <= RESULT_CAP
  }

  predicate AllResultsOk(messages: seq<Message>, calls: seq<Placed>, n: nat)
    requires n <= |messages|
  {
    forall i :: 0 <= i < n ==> ResultOk(messages, calls, i)
  }

  predicate Answers(messages: seq<Message>, i: nat, id: string)
    requires i < |messages|
  {
    messages[i].isTool && messages[i].callId == Some(id)
  }

  predicate Answered(messages: seq<Message>, n: nat, id: string)
    requires n <= |messages|
  {
    exists i :: 0 <= i < n && Answers(messages, i, id)
  }

  /** No call is answered twice. */
  predicate AnsweredOnce(messages: seq<Message>, n: nat)
    requires n <= |messages|
  {
    forall j :: 0 <= j < n && messages[j].isTool && messages[j].callId.Some? ==>
      !Answered(messages, j, messages[j].callId.value)
  }

  function ResultBytes(messages: seq<Message>, n: nat): nat
    requires n <= |messages|
  {
    if n == 0 then 0
    else ResultBytes(messages, n - 1) + if messages[n - 1].isTool then messages[n - 1].contentBytes else 0
  }

  predicate CallsOk(calls: seq<Placed>) {
    |calls| <= MAX_CALLS && ValidIds(calls) && DistinctIds(calls) && ArgumentBytes(calls) <= ARGUMENTS_CAP
  }

  predicate WellFormed(messages: seq<Message>) {
    var calls := Calls(messages, |messages|);
    && |messages| <= MAX_MESSAGES
    && CallsOk(calls)
    && AllResultsOk(messages, calls, |messages|)
    && AnsweredOnce(messages, |messages|)
    && ResultBytes(messages, |messages|) <= RESULTS_CAP
  }

  // ---------- what an error says ----------

  datatype Error =
    | MessagesTooLong | TooManyToolCalls | InvalidToolCallId | ArgumentsTooLarge | DuplicateToolCallId
    | CallNotFound | ResultOutOfOrder | ResultTooLarge | ResultsTooLarge

  predicate InvalidIdAt(messages: seq<Message>, i: nat)
    requires i < |messages|
  {
    messages[i].isTool && (messages[i].callId.None? || !CallId(messages[i].callId.value))
  }

  predicate AnswersNothing(messages: seq<Message>, calls: seq<Placed>, i: nat)
    requires i < |messages|
  {
    messages[i].isTool && messages[i].callId.Some? && !HasCall(calls, messages[i].callId.value)
  }

  predicate AnswersLater(messages: seq<Message>, calls: seq<Placed>, i: nat)
    requires i < |messages|
  {
    && messages[i].isTool && messages[i].callId.Some? && HasCall(calls, messages[i].callId.value)
    && !CalledBefore(calls, messages[i].callId.value, i)
  }

  /** What is wrong with the history when the error is reported. */
  predicate Explains(error: Error, messages: seq<Message>) {
    var calls := Calls(messages, |messages|);
    match error
    case MessagesTooLong => |messages| > MAX_MESSAGES
    case TooManyToolCalls => |calls| > MAX_CALLS
    case InvalidToolCallId => !ValidIds(calls) || exists i :: 0 <= i < |messages| && InvalidIdAt(messages, i)
    case ArgumentsTooLarge => ArgumentBytes(calls) > ARGUMENTS_CAP
    case DuplicateToolCallId => !DistinctIds(calls) || !AnsweredOnce(messages, |messages|)
    case CallNotFound => exists i :: 0 <= i < |messages| && AnswersNothing(messages, calls, i)
    case ResultOutOfOrder => exists i :: 0 <= i < |messages| && AnswersLater(messages, calls, i)
    case ResultTooLarge => exists i :: 0 <= i < |messages| && messages[i].isTool && messages[i].contentBytes > RESULT_CAP
    case ResultsTooLarge => ResultBytes(messages, |messages|) > RESULTS_CAP
  }

  /** An error never explains a well-formed history. */
  lemma ErrorsAreReal(error: Error, messages: seq<Message>)
    requires Explains(error, messages)
    ensures !WellFormed(messages)
  {
    var calls := Calls(messages, |messages|);
    assert forall i :: 0 <= i < |messages| && AnswersNothing(messages, calls, i) ==> !ResultOk(messages, calls, i);
    assert forall i :: 0 <= i < |messages| && InvalidIdAt(messages, i) ==> !ResultOk(messages, calls, i);
    assert forall i :: 0 <= i < |messages| && AnswersLater(messages, calls, i) ==> !ResultOk(messages, calls, i);
    assert forall i :: 0 <= i < |messages| && messages[i].isTool && messages[i].contentBytes > RESULT_CAP ==>
                         !ResultOk(messages, calls, i);
  }

  // ---------- results are no more than calls ----------

  function ToolMessages(messages: seq<Message>, n: nat): nat
    requires n <= |messages|
  {
    if n == 0 then 0 else ToolMessages(messages, n - 1) + if messages[n - 1].isTool then 1 else 0
  }

  function IdsOf(calls: seq<Placed>): set<string> {
    set k | 0 <= k < |calls| :: calls[k].call.id
  }

  lemma {:induction false} AtMostOneIdPerCall(calls: seq<Placed>)
    ensures |IdsOf(calls)| <= |calls|
    decreases |calls|
  {
    if calls != [] {
      var init, last := calls[..|calls| - 1], calls[|calls| - 1];
      AtMostOneIdPerCall(init);
      assert IdsOf(calls) == IdsOf(init) + {last.call.id} by {
        assert forall k :: 0 <= k < |init| ==> init[k] == calls[k];
      }
    }
  }

  /** The ids that the first `n` messages answer, all of them made by a call. */
  lemma {:induction false} AnswersAreCalls(messages: seq<Message>, calls: seq<Placed>, n: nat) returns (ids: set<string>)
    requires n <= |messages| && AllResultsOk(messages, calls, n) && AnsweredOnce(messages, n)
    ensures |ids| == ToolMessages(messages, n)
    ensures ids <= IdsOf(calls)
    ensures forall id :: id in ids <==> Answered(messages, n, id)
    decreases n
  {
    if n == 0 {
      ids := {};
    } else {
      ids := AnswersAreCalls(messages, calls, n - 1);
      if messages[n - 1].isTool {
        assert ResultOk(messages, calls, n - 1);
        var id := messages[n - 1].callId.value;
        var k :| 0 <= k < |calls| && Makes(calls[k], id);
        assert calls[k].call.id in IdsOf(calls);
        assert Answers(messages, n - 1, id) && !Answered(messages, n - 1, id);
        ids := ids + {id};
      }
    }
  }

  /** Every result answers a call of its own, so there are no more results than calls. */
  lemma NoMoreResultsThanCalls(messages: seq<Message>)
    requires WellFormed(messages)
    ensures ToolMessages(messages, |messages|) <= |Calls(messages, |messages|)| <= MAX_CALLS
  {
    var calls := Calls(messages, |messages|);
    var ids := AnswersAreCalls(messages, calls, |messages|);
    AtMostOneIdPerCall(calls);
    assert IdsOf(calls) == ids + (IdsOf(calls) - ids);
  }
}
