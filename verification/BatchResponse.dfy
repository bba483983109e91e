/**
 * Feeding the answer of one JSON-RPC batch to the requests of that batch
 * (section 6, "Batch", of the JSON-RPC 2.0 Specification).
 */
module BatchResponse {
  import opened Common
  import opened SanitizeError

  /** Length limit of the data attached to an error. */
  const DATA_LIMIT: nat := 1000

  datatype RpcError = RpcError(code: int, message: string, data: Value)

  /**
   * An element of the answer.  `id` is the request number that the response names, when its id reads
   * as one.  Null stands for an element whose members cannot be read at all.
   */
  datatype Payload = NullPayload | Payload(id: Option<int>, result: Value, error: Option<RpcError>)

  /** What came back for the whole batch. */
  datatype Outcome =
    | Answer(payloads: seq<Payload>)
    | NotAnArray(errorMessage: Option<string>, error: Value)
    | NullAnswer
    | FetchFailed(reason: int)

  datatype RequestError =
    | PartialBatch(requestedId: int, receivedIds: seq<Option<int>>, batchSize: nat)
    | ResponseError(code: int, message: string, data: Value)
    | UnexpectedBatch(possibleReason: Option<string>, data: Value)
    | CannotReadNull
    | Fetch(reason: int)
    | RequestTimeout(requestedId: int)

  datatype Settlement = Resolved(result: Value) | Rejected(error: RequestError)

  // ---------------------------------------------------------------- the meaning of an answer

  function ReceivedIds(payloads: seq<Payload>): (ids: seq<Option<int>>)
    requires NullPayload !in payloads
    ensures |ids| == |payloads|
    ensures forall i :: 0 <= i < |ids| ==> ids[i] == payloads[i].id
  {
    seq(|payloads|, i requires 0 <= i < |payloads| => payloads[i].id)
  }

  predicate IsLastWithId(payloads: seq<Payload>, id: int, i: nat)
    requires i < |payloads|
  {
    && payloads[i].Payload? && payloads[i].id == Some(id)
    && forall j :: i < j < |payloads| && payloads[j].Payload? ==> payloads[j].id != Some(id)
  }

  /** The last payload that names the id. */
  function LastWithId(payloads: seq<Payload>, id: int): (r: Option<Payload>)
    ensures r.Some? ==> exists i :: 0 <= i < |payloads| && payloads[i] == r.value && IsLastWithId(payloads, id, i)
    ensures r.Some? ==> r.value in payloads && r.value.Payload? && r.value.id == Some(id)
    ensures r.None? ==> forall p :: p in payloads && p.Payload? ==> p.id != Some(id)
  {
    if payloads == [] then None
    else
      var last := payloads[|payloads| - 1];
      if last.Payload? && last.id == Some(id) then Some(last) else LastWithId(payloads[..|payloads| - 1], id)
  }

  /** The error of an answer that cannot be read as a batch; it goes to every request. */
  function WholeBatchError(outcome: Outcome): Option<RequestError> {
    match outcome
    case Answer(payloads) => if NullPayload in payloads then Some(CannotReadNull) else None
    case NotAnArray(message, error) =>
      var reason := if message == Some("") then None else message;
      Some(UnexpectedBatch(reason, Truncate(error, DATA_LIMIT)))
    case NullAnswer => Some(CannotReadNull)
    case FetchFailed(reason) => Some(Fetch(reason))
  }

  /** What the answer means for one request, whatever else is in the batch. */
  function SettlementFor(outcome: Outcome, id: int): Settlement {
    var whole := WholeBatchError(outcome);
    if whole.Some? then Rejected(whole.value)
    else
      match LastWithId(outcome.payloads, id)
      case None => Rejected(PartialBatch(id, ReceivedIds(outcome.payloads), |outcome.payloads|))
      case Some(payload) =>
        match payload.error
        case Some(e) => Rejected(ResponseError(e.code, e.message, Truncate(e.data, DATA_LIMIT)))
        case None => Resolved(payload.result)
  }

  /** What a requester is promised, case by case, in terms of the payloads that came back. */
  ghost predicate Promised(outcome: Outcome, id: int, s: Settlement) {
    match outcome
    case FetchFailed(reason) => s == Rejected(Fetch(reason))
    case NullAnswer => s == Rejected(CannotReadNull)
    case NotAnArray(message, error) =>
      && s.Rejected? && s.error.UnexpectedBatch?
      && s.error.possibleReason == (if message == Some("") then None else message)
      && s.error.data == Truncate(error, 1000)
    case Answer(payloads) =>
      if NullPayload in payloads then s == Rejected(CannotReadNull)
      else
        && (forall i :: 0 <= i < |payloads| && IsLastWithId(payloads, id, i) ==> PayloadPromised(payloads[i], s))
        && ((forall i :: 0 <= i < |payloads| ==> payloads[i].id != Some(id)) ==>
              && s.Rejected? && s.error.PartialBatch?
              && s.error.requestedId == id
              && s.error.batchSize == |s.error.receivedIds| == |payloads|
              && forall i :: 0 <= i < |payloads| ==> s.error.receivedIds[i] == payloads[i].id)
  }

  /** A payload with an error rejects with its code, message and truncated data; any other resolves with its result. */
  ghost predicate PayloadPromised(payload: Payload, s: Settlement)
    requires payload.Payload?
  {
    && (payload.error.None? <==> s.Resolved?)
    && (s.Resolved? ==> s.result == payload.result)
    && (s.Rejected? ==>
          && s.error.ResponseError?
          && s.error.code == payload.error.value.code
          && s.error.message == payload.error.value.message
          && s.error.data == Truncate(payload.error.value.data, 1000))
  }

  /** Only one settlement keeps the promise, and it is the one that the handlers make. */
  lemma {:induction false} OneSettlementIsPromised(outcome: Outcome, id: int, s: Settlement)
    ensures Promised(outcome, id, s) <==> s == SettlementFor(outcome, id)
  {
    if outcome.Answer? && NullPayload !in outcome.payloads {
      var payloads := outcome.payloads;
      var last := LastWithId(payloads, id);
      if last.Some? {
        var i :| 0 <= i < |payloads| && payloads[i] == last.value && IsLastWithId(payloads, id, i);
        forall j | 0 <= j < |payloads| && IsLastWithId(payloads, id, j)
          ensures j == i
        {
        }
      } else {
        assert forall i :: 0 <= i < |payloads| ==> payloads[i] in payloads && payloads[i].id != Some(id);
        assert forall i :: 0 <= i < |payloads| ==> !IsLastWithId(payloads, id, i);
        if Promised(outcome, id, s) {
          assert s.error.receivedIds == ReceivedIds(payloads);
        }
      }
    }
  }

  /** The promises after the answer: those settled before keep their first settlement. */
  function SettleBatch(settled: map<int, Settlement>, batch: seq<int>, outcome: Outcome): map<int, Settlement> {
    map id | id in settled.Keys + Members(batch) :: if id in settled then settled[id] else SettlementFor(outcome, id)
  }

  function Members(batch: seq<int>): set<int> {
    set id | id in batch
  }

  // ---------------------------------------------------------------- the handlers, step by step

  /** A promise takes its first settlement only. */
  function Settle(settled: map<int, Settlement>, id: int, s: Settlement): map<int, Settlement> {
    if id in settled then settled else settled[id := s]
  }

  /** Later payloads replace earlier ones with the same id; an unreadable one makes the whole reduction throw. */
  method ResultMap(payloads: seq<Payload>) returns (r: Result<map<int, Payload>, RequestError>)
    ensures NullPayload in payloads ==> r == Err(CannotReadNull)
    ensures NullPayload !in payloads ==>
              && r.Ok?
              && (forall id :: id in r.value <==> LastWithId(payloads, id).Some?)
              && (forall id :: id in r.value ==> Some(r.value[id]) == LastWithId(payloads, id))
  {
    var resultMap: map<int, Payload> := map[];
    for i := 0 to |payloads|
      invariant NullPayload !in payloads[..i]
      invariant forall id :: id in resultMap <==> LastWithId(payloads[..i], id).Some?
      invariant forall id :: id in resultMap ==> Some(resultMap[id]) == LastWithId(payloads[..i], id)
    {
      var payload := payloads[i];
      assert payloads[..i + 1] == payloads[..i] + [payload];
      assert forall id :: LastWithId(payloads[..i + 1], id) ==
                          if payload.Payload? && payload.id == Some(id) then Some(payload) else LastWithId(payloads[..i], id) by {
        assert payloads[..i + 1][..i] == payloads[..i];
      }
      if payload.NullPayload? {
        return Err(CannotReadNull);
      }
      if payload.id.Some? {
        resultMap := resultMap[payload.id.value := payload];
      }
    }
    assert payloads[..|payloads|] == payloads;
    r := Ok(resultMap);
  }

  method RejectAll(settled: map<int, Settlement>, batch: seq<int>, error: RequestError)
    returns (settled': map<int, Settlement>)
    ensures settled'.Keys == settled.Keys + Members(batch)
    ensures forall id :: id in settled' ==> settled'[id] == if id in settled then settled[id] else Rejected(error)
  {
    settled' := settled;
    for i := 0 to |batch|
      invariant settled'.Keys == settled.Keys + Members(batch[..i])
      invariant forall id :: id in settled' ==> settled'[id] == if id in settled then settled[id] else Rejected(error)
    {
      assert batch[..i + 1] == batch[..i] + [batch[i]];
      settled' := Settle(settled', batch[i], Rejected(error));
    }
    assert batch[..|batch|] == batch;
  }

  /** The success and failure handlers of a batch, with the final handler that catches what they throw. */
  method HandleOutcome(settled: map<int, Settlement>, batch: seq<int>, outcome: Outcome)
    returns (settled': map<int, Settlement>)
    ensures settled' == SettleBatch(settled, batch, outcome)
    ensures settled'.Keys == settled.Keys + Members(batch)
    ensures forall id :: id in settled ==> settled'[id] == settled[id]
    ensures forall id :: id in batch && id !in settled ==> Promised(outcome, id, settled'[id])
  {
    forall id
      ensures Promised(outcome, id, SettlementFor(outcome, id))
    {
      OneSettlementIsPromised(outcome, id, SettlementFor(outcome, id));
    }
    if !outcome.Answer? {
      settled' := RejectAll(settled, batch, WholeBatchError(outcome).value);
      IsSettleBatch(settled, batch, outcome, settled');
      return;
    }
    var payloads := outcome.payloads;
    var resultMap := ResultMap(payloads);
    if resultMap.Err? {
      assert WholeBatchError(outcome) == Some(resultMap.error);
      settled' := RejectAll(settled, batch, resultMap.error);
      IsSettleBatch(settled, batch, outcome, settled');
      return;
    }
    settled' := settled;
    for i := 0 to |batch|
      invariant settled'.Keys == settled.Keys + Members(batch[..i])
      invariant forall id :: id in settled' ==>
                  settled'[id] == if id in settled then settled[id] else SettlementFor(outcome, id)
    {
      var id := batch[i];
      assert batch[..i + 1] == batch[..i] + [id];
      if id !in resultMap.value {
        settled' := Settle(settled', id, Rejected(PartialBatch(id, ReceivedIds(payloads), |payloads|)));
      } else if resultMap.value[id].error.Some? {
        var e := resultMap.value[id].error.value;
        settled' := Settle(settled', id, Rejected(ResponseError(e.code, e.message, Truncate(e.data, DATA_LIMIT))));
      } else {
        settled' := Settle(settled', id, Resolved(resultMap.value[id].result));
      }
    }
    assert batch[..|batch|] == batch;
    IsSettleBatch(settled, batch, outcome, settled');
  }

  lemma IsSettleBatch(settled: map<int, Settlement>, batch: seq<int>, outcome: Outcome, settled': map<int, Settlement>)
    requires settled'.Keys == settled.Keys + Members(batch)
    requires forall id :: id in settled' ==>
               settled'[id] == if id in settled then settled[id] else SettlementFor(outcome, id)
    ensures settled' == SettleBatch(settled, batch, outcome)
  {
    var expected := SettleBatch(settled, batch, outcome);
    assert expected.Keys == settled'.Keys;
    forall id | id in settled'
      ensures settled'[id] == expected[id]
    {
      assert id in expected;
    }
  }

  // ---------------------------------------------------------------- what the requests get

  /** Whatever came back, every request of the batch ends settled, and nothing settled before changes. */
  lemma EveryRequestSettles(settled: map<int, Settlement>, batch: seq<int>, outcome: Outcome)
    ensures forall id :: id in batch ==> id in SettleBatch(settled, batch, outcome)
    ensures forall id :: id in settled ==> SettleBatch(settled, batch, outcome)[id] == settled[id]
    ensures SettleBatch(settled, batch, outcome).Keys == settled.Keys + Members(batch)
  {
  }

  /** Payloads that name the same id are the same; they are when ids are distinct. */
  predicate ConsistentIds(payloads: seq<Payload>) {
    forall p, q :: p in payloads && q in payloads && p.Payload? && q.Payload? && p.id.Some? && p.id == q.id ==> p == q
  }

  /** Equal up to the order in which a partial-batch error lists the received ids. */
  predicate SameAnswer(a: Settlement, b: Settlement) {
    || a == b
    || (&& a.Rejected? && b.Rejected? && a.error.PartialBatch? && b.error.PartialBatch?
        && a.error.requestedId == b.error.requestedId && a.error.batchSize == b.error.batchSize
        && multiset(a.error.receivedIds) == multiset(b.error.receivedIds))
  }

  /** The received ids of b, with element j taken out. */
  lemma {:induction false} ReceivedIdsWithout(b: seq<Payload>, j: nat)
    requires j < |b| && NullPayload !in b
    ensures
      var rest := b[..j] + b[j + 1..];
      && NullPayload !in rest
      && multiset(rest) == multiset(b) - multiset{b[j]}
      && multiset(ReceivedIds(b)) == multiset(ReceivedIds(rest)) + multiset{b[j].id}
  {
    var rest, ids := b[..j] + b[j + 1..], ReceivedIds(b);
    assert b == b[..j] + [b[j]] + b[j + 1..];
    assert ReceivedIds(rest) == ids[..j] + ids[j + 1..];
    assert ids == ids[..j] + [b[j].id] + ids[j + 1..];
  }

  lemma {:induction false} ReceivedIdsPermute(a: seq<Payload>, b: seq<Payload>)
    requires multiset(a) == multiset(b) && NullPayload !in a && NullPayload !in b
    ensures multiset(ReceivedIds(a)) == multiset(ReceivedIds(b))
    decreases |a|
  {
    assert |a| == |multiset(a)| == |multiset(b)| == |b|;
    if a != [] {
      assert a[0] in multiset(b);
      var j :| 0 <= j < |b| && b[j] == a[0];
      ReceivedIdsWithout(a, 0);
      ReceivedIdsWithout(b, j);
      ReceivedIdsPermute(a[..0] + a[1..], b[..j] + b[j + 1..]);
    }
  }

  lemma SameMembers(a: seq<Payload>, b: seq<Payload>)
    requires multiset(a) == multiset(b)
    ensures |a| == |b| && forall p :: p in a <==> p in b
  {
    assert |a| == |multiset(a)| == |multiset(b)| == |b|;
    assert forall p :: p in a <==> p in multiset(a);
    assert forall p :: p in b <==> p in multiset(b);
  }

  /** Answering the requests of a batch in another order changes nothing for any request. */
  lemma {:induction false} OrderDoesNotMatter(a: seq<Payload>, b: seq<Payload>, id: int)
    requires multiset(a) == multiset(b) && ConsistentIds(a)
    ensures SameAnswer(SettlementFor(Answer(a), id), SettlementFor(Answer(b), id))
  {
    SameMembers(a, b);
    if NullPayload !in a {
      ReceivedIdsPermute(a, b);
      assert LastWithId(a, id) == LastWithId(b, id);
    }
  }
}
