// lsp/messagehandler.cpp, outgoing side: ids from one shared counter, the table
// of pending requests of each message handler, and the settlement of results
// when responses come in.
module PendingRequests {
  import opened Wrappers
  import opened Text
  import opened Json
  import opened JsonRpc

  // Which request, counted over all handlers, a result object belongs to.
  type ResultId = nat

  // What a response does to the result object of its request.
  datatype Settlement = SetValue(json: Value) | SetError(code: int, message: string, data: Option<Value>)

  // A response from the wire has a result or an error (ResponseFrom).
  predicate WellFormed(r: Response) { r.result.Some? != r.error.Some? }

  function SettlementOf(r: Response): Settlement
    requires WellFormed(r)
  {
    if r.result.Some? then SetValue(r.result.value)
    else SetError(r.error.value.code, r.error.value.message, r.error.value.data)
  }

  type Table = map<MessageId, ResultId>

  function WithEntry(table: Table, id: MessageId, result: ResultId): Table { table[id := result] }

  class IdCounter {
    var value: int

    constructor ()
      ensures value == 0
    {
      value := 0;
    }

    method NextUniqueRequestId() returns (id: int)
      modifies this
      ensures id == value == WrapInt32(old(value) + 1)
    {
      value := WrapInt32(value + 1);
      id := value;
    }
  }

  class PendingTable {
    var pendingRequests: Table

    constructor ()
      ensures pendingRequests == map[]
    {
      pendingRequests := map[];
    }

    // sendRequest, under the lock of the table; the request is written before
    // the lock is released.
    method SendRequest(counter: IdCounter, result: ResultId) returns (id: MessageId)
      modifies this, counter
      ensures counter.value == WrapInt32(old(counter.value) + 1) && id == IntegerId(counter.value)
      ensures pendingRequests == WithEntry(old(pendingRequests), id, result)
    {
      var messageId := counter.NextUniqueRequestId();
      id := IntegerId(messageId);
      pendingRequests := pendingRequests[id := result];
    }

    // The locked part of processResponse.
    method TakePending(id: MessageId) returns (result: Option<ResultId>)
      modifies this
      ensures result == if id in old(pendingRequests) then Some(old(pendingRequests)[id]) else None
      ensures pendingRequests == old(pendingRequests) - {id}
    {
      result := None;
      if id in pendingRequests {
        result := Some(pendingRequests[id]);
        pendingRequests := pendingRequests - {id};
      }
    }
  }

  // The result object of a request: a promise or a pair of callbacks, of which
  // processResponse fires exactly one side.
  class RequestResult {
    var settlement: Option<Settlement>

    constructor ()
      ensures settlement == None
    {
      settlement := None;
    }

    method Settle(response: Response)
      requires settlement == None && WellFormed(response)
      modifies this
      ensures settlement == Some(SettlementOf(response))
    {
      if response.result.Some? {
        settlement := Some(SetValue(response.result.value));
      } else {
        var error := response.error.value;
        settlement := Some(SetError(error.code, error.message, error.data));
      }
    }
  }

  // ---------------------------------------------------------------- runs

  datatype Issue = Issue(handler: nat, id: MessageId)

  datatype State = State(
    counter: int,
    tables: map<nat, Table>,
    taken: map<ResultId, Response>,
    // history: the requests written, and the settlements, in order
    issued: seq<Issue>,
    settled: seq<(ResultId, Response)>)

  datatype Step =
    | Send(handler: nat)
    | Receive(handler: nat, response: Response)
    | Settle(result: ResultId)

  ghost predicate Enabled(s: State, step: Step) {
    match step
    case Send(h) => h in s.tables
    case Receive(h, r) => h in s.tables && WellFormed(r)
    case Settle(i) => i in s.taken && WellFormed(s.taken[i])
  }

  ghost function Apply(s: State, step: Step): State
    requires Enabled(s, step)
  {
    match step
    case Send(h) =>
      var counter := WrapInt32(s.counter + 1);
      s.(counter := counter,
         tables := s.tables[h := WithEntry(s.tables[h], IntegerId(counter), |s.issued|)],
         issued := s.issued + [Issue(h, IntegerId(counter))])
    case Receive(h, r) =>
      if r.id in s.tables[h] then
        s.(tables := s.tables[h := s.tables[h] - {r.id}], taken := s.taken[s.tables[h][r.id] := r])
      else s
    case Settle(i) =>
      s.(taken := s.taken - {i}, settled := s.settled + [(i, s.taken[i])])
  }

  ghost predicate Next(s: State, s': State) {
    exists step :: Enabled(s, step) && s' == Apply(s, step)
  }

  ghost predicate Initial(s: State) {
    && s.counter == 0 && s.taken == map[] && s.issued == [] && s.settled == []
    && forall h | h in s.tables :: s.tables[h] == map[]
  }

  ghost predicate Behavior(b: seq<State>) {
    && b != [] && Initial(b[0]) && forall i | 0 <= i < |b| - 1 :: Next(b[i], b[i + 1])
  }

  // ---------------------------------------------------------------- invariants

  ghost predicate IsSettled(s: State, i: ResultId) {
    exists k | 0 <= k < |s.settled| :: s.settled[k].0 == i
  }

  ghost predicate IsPending(s: State, i: ResultId) {
    && i < |s.issued| && s.issued[i].handler in s.tables
    && s.issued[i].id in s.tables[s.issued[i].handler]
    && s.tables[s.issued[i].handler][s.issued[i].id] == i
  }

  // The ids issued are the values of the counter, one after the other.
  ghost predicate IdsInv(s: State) {
    && s.counter == WrapInt32(|s.issued|)
    && forall i | 0 <= i < |s.issued| :: s.issued[i].id == IntegerId(WrapInt32(i + 1))
  }

  // A table entry leads to the request that was written under that id by that
  // handler, and that request is neither taken nor settled.
  ghost predicate EntriesInv(s: State) {
    forall h, id | h in s.tables && id in s.tables[h] ::
      var i := s.tables[h][id];
      i < |s.issued| && s.issued[i] == Issue(h, id) && i !in s.taken && !IsSettled(s, i)
  }

  // A taken result is not settled; settlements are of distinct results, each
  // by a response that carries the id of its request.
  ghost predicate SettledInv(s: State) {
    && (forall i | i in s.taken ::
          i < |s.issued| && WellFormed(s.taken[i]) && s.taken[i].id == s.issued[i].id && !IsSettled(s, i))
    && (forall k | 0 <= k < |s.settled| ::
          s.settled[k].0 < |s.issued| && WellFormed(s.settled[k].1) && s.settled[k].1.id == s.issued[s.settled[k].0].id)
    && (forall j, k | 0 <= j < k < |s.settled| :: s.settled[j].0 != s.settled[k].0)
  }

  // As long as ids do not repeat, no request is forgotten.
  ghost predicate NothingLost(s: State) {
    |s.issued| <= WRAP ==>
      forall i: nat | i < |s.issued| :: IsPending(s, i) || i in s.taken || IsSettled(s, i)
  }

  ghost predicate Inv(s: State) { IdsInv(s) && EntriesInv(s) && SettledInv(s) && NothingLost(s) }

  // The counter gives 2^32 ids before one comes back.
  lemma WrapDistinct(i: int, j: int)
    requires 0 <= i < j
    ensures j - i < WRAP ==> WrapInt32(i) != WrapInt32(j)
    ensures j - i == WRAP ==> WrapInt32(i) == WrapInt32(j)
  {
    var x, y := i + 0x8000_0000, j + 0x8000_0000;
    var p, q := x / WRAP, y / WRAP;
    assert x == p * WRAP + x % WRAP && y == q * WRAP + y % WRAP;
    assert (q - p) * WRAP == j - i + x % WRAP - y % WRAP;
    if j - i == WRAP { AddMultiple(x); }
  }

  lemma AddMultiple(x: int)
    ensures (x + WRAP) % WRAP == x % WRAP
  {
    var q, r := x / WRAP, x % WRAP;
    assert x + WRAP == (q + 1) * WRAP + r;
  }

  lemma WrapNext(n: int)
    ensures WrapInt32(WrapInt32(n) + 1) == WrapInt32(n + 1)
  {
    var x := n + 0x8000_0000;
    var q, r := x / WRAP, x % WRAP;
    assert x + 1 == q * WRAP + (r + 1);
    if r + 1 == WRAP {
      assert (x + 1) == (q + 1) * WRAP + 0;
    }
  }

  // Every id issued is new, for the first 2^32 requests of all handlers
  // together; the next id is the first one again.
  lemma FreshIds(s: State)
    requires IdsInv(s)
    ensures (forall i, j | 0 <= i < j < |s.issued| :: s.issued[i].id != s.issued[j].id) <==> |s.issued| <= WRAP
  {
    if |s.issued| <= WRAP {
      forall i, j | 0 <= i < j < |s.issued| ensures s.issued[i].id != s.issued[j].id {
        WrapDistinct(i + 1, j + 1);
      }
    } else {
      WrapDistinct(1, WRAP + 1);
      assert s.issued[0].id == s.issued[WRAP].id;
    }
  }

  lemma SameSettled(s: State, s': State)
    requires s'.settled == s.settled
    ensures forall i: ResultId :: IsSettled(s', i) <==> IsSettled(s, i)
  {
    assert forall i: ResultId | IsSettled(s', i) :: IsSettled(s, i);
    assert forall i: ResultId | IsSettled(s, i) :: IsSettled(s', i);
  }

  lemma SettledIssued(s: State)
    requires SettledInv(s)
    ensures forall i: ResultId | IsSettled(s, i) :: i < |s.issued|
  {
  }

  lemma SendInv(s: State, h: nat)
    requires Inv(s) && Enabled(s, Send(h))
    ensures Inv(Apply(s, Send(h)))
  {
    hide WrapInt32, IsSettled, NothingLost;
    SameSettled(s, Apply(s, Send(h)));
    SettledIssued(s);
    WrapNext(|s.issued|);
    SendLosesNothing(s, h);
  }

  lemma SendLosesNothing(s: State, h: nat)
    requires Inv(s) && Enabled(s, Send(h)) && IdsInv(Apply(s, Send(h)))
    ensures NothingLost(Apply(s, Send(h)))
  {
    hide WrapInt32, IsSettled, SettledInv, EntriesInv, IdsInv;
    var s' := Apply(s, Send(h));
    SameSettled(s, s');
    if |s'.issued| <= WRAP {
      FreshIds(s');
      var n := |s.issued|;
      forall i: nat | i < |s'.issued| ensures IsPending(s', i) || i in s'.taken || IsSettled(s', i) {
        if i < n && IsPending(s, i) {
          assert s'.issued[i].id != s'.issued[n].id;
        }
      }
    }
  }

  lemma ReceiveInv(s: State, h: nat, r: Response)
    requires Inv(s) && Enabled(s, Receive(h, r))
    ensures Inv(Apply(s, Receive(h, r)))
  {
    hide WrapInt32, IsSettled, NothingLost;
    SameSettled(s, Apply(s, Receive(h, r)));
    ReceiveLosesNothing(s, h, r);
  }

  lemma ReceiveLosesNothing(s: State, h: nat, r: Response)
    requires Inv(s) && Enabled(s, Receive(h, r))
    ensures NothingLost(Apply(s, Receive(h, r)))
  {
    hide WrapInt32, IsSettled, SettledInv, IdsInv;
    var s' := Apply(s, Receive(h, r));
    SameSettled(s, s');
    if |s.issued| <= WRAP {
      forall i: nat | i < |s.issued| ensures IsPending(s', i) || i in s'.taken || IsSettled(s', i) {
        if IsPending(s, i) && s.issued[i] != Issue(h, r.id) { assert IsPending(s', i); }
      }
    }
  }

  lemma SettleInv(s: State, i: ResultId)
    requires Inv(s) && Enabled(s, Settle(i))
    ensures Inv(Apply(s, Settle(i)))
  {
    hide WrapInt32;
    var s' := Apply(s, Settle(i));
    assert s'.settled[|s.settled|].0 == i;
    forall j ensures IsSettled(s', j) <==> IsSettled(s, j) || j == i {
      if IsSettled(s, j) {
        var k :| 0 <= k < |s.settled| && s.settled[k].0 == j;
        assert s'.settled[k].0 == j;
      }
    }
    forall j, k | 0 <= j < k < |s'.settled| ensures s'.settled[j].0 != s'.settled[k].0 {
      if k == |s.settled| { assert s.settled[j].0 == s'.settled[j].0; }
    }
  }

  lemma {:induction false} BehaviorInv(b: seq<State>)
    requires Behavior(b)
    ensures Inv(b[|b| - 1])
  {
    hide WrapInt32;
    if |b| > 1 {
      var before := b[..|b| - 1];
      assert before[|before| - 1] == b[|b| - 2];
      BehaviorInv(before);
      assert Next(b[|b| - 2], b[|b| - 1]);
      NextInv(b[|b| - 2], b[|b| - 1]);
    } else {
      InitialInv(b[0]);
    }
  }

  lemma InitialInv(s: State)
    requires Initial(s)
    ensures Inv(s)
  {
  }

  lemma NextInv(s: State, s': State)
    requires Inv(s) && Next(s, s')
    ensures Inv(s')
  {
    hide Inv;
    var step :| Enabled(s, step) && s' == Apply(s, step);
    match step
    case Send(h) => SendInv(s, h);
    case Receive(h, r) => ReceiveInv(s, h, r);
    case Settle(i) => SettleInv(s, i);
  }

  // ---------------------------------------------------------------- theorems

  // No pending entry is overwritten while fewer than 2^32 requests were sent.
  lemma NoOverwrite(b: seq<State>, h: nat)
    requires Behavior(b) && h in b[|b| - 1].tables && |b[|b| - 1].issued| < WRAP
    ensures var s := b[|b| - 1]; IntegerId(WrapInt32(s.counter + 1)) !in s.tables[h]
  {
    hide WrapInt32;
    var s := b[|b| - 1];
    BehaviorInv(b);
    WrapNext(|s.issued|);
    var id := IntegerId(WrapInt32(s.counter + 1));
    if id in s.tables[h] {
      WrapDistinct(s.tables[h][id] + 1, |s.issued| + 1);
      assert false;
    }
  }

  // Every request sent is in exactly one place: pending, taken for settlement,
  // or settled; and each result is settled at most once, whatever ids the peer
  // answers with.
  lemma RequestsPartitioned(b: seq<State>, i: nat)
    requires Behavior(b) && i < |b[|b| - 1].issued| <= WRAP
    ensures var s := b[|b| - 1];
      && (IsPending(s, i) || i in s.taken || IsSettled(s, i))
      && !(IsPending(s, i) && i in s.taken) && !(IsPending(s, i) && IsSettled(s, i))
      && !(i in s.taken && IsSettled(s, i))
  {
    BehaviorInv(b);
  }

  // Settlements are of distinct results, each by a well-formed response under the
  // id of its own request, also when ids repeat.
  lemma SettledOnce(b: seq<State>)
    requires Behavior(b)
    ensures var s := b[|b| - 1];
      && (forall j, k | 0 <= j < k < |s.settled| :: s.settled[j].0 != s.settled[k].0)
      && (forall k | 0 <= k < |s.settled| ::
            var (i, response) := s.settled[k];
            i < |s.issued| && WellFormed(response) && response.id == s.issued[i].id)
  {
    BehaviorInv(b);
  }

  // The first response to a request finds its entry: a response under the id of
  // a request that is neither taken nor settled takes that very request.
  lemma FirstResponseIsTaken(b: seq<State>, i: nat, r: Response)
    requires Behavior(b) && i < |b[|b| - 1].issued| <= WRAP
    requires var s := b[|b| - 1];
      i !in s.taken && !IsSettled(s, i) && r.id == s.issued[i].id && WellFormed(r)
    ensures var s := b[|b| - 1];
      var step := Receive(s.issued[i].handler, r);
      Enabled(s, step) && Apply(s, step).taken == s.taken[i := r]
  {
    BehaviorInv(b);
    assert IsPending(b[|b| - 1], i);
  }

  // And a response that no pending request of the handler matches is ignored.
  lemma StrangeResponseIsIgnored(b: seq<State>, h: nat, r: Response)
    requires Behavior(b) && Enabled(b[|b| - 1], Receive(h, r))
    requires var s := b[|b| - 1]; forall i: nat | i < |s.issued| && s.issued[i] == Issue(h, r.id) :: !IsPending(s, i)
    ensures var s := b[|b| - 1]; Apply(s, Receive(h, r)) == s
  {
    BehaviorInv(b);
    var s := b[|b| - 1];
    if r.id in s.tables[h] {
      assert IsPending(s, s.tables[h][r.id]);
      assert false;
    }
  }
}
