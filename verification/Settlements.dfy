// lsp/messagehandler.cpp, outgoing side: what the results of requests are settled with.
module Settlements {
  import opened Wrappers
  import opened Json
  import opened JsonRpc
  import opened PendingRequests

  // A result becomes the value of the response, or an error with its code, its message
  // and its data.
  predicate SettledWith(response: Response, settlement: Settlement) {
    match settlement
    case SetValue(json) => response.result == Some(json) && response.error == None
    case SetError(code, message, data) =>
      response.result == None && response.error == Some(ResponseError(code, message, data))
  }

  lemma SettlementSays(response: Response)
    requires response.result.Some? != response.error.Some?
    ensures WellFormed(response) && SettledWith(response, SettlementOf(response))
  {
  }

  // In every run a settlement is of a request that was sent, by a response that was
  // received under its id, with what that response says.
  lemma EverySettlementSays(b: seq<State>, k: nat)
    requires Behavior(b) && k < |b[|b| - 1].settled|
    ensures var s := b[|b| - 1];
      var (i, response) := s.settled[k];
      && i < |s.issued| && response.id == s.issued[i].id && WellFormed(response)
      && SettledWith(response, SettlementOf(response))
  {
    hide Next, Initial, NothingLost, EntriesInv, IdsInv;
    BehaviorInv(b);
    SettlementSays(b[|b| - 1].settled[k].1);
  }

  // Ids count from 1.
  lemma FirstId(s: State, h: nat)
    requires Initial(s) && Enabled(s, Send(h))
    ensures Apply(s, Send(h)).issued == [Issue(h, IntegerId(1))]
    ensures Apply(s, Send(h)).tables[h] == map[IntegerId(1) := 0]
  {
  }

  // Any handler may send at any time, any response may come for it, and what was taken
  // may be settled in any order.
  lemma MayHappen(s: State, h: nat, response: Response)
    requires h in s.tables && response.result.Some? != response.error.Some?
    ensures Enabled(s, Send(h)) && Enabled(s, Receive(h, response))
    ensures forall i | i in s.taken && WellFormed(s.taken[i]) :: Enabled(s, Settle(i))
  {
  }
}
