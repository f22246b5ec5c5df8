/** What callers and watchers see of interleaved calls is what they see of the run of whole calls. */
module Observations {
  import opened Bytes
  import opened Engine
  import opened History
  import opened Interleaving
  import opened Linearization
  import opened Transactions
  import Watch

  lemma SameAnswers(a: State, b: State, revision: int, ops: seq<RequestOp>, responses: seq<ResponseOp>)
    requires SameStore(a, b) && AnswersAll(a, revision, ops, responses)
    ensures AnswersAll(b, revision, ops, responses)
  {
    forall i | 0 <= i < |ops|
      ensures Answers(ApplyOps(b, revision, ops[..i]), ops[i], responses[i])
    {
      SameStoreOps(a, b, revision, ops[..i]);
      SameAnswer(ApplyOps(a, revision, ops[..i]), ApplyOps(b, revision, ops[..i]), ops[i], responses[i]);
    }
  }

  lemma SameAnswer(a: State, b: State, op: RequestOp, r: ResponseOp)
    requires a.data == b.data && Answers(a, op, r)
    ensures Answers(b, op, r)
  {
  }

  lemma SameRequests(s: State, t: State, call: Op)
    requires SameStore(s, t)
    ensures AsOps(s, call) == AsOps(t, call)
    ensures ValidOp(s, call) <==> ValidOp(t, call)
    ensures ValidOp(s, call) ==> Watch.Notices(s, call) == Watch.Notices(t, call)
  {
  }

  /** When a call takes the store's mutex it finds the records and the revision of the run of whole calls; so
      its guards choose the same branch, its responses answer it there too, and it reports the same changes
      at the same revision. That holds in every interleaving, a torn lease index included. */
  lemma CallSeesTheRun(events: seq<Event>, call: Op, orders: seq<seq<Bytes>>, responses: seq<ResponseOp>)
    requires Possible(events) && Enabled(After(events), Begin(call, orders))
    ensures var s, t := After(events).state, Run(INIT, AtomicOps(events));
            && AsOps(s, call) == AsOps(t, call)
            && (ValidOp(s, call) <==> ValidOp(t, call))
            && (ValidOp(s, call) ==> Watch.Notices(s, call) == Watch.Notices(t, call))
            && (AnswersAll(Bumped(s), s.revision + 1, AsOps(s, call), responses)
                <==> AnswersAll(Bumped(t), t.revision + 1, AsOps(t, call), responses))
  {
    hide Step, Run, ApplyOps, AnswersAll, AsOps, ValidOp, Watch.Notices, Possible, After, ValidOrders;
    StoreLinearizable(events);
    var s, t := After(events).state, Run(INIT, AtomicOps(events));
    SameRequests(s, t, call);
    if AnswersAll(Bumped(s), s.revision + 1, AsOps(s, call), responses) {
      SameAnswers(Bumped(s), Bumped(t), s.revision + 1, AsOps(s, call), responses);
    }
    if AnswersAll(Bumped(t), t.revision + 1, AsOps(t, call), responses) {
      SameAnswers(Bumped(t), Bumped(s), s.revision + 1, AsOps(s, call), responses);
    }
  }
}
