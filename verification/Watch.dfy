/** What a watcher is sent, and what its events add up to. */
module Watch {
  import opened Collections
  import opened Bytes
  import opened Engine
  import opened History
  import opened Ranges

  // Here every call and every registration is a single action; Registration.dfy takes them apart.

  datatype WatchRequest = WatchRequest(key: Bytes, rangeEnd: Bytes, startRevision: int, prevKv: bool)

  datatype Watcher = Watcher(
    watchId: int, key: Bytes, rangeEnd: Bytes, startRevision: int, prevKv: bool, active: bool)

  datatype Event = PutEvent(kv: KeyValue, prevKv: Option<KeyValue>) | DeleteEvent(kv: KeyValue)

  datatype WatchResponse = WatchResponse(
    revision: int, watchId: int, created: bool, canceled: bool, events: seq<Event>)

  /** `sent[id]` is everything written for watcher `id`, in order. */
  datatype Watching = Watching(
    watchers: map<int, Watcher>, nextWatchId: int, sent: map<int, seq<WatchResponse>>)

  const NOT_WATCHING := Watching(map[], 1, map[])

  // ----- What the store reports -----

  /** One call of a watch callback, with the revision the callback reads. */
  datatype Notice =
    | PutNotice(key: Bytes, kv: KeyValue, prev: Option<KeyValue>, revision: int)
    | DeleteNotice(key: Bytes, kv: KeyValue, revision: int)

  /** Put reports its record; a Delete that collects previous records reports each of them; a Txn, and a
      Delete that collects nothing, report nothing. */
  ghost function Notices(s: State, op: Op): seq<Notice>
    requires ValidOp(s, op)
  {
    match op
    case Put(key, value, lease) =>
      [PutNotice(key, NewInfo(s.data, s.revision + 1, key, value, lease).kv,
                 if key in s.data then Some(s.data[key].kv) else None, s.revision + 1)]
    case Delete(_, _, collect, order) =>
      if collect then seq(|order|, i requires 0 <= i < |order| =>
        assert order[i] in order; DeleteNotice(s.data[order[i]].kv.key, s.data[order[i]].kv, s.revision + 1))
      else []
    case _ => []
  }

  ghost function AllNotices(s: State, ops: seq<Op>): seq<Notice>
    requires ValidRun(s, ops)
  {
    if ops == [] then []
    else AllNotices(s, ops[..|ops| - 1]) + Notices(Run(s, ops[..|ops| - 1]), ops[|ops| - 1])
  }

  // ----- What a watcher receives -----

  predicate Receives(w: Watcher, n: Notice)
  {
    w.active && KeyInRange(n.key, w.key, w.rangeEnd)
  }

  function Respond(w: Watcher, n: Notice): WatchResponse
  {
    var event := match n
                 case PutNotice(_, kv, prev, _) => PutEvent(kv, if w.prevKv then prev else None)
                 case DeleteNotice(_, kv, _) => DeleteEvent(kv);
    WatchResponse(n.revision, w.watchId, false, false, [event])
  }

  /** The notices in the watcher's range, each once, in order. */
  function Deliver(w: Watcher, ns: seq<Notice>): seq<WatchResponse>
  {
    if ns == [] then []
    else
      var last := ns[|ns| - 1];
      Deliver(w, ns[..|ns| - 1]) + if Receives(w, last) then [Respond(w, last)] else []
  }

  lemma {:induction false} DeliverAppend(w: Watcher, first: seq<Notice>, second: seq<Notice>)
    ensures Deliver(w, first + second) == Deliver(w, first) + Deliver(w, second)
  {
    if second == [] {
      assert first + second == first;
    } else {
      var n := |second| - 1;
      assert (first + second)[..|first + second| - 1] == first + second[..n];
      DeliverAppend(w, first, second[..n]);
    }
  }

  function NotifyAll(wm: Watching, ns: seq<Notice>): Watching
  {
    wm.(sent := map id | id in wm.sent ::
      wm.sent[id] + if id in wm.watchers then Deliver(wm.watchers[id], ns) else [])
  }

  lemma NotifyTwice(wm: Watching, first: seq<Notice>, second: seq<Notice>)
    ensures NotifyAll(NotifyAll(wm, first), second) == NotifyAll(wm, first + second)
  {
    var a, b := NotifyAll(NotifyAll(wm, first), second).sent, NotifyAll(wm, first + second).sent;
    forall id | id in wm.sent
      ensures a[id] == b[id]
    {
      if id in wm.watchers {
        DeliverAppend(wm.watchers[id], first, second);
        SeqAssociative(wm.sent[id], Deliver(wm.watchers[id], first), Deliver(wm.watchers[id], second));
      } else {
        assert wm.sent[id] + [] + [] == wm.sent[id] + [];
      }
    }
    SameMap(a, b);
  }

  lemma NotifyNothing(wm: Watching)
    ensures NotifyAll(wm, []) == wm
  {
    forall id | id in wm.sent.Keys
      ensures NotifyAll(wm, []).sent[id] == wm.sent[id]
    {
      assert wm.sent[id] + [] == wm.sent[id];
    }
    SameMap(NotifyAll(wm, []).sent, wm.sent);
  }

  function NewWatcher(id: int, req: WatchRequest): Watcher
  {
    Watcher(id, req.key, req.rangeEnd, req.startRevision, req.prevKv, true)
  }

  function SnapshotResponses(w: Watcher, kvs: seq<KeyValue>): seq<WatchResponse>
  {
    seq(|kvs|, i requires 0 <= i < |kvs| =>
      WatchResponse(kvs[i].modRevision, w.watchId, false, false, [PutEvent(kvs[i], None)]))
  }

  ghost function Snapshot(w: Watcher, data: Data): seq<WatchResponse>
  {
    SnapshotResponses(w, RangeResult(data, w.key, w.rangeEnd, 0, false, false))
  }

  ghost function Opening(w: Watcher, s: State): seq<WatchResponse>
  {
    [WatchResponse(s.revision, w.watchId, true, false, [])]
    + if w.startRevision > 0 then Snapshot(w, s.data) else []
  }

  /** A watcher that asks for no start revision is opened with a created response alone. */
  lemma OpeningWithoutSnapshot(w: Watcher, s: State)
    requires w.startRevision <= 0
    ensures |Opening(w, s)| == 1
    ensures var r := Opening(w, s)[0];
            r.created && !r.canceled && r.events == [] && r.watchId == w.watchId && r.revision == s.revision
  {
  }

  function Canceled(id: int): WatchResponse
  {
    WatchResponse(0, id, false, true, [])
  }

  // ----- The whole server -----

  datatype System = System(state: State, watching: Watching)

  const START := System(INIT, NOT_WATCHING)

  datatype Action = Do(op: Op) | Register(req: WatchRequest) | Cancel(id: int)

  ghost predicate ValidAction(sys: System, a: Action)
  {
    a.Do? ==> ValidOp(sys.state, a.op)
  }

  ghost function Act(sys: System, a: Action): System
    requires ValidAction(sys, a)
  {
    match a
    case Do(op) => System(Step(sys.state, op), NotifyAll(sys.watching, Notices(sys.state, op)))
    case Register(req) =>
      var wm := sys.watching;
      var w := NewWatcher(wm.nextWatchId, req);
      sys.(watching := Watching(wm.watchers[w.watchId := w], wm.nextWatchId + 1,
                                wm.sent[w.watchId := Opening(w, sys.state)]))
    case Cancel(id) =>
      var wm := sys.watching;
      if id in wm.watchers && id in wm.sent
      then sys.(watching := wm.(watchers := wm.watchers - {id}, sent := wm.sent[id := wm.sent[id] + [Canceled(id)]]))
      else sys
  }

  ghost predicate ValidActions(sys: System, actions: seq<Action>)
    decreases |actions|, 0
  {
    actions == []
    || (ValidActions(sys, actions[..|actions| - 1])
        && ValidAction(ActAll(sys, actions[..|actions| - 1]), actions[|actions| - 1]))
  }

  ghost function ActAll(sys: System, actions: seq<Action>): System
    requires ValidActions(sys, actions)
    decreases |actions|, 1
  {
    if actions == [] then sys else Act(ActAll(sys, actions[..|actions| - 1]), actions[|actions| - 1])
  }

  function OpsOf(actions: seq<Action>): seq<Op>
  {
    if actions == [] then []
    else
      OpsOf(actions[..|actions| - 1])
      + match actions[|actions| - 1] case Do(op) => [op] case _ => []
  }

  lemma {:induction false} StateIsRun(sys: System, actions: seq<Action>)
    requires ValidActions(sys, actions)
    ensures ActAll(sys, actions).state == Run(sys.state, OpsOf(actions))
    ensures ValidRun(sys.state, OpsOf(actions))
  {
    if actions != [] {
      var init, last := actions[..|actions| - 1], actions[|actions| - 1];
      StateIsRun(sys, init);
      if last.Do? {
        RunSnoc(sys.state, OpsOf(init), last.op);
      } else {
        assert OpsOf(actions) == OpsOf(init);
      }
    }
  }

  /** Every registered watcher has a stream and carries its own id; ids to come are unused. */
  predicate Consistent(wm: Watching)
  {
    && (forall id | id in wm.watchers :: id in wm.sent && wm.watchers[id].watchId == id && wm.watchers[id].active)
    && (forall id | id in wm.sent :: id < wm.nextWatchId)
  }

  lemma {:induction false} StaysConsistent(sys: System, actions: seq<Action>)
    requires ValidActions(sys, actions) && Consistent(sys.watching)
    ensures Consistent(ActAll(sys, actions).watching)
    ensures ActAll(sys, actions).watching.nextWatchId >= sys.watching.nextWatchId
  {
    if actions != [] {
      StaysConsistent(sys, actions[..|actions| - 1]);
    }
  }

  // ----- Exactly-once, in order -----

  ghost function Reports(s: State, a: Action): seq<Notice>
    requires a.Do? ==> ValidOp(s, a.op)
  {
    if a.Do? then Notices(s, a.op) else []
  }

  lemma OneAction(sys: System, a: Action, id: int)
    requires ValidAction(sys, a) && Consistent(sys.watching)
    requires id in sys.watching.watchers && a != Cancel(id)
    ensures var wm := Act(sys, a).watching;
            var w := sys.watching.watchers[id];
            && id in wm.watchers && wm.watchers[id] == w && id in wm.sent
            && wm.sent[id] == sys.watching.sent[id] + Deliver(w, Reports(sys.state, a))
  {
    assert sys.watching.sent[id] + [] == sys.watching.sent[id];
  }

  lemma AllNoticesSnoc(s: State, ops: seq<Op>, op: Op)
    requires ValidRun(s, ops) && ValidOp(Run(s, ops), op)
    ensures ValidRun(s, ops + [op])
    ensures AllNotices(s, ops + [op]) == AllNotices(s, ops) + Notices(Run(s, ops), op)
  {
    assert (ops + [op])[..|ops|] == ops;
  }

  /** While it is registered, a watcher's stream grows by exactly the projection of the reported changes
      onto its range, whatever watchers come and go beside it. */
  lemma {:induction false} LiveStream(sys: System, actions: seq<Action>, id: int)
    requires ValidActions(sys, actions) && Consistent(sys.watching)
    requires id in sys.watching.watchers && Cancel(id) !in actions
    ensures ValidRun(sys.state, OpsOf(actions))
    ensures var wm := ActAll(sys, actions).watching;
            var w := sys.watching.watchers[id];
            && id in wm.watchers && wm.watchers[id] == w && id in wm.sent
            && wm.sent[id] == sys.watching.sent[id] + Deliver(w, AllNotices(sys.state, OpsOf(actions)))
  {
    var w, sent := sys.watching.watchers[id], sys.watching.sent[id];
    if actions == [] {
      assert sent + [] == sent;
    } else {
      var init, last := actions[..|actions| - 1], actions[|actions| - 1];
      LiveStream(sys, init, id);
      StaysConsistent(sys, init);
      assert last in actions;
      var mid := ActAll(sys, init);
      OneAction(mid, last, id);
      StateIsRun(sys, init);
      NoticesNext(sys, actions);
      var earlier, more := AllNotices(sys.state, OpsOf(init)), Reports(mid.state, last);
      DeliverAppend(w, earlier, more);
      SeqAssociative(sent, Deliver(w, earlier), Deliver(w, more));
    }
  }

  lemma NoticesNext(sys: System, actions: seq<Action>)
    requires actions != [] && ValidActions(sys, actions)
    ensures var init, last := actions[..|actions| - 1], actions[|actions| - 1];
            && ValidRun(sys.state, OpsOf(init)) && ValidRun(sys.state, OpsOf(actions))
            && (last.Do? ==> ValidOp(ActAll(sys, init).state, last.op))
            && AllNotices(sys.state, OpsOf(actions))
               == AllNotices(sys.state, OpsOf(init)) + Reports(ActAll(sys, init).state, last)
  {
    var init, last := actions[..|actions| - 1], actions[|actions| - 1];
    StateIsRun(sys, init);
    var ops := OpsOf(init);
    if last.Do? {
      AllNoticesSnoc(sys.state, ops, last.op);
    } else {
      assert OpsOf(actions) == ops;
      assert AllNotices(sys.state, ops) + [] == AllNotices(sys.state, ops);
    }
  }

  /** Once canceled, nothing more is sent, ever: ids are not reused. */
  lemma {:induction false} SilentAfterCancel(sys: System, actions: seq<Action>, id: int)
    requires ValidActions(sys, actions)
    requires id in sys.watching.sent && id !in sys.watching.watchers && id < sys.watching.nextWatchId
    ensures var wm := ActAll(sys, actions).watching;
            id in wm.sent && id !in wm.watchers && id < wm.nextWatchId && wm.sent[id] == sys.watching.sent[id]
  {
    if actions != [] {
      SilentAfterCancel(sys, actions[..|actions| - 1], id);
    }
  }

  lemma {:induction false} ActAppend(sys: System, first: seq<Action>, second: seq<Action>)
    requires ValidActions(sys, first) && ValidActions(ActAll(sys, first), second)
    ensures ValidActions(sys, first + second)
    ensures ActAll(sys, first + second) == ActAll(ActAll(sys, first), second)
  {
    if second == [] {
      assert first + second == first;
    } else {
      var n := |second| - 1;
      assert (first + second)[..|first + second| - 1] == first + second[..n];
      ActAppend(sys, first, second[..n]);
    }
  }

  /** The life of a watcher: its created response and snapshot, then each change reported between
      registration and cancellation that falls in its range, once and in order, then the canceled
      response, then nothing. */
  lemma WatcherLife(sys: System, req: WatchRequest, live: seq<Action>, after: seq<Action>)
    requires Consistent(sys.watching)
    requires ValidActions(Act(sys, Register(req)), live) && Cancel(sys.watching.nextWatchId) !in live
    requires ValidActions(Act(ActAll(Act(sys, Register(req)), live), Cancel(sys.watching.nextWatchId)), after)
    ensures ValidRun(sys.state, OpsOf(live))
    ensures var id := sys.watching.nextWatchId;
            var w := NewWatcher(id, req);
            var final := ActAll(Act(ActAll(Act(sys, Register(req)), live), Cancel(id)), after);
            && id in final.watching.sent
            && final.watching.sent[id]
               == Opening(w, sys.state) + Deliver(w, AllNotices(sys.state, OpsOf(live))) + [Canceled(id)]
  {
    hide Deliver, AllNotices, Opening, NotifyAll;
    var id := sys.watching.nextWatchId;
    var joined := Act(sys, Register(req));
    LiveStream(joined, live, id);
    StaysConsistent(joined, live);
    SilentAfterCancel(Act(ActAll(joined, live), Cancel(id)), after, id);
  }

  // ----- What a response tells -----

  /** `indices` picks the notices the watcher receives, each once, in order. */
  ghost predicate Picks(w: Watcher, ns: seq<Notice>, indices: seq<int>)
  {
    && (forall k | 0 <= k < |indices| :: 0 <= indices[k] < |ns| && Receives(w, ns[indices[k]]))
    && (forall k, m | 0 <= k < m < |indices| :: indices[k] < indices[m])
    && (forall i | 0 <= i < |ns| && Receives(w, ns[i]) :: i in indices)
  }

  lemma PicksNext(w: Watcher, ns: seq<Notice>, n: Notice, indices: seq<int>)
    requires Picks(w, ns, indices)
    ensures Picks(w, ns + [n], if Receives(w, n) then indices + [|ns|] else indices)
  {
    hide Receives;
    var all, next := ns + [n], if Receives(w, n) then indices + [|ns|] else indices;
    assert forall i | 0 <= i < |ns| :: all[i] == ns[i];
    forall i | 0 <= i < |all| && Receives(w, all[i])
      ensures i in next
    {
      if i < |ns| {
        assert Receives(w, ns[i]) && i in indices;
      } else {
        assert Receives(w, n) && next[|indices|] == i;
      }
    }
  }

  /** One response for each of the notices picked. */
  ghost predicate OneForEach(w: Watcher, ns: seq<Notice>, indices: seq<int>, rs: seq<WatchResponse>)
  {
    && |rs| == |indices|
    && forall k | 0 <= k < |indices| :: 0 <= indices[k] < |ns| && rs[k] == Respond(w, ns[indices[k]])
  }

  lemma EachNext(w: Watcher, ns: seq<Notice>, n: Notice, indices: seq<int>, rs: seq<WatchResponse>)
    requires OneForEach(w, ns, indices, rs)
    ensures OneForEach(w, ns + [n], indices, rs)
    ensures OneForEach(w, ns + [n], indices + [|ns|], rs + [Respond(w, n)])
  {
    hide Respond;
    assert forall i | 0 <= i < |ns| :: (ns + [n])[i] == ns[i];
    assert (ns + [n])[|ns|] == n;
  }

  /** Delivery is exactly once and in order: there is one response for each notice in the watcher's range. */
  lemma {:induction false} ExactlyOnce(w: Watcher, ns: seq<Notice>) returns (indices: seq<int>)
    ensures Picks(w, ns, indices) && OneForEach(w, ns, indices, Deliver(w, ns))
  {
    if ns == [] {
      indices := [];
    } else {
      hide Receives, Respond, Picks, OneForEach;
      var init, last := ns[..|ns| - 1], ns[|ns| - 1];
      assert ns == init + [last];
      var earlier := ExactlyOnce(w, init);
      PicksNext(w, init, last, earlier);
      EachNext(w, init, last, earlier, Deliver(w, init));
      indices := if Receives(w, last) then earlier + [|init|] else earlier;
      assert Deliver(w, init) + [] == Deliver(w, init);
    }
  }

  function Stored(data: Data, key: Bytes): Option<KeyValue>
  {
    if key in data then Some(data[key].kv) else None
  }

  /** A response written for watcher `id` because of call `op`, made in state `t`: it carries one event and the
      revision the call made. A PUT has the record the call left and, if the watcher asked for it, the record
      it replaced, if there was one. A DELETE has the record it removed. */
  ghost predicate Tells(id: int, prevKv: bool, t: State, op: Op, r: WatchResponse)
  {
    && r.watchId == id && !r.created && !r.canceled && |r.events| == 1
    && r.revision == t.revision + 1 == Step(t, op).revision
    && match r.events[0]
       case PutEvent(kv, prev) =>
         && op.Put? && kv.key == op.key && Stored(Step(t, op).data, op.key) == Some(kv)
         && prev == if prevKv then Stored(t.data, op.key) else None
       case DeleteEvent(kv) =>
         && op.Delete? && op.collect && Stored(t.data, kv.key) == Some(kv) && kv.key !in Step(t, op).data
  }

  lemma NoticeTells(w: Watcher, t: State, op: Op, n: Notice)
    requires WellFormed(t) && ValidOp(t, op) && n in Notices(t, op)
    ensures Tells(w.watchId, w.prevKv, t, op, Respond(w, n))
  {
    if op.Delete? {
      var i :| 0 <= i < |Notices(t, op)| && Notices(t, op)[i] == n;
      assert op.order[i] in op.order;
    }
  }

  /** A notice among those of a run comes from one of its calls. */
  lemma {:induction false} NoticeOrigin(s: State, ops: seq<Op>, n: Notice) returns (j: nat)
    requires ValidRun(s, ops) && n in AllNotices(s, ops)
    ensures j < |ops| && ValidOp(Run(s, ops[..j]), ops[j]) && n in Notices(Run(s, ops[..j]), ops[j])
  {
    hide Notices, Step, ValidOp;
    var init, last := ops[..|ops| - 1], ops[|ops| - 1];
    if n in Notices(Run(s, init), last) {
      j := |ops| - 1;
    } else {
      j := NoticeOrigin(s, init, n);
      assert init[..j] == ops[..j];
    }
  }

  lemma {:induction false} DeliveredIsResponse(w: Watcher, ns: seq<Notice>, r: WatchResponse) returns (n: Notice)
    requires r in Deliver(w, ns)
    ensures n in ns && Receives(w, n) && r == Respond(w, n)
  {
    var init, last := ns[..|ns| - 1], ns[|ns| - 1];
    if r in Deliver(w, init) {
      n := DeliveredIsResponse(w, init, r);
    } else {
      n := last;
    }
  }

  /** Every live response of a run tells of one of its calls. */
  lemma StreamTells(s: State, ops: seq<Op>, w: Watcher, r: WatchResponse) returns (j: nat)
    requires WellFormed(s) && ValidRun(s, ops) && r in Deliver(w, AllNotices(s, ops))
    ensures j < |ops| && Tells(w.watchId, w.prevKv, Run(s, ops[..j]), ops[j], r)
  {
    hide Notices, Step, ValidOp, Respond, Receives, Tells, WellFormed;
    var n := DeliveredIsResponse(w, AllNotices(s, ops), r);
    j := NoticeOrigin(s, ops, n);
    RunWellFormed(s, ops[..j]);
    NoticeTells(w, Run(s, ops[..j]), ops[j], n);
  }

  // ----- Revisions on the stream -----

  predicate WellDated(n: Notice)
  {
    match n
    case PutNotice(_, kv, _, revision) => revision == kv.modRevision
    case DeleteNotice(_, kv, revision) => revision > kv.modRevision
  }

  predicate Dated(ns: seq<Notice>, since: int, until: int)
  {
    && (forall i | 0 <= i < |ns| :: since < ns[i].revision <= until && WellDated(ns[i]))
    && (forall i, j | 0 <= i < j < |ns| :: ns[i].revision <= ns[j].revision)
  }

  lemma {:induction false} NoticesDated(s: State, ops: seq<Op>)
    requires WellFormed(s) && ValidRun(s, ops)
    ensures Dated(AllNotices(s, ops), s.revision, Run(s, ops).revision)
  {
    if ops != [] {
      var init, last := ops[..|ops| - 1], ops[|ops| - 1];
      NoticesDated(s, init);
      RunWellFormed(s, init);
      var t := Run(s, init);
      StepRevision(t, last);
      assert [last][..0] == [];
      RevisionCountsWrites(s, init);
      var more := Notices(t, last);
      forall i | 0 <= i < |more|
        ensures more[i].revision == t.revision + 1 == Run(s, ops).revision && WellDated(more[i])
      {
        if last.Delete? {
          assert last.order[i] in last.order;
        }
      }
    }
  }

  function KvOf(r: WatchResponse): KeyValue
    requires |r.events| == 1
  {
    r.events[0].kv
  }

  predicate LiveDated(rs: seq<WatchResponse>, id: int, since: int, until: int)
  {
    && (forall i | 0 <= i < |rs| ::
          && rs[i].watchId == id && !rs[i].created && !rs[i].canceled && |rs[i].events| == 1
          && since < rs[i].revision <= until
          && (rs[i].events[0].PutEvent? ==> rs[i].revision == KvOf(rs[i]).modRevision)
          && (rs[i].events[0].DeleteEvent? ==> rs[i].revision > KvOf(rs[i]).modRevision))
    && (forall i, j | 0 <= i < j < |rs| :: rs[i].revision <= rs[j].revision)
  }

  predicate NoneAfter(rs: seq<WatchResponse>, revision: int)
  {
    forall i | 0 <= i < |rs| :: rs[i].revision <= revision
  }

  lemma LiveDatedSnoc(rs: seq<WatchResponse>, r: WatchResponse, id: int, since: int, until: int)
    requires LiveDated(rs, id, since, until) && NoneAfter(rs, r.revision) && LiveDated([r], id, since, until)
    ensures LiveDated(rs + [r], id, since, until) && NoneAfter(rs + [r], r.revision)
  {
    assert [r][0] == r;
  }

  lemma RespondDated(w: Watcher, n: Notice, since: int, until: int)
    requires since < n.revision <= until && WellDated(n)
    ensures LiveDated([Respond(w, n)], w.watchId, since, until)
  {
  }

  lemma DatedInit(ns: seq<Notice>, since: int, until: int)
    requires ns != [] && Dated(ns, since, until)
    ensures Dated(ns[..|ns| - 1], since, until)
    ensures |ns| > 1 ==> ns[..|ns| - 1][|ns| - 2].revision <= ns[|ns| - 1].revision
    ensures since < ns[|ns| - 1].revision <= until && WellDated(ns[|ns| - 1])
  {
  }

  lemma {:induction false} DeliverDated(w: Watcher, ns: seq<Notice>, since: int, until: int)
    requires Dated(ns, since, until)
    ensures LiveDated(Deliver(w, ns), w.watchId, since, until)
    ensures if ns == [] then Deliver(w, ns) == [] else NoneAfter(Deliver(w, ns), ns[|ns| - 1].revision)
  {
    if ns != [] {
      hide Dated, LiveDated, Respond, Receives, WellDated;
      var init, last := ns[..|ns| - 1], ns[|ns| - 1];
      DatedInit(ns, since, until);
      DeliverDated(w, init, since, until);
      RespondDated(w, last, since, until);
      assert Respond(w, last).revision == last.revision by {
        RespondRevision(w, last);
      }
      LiveDatedSnoc(Deliver(w, init), Respond(w, last), w.watchId, since, until);
      assert Deliver(w, init) + [] == Deliver(w, init);
    }
  }

  lemma RespondRevision(w: Watcher, n: Notice)
    ensures Respond(w, n).revision == n.revision
  {
  }

  /** Along a watcher's live stream header revisions never decrease and all exceed the revision in its
      created response; a PUT's is its record's modification revision, a DELETE's is newer than that of
      the record deleted. */
  lemma LiveStreamRevisions(s: State, ops: seq<Op>, w: Watcher)
    requires WellFormed(s) && ValidRun(s, ops)
    ensures LiveDated(Deliver(w, AllNotices(s, ops)), w.watchId, Opening(w, s)[0].revision, Run(s, ops).revision)
  {
    NoticesDated(s, ops);
    DeliverDated(w, AllNotices(s, ops), s.revision, Run(s, ops).revision);
  }

  // ----- Replay -----

  type Mirror = map<Bytes, KeyValue>

  function ReplayEvent(m: Mirror, e: Event): Mirror
  {
    match e
    case PutEvent(kv, _) => m[kv.key := kv]
    case DeleteEvent(kv) => m - {kv.key}
  }

  function ReplayEvents(m: Mirror, events: seq<Event>): Mirror
  {
    if events == [] then m else ReplayEvent(ReplayEvents(m, events[..|events| - 1]), events[|events| - 1])
  }

  /** What a client holds that applies every event it is sent to `m`. */
  function Replay(m: Mirror, rs: seq<WatchResponse>): Mirror
  {
    if rs == [] then m else ReplayEvents(Replay(m, rs[..|rs| - 1]), rs[|rs| - 1].events)
  }

  lemma {:induction false} ReplayAppend(m: Mirror, first: seq<WatchResponse>, second: seq<WatchResponse>)
    ensures Replay(m, first + second) == Replay(Replay(m, first), second)
  {
    if second == [] {
      assert first + second == first;
    } else {
      var n := |second| - 1;
      assert (first + second)[..|first + second| - 1] == first + second[..n];
      ReplayAppend(m, first, second[..n]);
    }
  }

  lemma ReplayOne(m: Mirror, r: WatchResponse)
    requires |r.events| == 1
    ensures Replay(m, [r]) == ReplayEvent(m, r.events[0])
  {
    var e := r.events[0];
    assert [r][..|[r]| - 1] == [] && r.events[..|r.events| - 1] == [];
    assert Replay(m, [r]) == ReplayEvents(Replay(m, []), r.events);
  }

  function Held(m: Mirror, key: Bytes): Option<KeyValue>
  {
    if key in m then Some(m[key]) else None
  }

  /** The store restricted to the watcher's range. */
  function View(data: Data, w: Watcher): Mirror
  {
    map k | k in data && KeyInRange(k, w.key, w.rangeEnd) :: data[k].kv
  }

  predicate Reported(ns: seq<Notice>, key: Bytes)
  {
    exists i | 0 <= i < |ns| :: ns[i].key == key
  }

  /** Every notice carries the record of the key it is about. */
  predicate Named(ns: seq<Notice>)
  {
    forall i | 0 <= i < |ns| :: ns[i].kv.key == ns[i].key
  }

  lemma ReplayLast(w: Watcher, ns: seq<Notice>, m: Mirror)
    requires ns != []
    ensures var before := Replay(m, Deliver(w, ns[..|ns| - 1]));
            var last := ns[|ns| - 1];
            Replay(m, Deliver(w, ns))
            == if Receives(w, last) then ReplayEvent(before, Respond(w, last).events[0]) else before
  {
    var last := ns[|ns| - 1];
    var earlier := Deliver(w, ns[..|ns| - 1]);
    if Receives(w, last) {
      ReplayAppend(m, earlier, [Respond(w, last)]);
      ReplayOne(Replay(m, earlier), Respond(w, last));
    } else {
      assert earlier + [] == earlier;
    }
  }

  lemma {:induction false} UnreportedUnchanged(w: Watcher, ns: seq<Notice>, m: Mirror, key: Bytes)
    requires !Reported(ns, key) && Named(ns)
    ensures Held(Replay(m, Deliver(w, ns)), key) == Held(m, key)
  {
    if ns != [] {
      assert forall i | 0 <= i < |ns| - 1 :: ns[..|ns| - 1][i] == ns[i];
      UnreportedUnchanged(w, ns[..|ns| - 1], m, key);
      ReplayLast(w, ns, m);
    }
  }

  lemma {:induction false} DeletesReplay(w: Watcher, ns: seq<Notice>, m: Mirror, key: Bytes)
    requires w.active && KeyInRange(key, w.key, w.rangeEnd)
    requires Reported(ns, key) && Named(ns) && forall i | 0 <= i < |ns| :: ns[i].DeleteNotice?
    ensures key !in Replay(m, Deliver(w, ns))
  {
    var init, last := ns[..|ns| - 1], ns[|ns| - 1];
    ReplayLast(w, ns, m);
    if last.key != key {
      assert forall i | 0 <= i < |init| :: init[i] == ns[i];
      DeletesReplay(w, init, m, key);
    }
  }

  predicate Loud(op: Op)
  {
    !op.Txn? && (op.Delete? ==> op.collect)
  }

  /** What the client ends up with for `key`, against the store. */
  ghost predicate Synced(s: State, op: Op, m: Mirror, m': Mirror, key: Bytes)
    requires ValidOp(s, op)
  {
    if Reported(Notices(s, op), key)
    then Held(m', key) == Stored(Step(s, op).data, key)
    else Held(m', key) == Held(m, key) && Stored(Step(s, op).data, key) == Stored(s.data, key)
  }

  lemma LoudPut(s: State, op: Op, w: Watcher, m: Mirror, key: Bytes)
    requires op.Put? && w.active && KeyInRange(key, w.key, w.rangeEnd)
    ensures Synced(s, op, m, Replay(m, Deliver(w, Notices(s, op))), key)
  {
    hide Replay, Deliver, KeyInRange, AttachKey, DetachKey, LeaseOf, NewInfo;
    var info := NewInfo(s.data, s.revision + 1, op.key, op.value, op.lease);
    var n := Notices(s, op)[0];
    assert Notices(s, op) == [n] && n.key == op.key && n.kv == info.kv && info.kv.key == op.key by {
      NewInfoKey(s.data, s.revision + 1, op.key, op.value, op.lease);
    }
    assert Reported([n], key) <==> n.key == key by {
      assert [n][0] == n;
    }
    ReplayNotice(w, n, m);
    assert Step(s, op).data == s.data[op.key := NewInfo(s.data, s.revision + 1, op.key, op.value, op.lease)];
  }

  lemma NewInfoKey(data: Data, revision: int, key: Bytes, value: Bytes, lease: int)
    ensures NewInfo(data, revision, key, value, lease).kv.key == key
  {
  }

  lemma ReplayNotice(w: Watcher, n: Notice, m: Mirror)
    ensures Replay(m, Deliver(w, [n]))
            == if Receives(w, n) then ReplayEvent(m, Respond(w, n).events[0]) else m
  {
    ReplayLast(w, [n], m);
    assert Deliver(w, [n][..0]) == [];
  }

  lemma LoudDelete(s: State, op: Op, w: Watcher, m: Mirror, key: Bytes)
    requires WellFormed(s) && ValidOp(s, op) && op.Delete? && op.collect
    requires w.active && KeyInRange(key, w.key, w.rangeEnd)
    ensures Synced(s, op, m, Replay(m, Deliver(w, Notices(s, op))), key)
  {
    var ns := Notices(s, op);
    forall i | 0 <= i < |ns|
      ensures ns[i].key == ns[i].kv.key == op.order[i]
    {
      assert op.order[i] in op.order;
    }
    if Reported(ns, key) {
      DeletesReplay(w, ns, m, key);
      assert key in op.order;
    } else {
      UnreportedUnchanged(w, ns, m, key);
      assert key !in op.order;
    }
  }

  /** A reporting call brings the client's record of each key it reports in line with the store, and
      changes neither the client's nor the store's record of any other. */
  lemma LoudStep(s: State, op: Op, w: Watcher, m: Mirror, key: Bytes)
    requires WellFormed(s) && ValidOp(s, op) && Loud(op)
    requires w.active && KeyInRange(key, w.key, w.rangeEnd)
    ensures Reported(Notices(s, op), key) ==>
              Held(Replay(m, Deliver(w, Notices(s, op))), key) == Stored(Step(s, op).data, key)
    ensures !Reported(Notices(s, op), key) ==> Held(Replay(m, Deliver(w, Notices(s, op))), key) == Held(m, key)
    ensures !Reported(Notices(s, op), key) ==> Stored(Step(s, op).data, key) == Stored(s.data, key)
  {
    match op
    case Put(_, _, _) => LoudPut(s, op, w, m, key);
    case Delete(_, _, _, _) => LoudDelete(s, op, w, m, key);
    case _ =>
  }

  /** Any call brings the client's record of each key it reports in line with the store, and leaves the
      client's record of any other alone. */
  lemma StepReplays(s: State, op: Op, w: Watcher, m: Mirror, key: Bytes)
    requires WellFormed(s) && ValidOp(s, op) && w.active && KeyInRange(key, w.key, w.rangeEnd)
    ensures Held(Replay(m, Deliver(w, Notices(s, op))), key)
            == if Reported(Notices(s, op), key) then Stored(Step(s, op).data, key) else Held(m, key)
  {
    if Loud(op) {
      LoudStep(s, op, w, m, key);
    } else {
      assert Notices(s, op) == [];
    }
  }

  /** How many calls of the run there are up to the last that reported the key; none if none did. */
  ghost function LastReport(s: State, ops: seq<Op>, key: Bytes): nat
    requires ValidRun(s, ops)
  {
    if ops == [] then 0
    else
      var init := ops[..|ops| - 1];
      if Reported(Notices(Run(s, init), ops[|ops| - 1]), key) then |ops| else LastReport(s, init, key)
  }

  lemma {:induction false} LastReportInRun(s: State, ops: seq<Op>, key: Bytes)
    requires ValidRun(s, ops)
    ensures LastReport(s, ops, key) <= |ops|
  {
    if ops != [] {
      LastReportInRun(s, ops[..|ops| - 1], key);
    }
  }

  lemma {:induction false} LastReportIff(s: State, ops: seq<Op>, key: Bytes)
    requires ValidRun(s, ops)
    ensures Reported(AllNotices(s, ops), key) <==> LastReport(s, ops, key) > 0
  {
    if ops != [] {
      var init := ops[..|ops| - 1];
      LastReportIff(s, init, key);
      ReportedAppend(AllNotices(s, init), Notices(Run(s, init), ops[|ops| - 1]), key);
    }
  }

  /** What a client remembers of the key that started with `start`. */
  ghost function Remembered(s: State, ops: seq<Op>, start: Option<KeyValue>, key: Bytes): Option<KeyValue>
    requires ValidRun(s, ops)
  {
    if ops == [] then start
    else
      var init := ops[..|ops| - 1];
      if Reported(Notices(Run(s, init), ops[|ops| - 1]), key) then Stored(Run(s, ops).data, key)
      else Remembered(s, init, start, key)
  }

  lemma {:induction false} RememberedIs(s: State, ops: seq<Op>, start: Option<KeyValue>, key: Bytes)
    requires ValidRun(s, ops)
    ensures LastReport(s, ops, key) <= |ops|
    ensures Remembered(s, ops, start, key)
            == if LastReport(s, ops, key) > 0 then Stored(Run(s, ops[..LastReport(s, ops, key)]).data, key) else start
  {
    if ops != [] {
      hide Notices, Reported, Step;
      var init := ops[..|ops| - 1];
      RememberedIs(s, init, start, key);
      assert ops[..|ops|] == ops;
      assert init[..LastReport(s, init, key)] == ops[..LastReport(s, init, key)];
    }
  }

  lemma ReplayThen(w: Watcher, m: Mirror, first: seq<Notice>, second: seq<Notice>)
    ensures Replay(m, Deliver(w, first + second)) == Replay(Replay(m, Deliver(w, first)), Deliver(w, second))
  {
    DeliverAppend(w, first, second);
    ReplayAppend(m, Deliver(w, first), Deliver(w, second));
  }

  lemma {:induction false} RunRemembered(s: State, ops: seq<Op>, w: Watcher, m: Mirror, key: Bytes)
    requires WellFormed(s) && ValidRun(s, ops) && w.active && KeyInRange(key, w.key, w.rangeEnd)
    ensures Held(Replay(m, Deliver(w, AllNotices(s, ops))), key) == Remembered(s, ops, Held(m, key), key)
  {
    if ops != [] {
      hide Notices, Deliver, Replay, Reported, Step, WellFormed, Held, Stored, KeyInRange;
      var init, last := ops[..|ops| - 1], ops[|ops| - 1];
      RunRemembered(s, init, w, m, key);
      RunWellFormed(s, init);
      var t, earlier := Run(s, init), AllNotices(s, init);
      ReplayThen(w, m, earlier, Notices(t, last));
      StepReplays(t, last, w, Replay(m, Deliver(w, earlier)), key);
    }
  }

  /** After any run, silent calls included, the client's record of a key is the one the store had right after
      the last call that reported it, or the one the client started with. */
  lemma RunReplays(s: State, ops: seq<Op>, w: Watcher, m: Mirror, key: Bytes)
    requires WellFormed(s) && ValidRun(s, ops) && w.active && KeyInRange(key, w.key, w.rangeEnd)
    ensures LastReport(s, ops, key) <= |ops|
    ensures Reported(AllNotices(s, ops), key) <==> LastReport(s, ops, key) > 0
    ensures var j := LastReport(s, ops, key);
            Held(Replay(m, Deliver(w, AllNotices(s, ops))), key)
            == if j > 0 then Stored(Run(s, ops[..j]).data, key) else Held(m, key)
  {
    hide Replay, Deliver, AllNotices, LastReport, Remembered, Reported, Run, Stored, Held;
    RunRemembered(s, ops, w, m, key);
    RememberedIs(s, ops, Held(m, key), key);
    LastReportIff(s, ops, key);
  }

  /** A run of reporting calls does not change a key without reporting it. */
  lemma {:induction false} LoudRun(s: State, ops: seq<Op>, key: Bytes)
    requires WellFormed(s) && ValidRun(s, ops) && forall op | op in ops :: Loud(op)
    ensures var j := LastReport(s, ops, key);
            j <= |ops| && Stored(Run(s, ops[..j]).data, key) == Stored(Run(s, ops).data, key)
  {
    if ops != [] {
      hide Notices, Reported, Step, WellFormed, Stored;
      var init, last := ops[..|ops| - 1], ops[|ops| - 1];
      assert last in ops && forall op | op in init :: op in ops;
      LoudRun(s, init, key);
      RunWellFormed(s, init);
      assert ops[..|ops|] == ops;
      var j := LastReport(s, init, key);
      assert init[..j] == ops[..j];
      if !Reported(Notices(Run(s, init), last), key) {
        UnreportedStays(Run(s, init), last, key);
      }
    }
  }

  lemma UnreportedStays(s: State, op: Op, key: Bytes)
    requires WellFormed(s) && ValidOp(s, op) && Loud(op) && !Reported(Notices(s, op), key)
    ensures Stored(Step(s, op).data, key) == Stored(s.data, key)
  {
    var everything := Watcher(0, [], [0], 0, false, true);
    LessTrichotomy([], key);
    LoudStep(s, op, everything, map[], key);
  }

  lemma ReportedAppend(first: seq<Notice>, second: seq<Notice>, key: Bytes)
    ensures Reported(first + second, key) <==> Reported(first, key) || Reported(second, key)
  {
    var both := first + second;
    if i :| 0 <= i < |first| && first[i].key == key {
      assert both[i].key == key;
    }
    if i :| 0 <= i < |second| && second[i].key == key {
      assert both[|first| + i].key == key;
    }
  }

  lemma {:induction false} SnapshotAt(w: Watcher, kvs: seq<KeyValue>, key: Bytes)
    requires forall i, j | 0 <= i < j < |kvs| :: kvs[i].key != kvs[j].key
    ensures (forall i | 0 <= i < |kvs| :: kvs[i].key != key) ==> key !in Replay(map[], SnapshotResponses(w, kvs))
    ensures forall i | 0 <= i < |kvs| && kvs[i].key == key ::
              Held(Replay(map[], SnapshotResponses(w, kvs)), key) == Some(kvs[i])
  {
    if kvs != [] {
      var n := |kvs| - 1;
      var rs := SnapshotResponses(w, kvs);
      SnapshotAt(w, kvs[..n], key);
      assert rs[..n] == SnapshotResponses(w, kvs[..n]);
      assert rs == rs[..n] + [rs[n]];
      ReplayAppend(map[], rs[..n], [rs[n]]);
      ReplayOne(Replay(map[], rs[..n]), rs[n]);
      assert forall i | 0 <= i < n :: kvs[..n][i] == kvs[i];
    }
  }

  /** The snapshot alone gives the client the store as it was, restricted to its range. */
  lemma ReplaySnapshot(s: State, w: Watcher)
    requires WellFormed(s)
    ensures Replay(map[], Snapshot(w, s.data)) == View(s.data, w)
  {
    var kvs := RangeResult(s.data, w.key, w.rangeEnd, 0, false, false);
    RangeIsSortedFilter(s, w.key, w.rangeEnd);
    forall i, j | 0 <= i < j < |kvs|
      ensures kvs[i].key != kvs[j].key
    {
      LessIrreflexive(kvs[i].key);
    }
    var m, view := Replay(map[], Snapshot(w, s.data)), View(s.data, w);
    forall k
      ensures Held(m, k) == Held(view, k)
    {
      SnapshotAt(w, kvs, k);
      if k in view {
        assert view[k] in kvs;
        var i :| 0 <= i < |kvs| && kvs[i] == view[k];
        assert kvs[i].key == k;
      } else {
        forall i | 0 <= i < |kvs|
          ensures kvs[i].key != k
        {
          assert kvs[i] in kvs;
        }
      }
    }
    SameMirror(m, view);
  }

  lemma SameMirror(a: Mirror, b: Mirror)
    requires forall k :: Held(a, k) == Held(b, k)
    ensures a == b
  {
    forall k
      ensures k in a <==> k in b
      ensures k in a ==> a[k] == b[k]
    {
      assert Held(a, k) == Held(b, k);
    }
  }

  /** Where a client's record of a key comes from that has seen a snapshot of `s` and hears of the run
      `live`, but not of the calls `gap` made in between: the state, and the calls made since. */
  ghost function KnownFrom(s: State, gap: seq<Op>, live: seq<Op>, key: Bytes): (State, seq<Op>)
    requires ValidRun(Run(s, gap), live) && LastReport(Run(s, gap), live, key) <= |live|
  {
    var t := Run(s, gap);
    var j := LastReport(t, live, key);
    if j > 0 then (Run(t, live[..j]), live[j..]) else (s, gap + live)
  }

  /** RegisterWatcher takes its snapshot first and enters the watcher in the table afterwards; `gap` is
      whatever calls other threads make in between, each of them whole. Whatever is called from then on,
      reported or not, the client's record of a key in its range is the store's if and only if the key has
      not been written or cleared since the last call that reported it, or since the snapshot if none did,
      or was absent then and is now. */
  lemma ReplayAcrossGap(s: State, gap: seq<Op>, live: seq<Op>, w: Watcher, key: Bytes)
    requires WellFormed(s) && ValidRun(Run(s, gap), live)
    requires w.active && KeyInRange(key, w.key, w.rangeEnd)
    ensures LastReport(Run(s, gap), live, key) <= |live|
    ensures var now := Run(Run(s, gap), live);
            var (known, since) := KnownFrom(s, gap, live, key);
            var client := Replay(map[], Snapshot(w, s.data) + Deliver(w, AllNotices(Run(s, gap), live)));
            Held(client, key) == Stored(now.data, key)
            <==> !Touched(Log(known, since), key) || (key !in known.data && key !in now.data)
  {
    hide Snapshot, Deliver, Replay, Notices, AllNotices, LastReport, Touched, Log, Run, WellFormed;
    var t := Run(s, gap);
    ReplaySnapshot(s, w);
    ReplayAppend(map[], Snapshot(w, s.data), Deliver(w, AllNotices(t, live)));
    RunWellFormed(s, gap);
    RunReplays(t, live, w, View(s.data, w), key);
    var j := LastReport(t, live, key);
    RunWellFormed(t, live[..j]);
    RunAppend(s, gap, live);
    RunAppend(t, live[..j], live[j..]);
    assert live[..j] + live[j..] == live;
    var (known, since) := KnownFrom(s, gap, live, key);
    StoredIsLookup(known, since, key);
    SameRecordIffUntouched(known, since, key);
  }

  lemma StoredIsLookup(s: State, ops: seq<Op>, key: Bytes)
    requires WellFormed(s)
    ensures Stored(s.data, key) == Stored(Run(s, ops).data, key)
            <==> Lookup(Run(s, ops).data, key) == Lookup(s.data, key)
  {
    RunWellFormed(s, ops);
  }

  lemma {:induction false} AllNamed(s: State, ops: seq<Op>)
    requires ValidRun(s, ops)
    ensures Named(AllNotices(s, ops))
  {
    if ops != [] {
      AllNamed(s, ops[..|ops| - 1]);
    }
  }

  lemma {:induction false} ReplayInRange(w: Watcher, ns: seq<Notice>, m: Mirror, key: Bytes)
    requires !KeyInRange(key, w.key, w.rangeEnd) && Named(ns)
    ensures Held(Replay(m, Deliver(w, ns)), key) == Held(m, key)
  {
    if ns != [] {
      ReplayInRange(w, ns[..|ns| - 1], m, key);
      ReplayLast(w, ns, m);
    }
  }

  /** With no gap, and only reporting calls, snapshot and live events add up to exactly the store
      restricted to the watcher's range. */
  lemma ReplayIsStore(s: State, ops: seq<Op>, w: Watcher)
    requires WellFormed(s) && ValidRun(s, ops) && w.active && forall op | op in ops :: Loud(op)
    ensures Replay(map[], Snapshot(w, s.data) + Deliver(w, AllNotices(s, ops))) == View(Run(s, ops).data, w)
  {
    var client := Replay(map[], Snapshot(w, s.data) + Deliver(w, AllNotices(s, ops)));
    var view := View(Run(s, ops).data, w);
    ReplaySnapshot(s, w);
    ReplayAppend(map[], Snapshot(w, s.data), Deliver(w, AllNotices(s, ops)));
    forall key
      ensures Held(client, key) == Held(view, key)
    {
      if KeyInRange(key, w.key, w.rangeEnd) {
        RunReplays(s, ops, w, View(s.data, w), key);
        LoudRun(s, ops, key);
        assert ops[..0] == [];
      } else {
        AllNamed(s, ops);
        ReplayInRange(w, AllNotices(s, ops), View(s.data, w), key);
      }
    }
    SameMirror(client, view);
  }

  /** A client that follows reporting calls from a snapshot and asked for previous records is told, with every
      PUT, the record of the key it holds itself just before, or none if it holds none. */
  lemma {:induction false} PrevIsWhatTheClientHeld(s: State, ops: seq<Op>, w: Watcher, k: nat)
    requires WellFormed(s) && ValidRun(s, ops) && w.active && w.prevKv && forall op | op in ops :: Loud(op)
    requires k < |Deliver(w, AllNotices(s, ops))| && |Deliver(w, AllNotices(s, ops))[k].events| == 1
    requires Deliver(w, AllNotices(s, ops))[k].events[0].PutEvent?
    ensures var live := Deliver(w, AllNotices(s, ops));
            var e := live[k].events[0];
            Held(Replay(map[], Snapshot(w, s.data) + live[..k]), e.kv.key) == e.prevKv
  {
    hide Replay, Snapshot, Notices, Respond, Receives, Step, WellFormed, KeyInRange, View, Deliver;
    NothingDelivered(s, w);
    var init, last := ops[..|ops| - 1], ops[|ops| - 1];
    assert ops == init + [last];
    RunLast(s, ops);
    assert forall op | op in init :: op in ops;
    var t := Run(s, init);
    var earlier, more := Deliver(w, AllNotices(s, init)), Deliver(w, Notices(t, last));
    DeliverAppend(w, AllNotices(s, init), Notices(t, last));
    var live := Deliver(w, AllNotices(s, ops));
    if k < |earlier| {
      PrevIsWhatTheClientHeld(s, init, w, k);
      assert live[..k] == earlier[..k];
    } else {
      assert live[k] == more[k - |earlier|] && live[k] in more;
      RunWellFormed(s, init);
      var n := DeliveredIsResponse(w, Notices(t, last), live[k]);
      NoticeTells(w, t, last, n);
      OnePutHeard(w, t, last, n);
      assert k == |earlier| && live[..k] == earlier;
      ReplayIsStore(s, init, w);
      ViewAt(t.data, w, last.key);
    }
  }

  lemma NothingDelivered(s: State, w: Watcher)
    ensures Deliver(w, AllNotices(s, [])) == []
  {
  }

  lemma RunLast(s: State, ops: seq<Op>)
    requires ops != [] && ValidRun(s, ops)
    ensures var init, last := ops[..|ops| - 1], ops[|ops| - 1];
            && ValidRun(s, init) && ValidOp(Run(s, init), last)
            && Run(s, ops) == Step(Run(s, init), last)
            && AllNotices(s, ops) == AllNotices(s, init) + Notices(Run(s, init), last)
  {
  }

  lemma OnePutHeard(w: Watcher, t: State, op: Op, n: Notice)
    requires ValidOp(t, op) && n in Notices(t, op) && Receives(w, n) && |Respond(w, n).events| == 1
    requires Respond(w, n).events[0].PutEvent?
    ensures op.Put? && |Deliver(w, Notices(t, op))| <= 1
    ensures Notices(t, op) == [n] && KeyInRange(op.key, w.key, w.rangeEnd)
  {
    assert op.Put? ==> [n][..0] == [] && Deliver(w, [n][..0]) == [];
  }

  lemma ViewAt(data: Data, w: Watcher, key: Bytes)
    requires KeyInRange(key, w.key, w.rangeEnd)
    ensures Held(View(data, w), key) == Stored(data, key)
  {
  }

  /** The same for the server as a whole: from any reachable state, a watcher registered with a positive
      start revision can rebuild its part of the store from its stream. */
  lemma WatcherRebuildsTheStore(before: seq<Action>, req: WatchRequest, live: seq<Action>)
    requires ValidActions(START, before) && req.startRevision > 0
    requires ValidActions(Act(ActAll(START, before), Register(req)), live)
    requires Cancel(ActAll(START, before).watching.nextWatchId) !in live
    requires forall op | op in OpsOf(live) :: Loud(op)
    ensures var sys := ActAll(START, before);
            var id := sys.watching.nextWatchId;
            var final := ActAll(Act(sys, Register(req)), live);
            && id in final.watching.sent
            && Replay(map[], final.watching.sent[id]) == View(final.state.data, NewWatcher(id, req))
  {
    var sys := ActAll(START, before);
    var id := sys.watching.nextWatchId;
    var w := NewWatcher(id, req);
    StaysConsistent(START, before);
    StateIsRun(START, before);
    RunWellFormed(INIT, OpsOf(before));
    var joined := Act(sys, Register(req));
    LiveStream(joined, live, id);
    StateIsRun(joined, live);
    ReplayIsStore(sys.state, OpsOf(live), w);
    OpeningReplays(w, sys.state, Deliver(w, AllNotices(sys.state, OpsOf(live))));
  }

  lemma OpeningReplays(w: Watcher, s: State, live: seq<WatchResponse>)
    requires w.startRevision > 0
    ensures Replay(map[], Opening(w, s) + live) == Replay(map[], Snapshot(w, s.data) + live)
  {
    var created := WatchResponse(s.revision, w.watchId, true, false, []);
    assert Opening(w, s) + live == [created] + (Snapshot(w, s.data) + live);
    ReplayAppend(map[], [created], Snapshot(w, s.data) + live);
    assert [created][..|[created]| - 1] == [];
    assert Replay(map[], [created]) == ReplayEvents(Replay(map[], []), []);
  }

  // ----- Calls that report nothing -----

  /** Which single calls keep an exact client exact: the reporting ones, and of the silent ones (Txn, and
      the Delete of a lease's key) exactly those that leave every key in the watcher's range unwritten
      and uncleared, or absent before and after. */
  lemma CallKeepsReplayIff(s: State, op: Op, w: Watcher)
    requires WellFormed(s) && ValidOp(s, op) && w.active
    ensures Replay(View(s.data, w), Deliver(w, Notices(s, op))) == View(Step(s, op).data, w)
            <==> Loud(op) ||
                 forall k | KeyInRange(k, w.key, w.rangeEnd) ::
                   !Touched(Entries(s, op), k) || (k !in s.data && k !in Step(s, op).data)
  {
    var m, t := View(s.data, w), Step(s, op);
    var client := Replay(m, Deliver(w, Notices(s, op)));
    assert Run(s, []) == s && [op][..0] == [] && Run(s, [op]) == t && Log(s, [op]) == Entries(s, op);
    if Loud(op) {
      forall key
        ensures Held(client, key) == Held(View(t.data, w), key)
      {
        if KeyInRange(key, w.key, w.rangeEnd) {
          LoudStep(s, op, w, m, key);
        } else {
          ReplayInRange(w, Notices(s, op), m, key);
        }
      }
      SameMirror(client, View(t.data, w));
    } else {
      assert client == m;
      forall k | KeyInRange(k, w.key, w.rangeEnd)
        ensures Held(m, k) == Held(View(t.data, w), k)
                <==> !Touched(Entries(s, op), k) || (k !in s.data && k !in t.data)
      {
        StoredIsLookup(s, [op], k);
        SameRecordIffUntouched(s, [op], k);
      }
      if forall k | KeyInRange(k, w.key, w.rangeEnd) :: Held(m, k) == Held(View(t.data, w), k) {
        SameMirror(m, View(t.data, w));
      }
    }
  }
}
