/** What every response on a stream is. */
module Streams {
  import opened Collections
  import opened Bytes
  import opened Engine
  import opened History
  import opened Ranges
  import opened Watch
  import opened Registration

  // ----- Whole actions are runs of steps -----

  /** Between actions nothing is left to report and nobody is half registered. */
  function Still(sys: System): Live
  {
    Live(sys.state, [], sys.watching, map[])
  }

  lemma TwoMoves(l: Live, first: Move, second: Move)
    requires CanMove(l, first) && CanMove(Moved(l, first), second)
    ensures CanMoveAll(l, [first, second]) && MovedAll(l, [first, second]) == Moved(Moved(l, first), second)
  {
    hide CanMove, Moved;
    OneMove(l, first);
    assert [first, second][..1] == [first];
  }

  lemma OneMove(l: Live, m: Move)
    requires CanMove(l, m)
    ensures CanMoveAll(l, [m]) && MovedAll(l, [m]) == Moved(l, m)
  {
    hide CanMove, Moved;
    assert [m][..0] == [];
  }

  lemma {:induction false} MovesAppend(l: Live, first: seq<Move>, second: seq<Move>)
    requires CanMoveAll(l, first) && CanMoveAll(MovedAll(l, first), second)
    ensures CanMoveAll(l, first + second) && MovedAll(l, first + second) == MovedAll(MovedAll(l, first), second)
  {
    if second == [] {
      assert first + second == first;
    } else {
      hide CanMove, Moved;
      var n := |second| - 1;
      assert (first + second)[..|first + second| - 1] == first + second[..n];
      MovesAppend(l, first, second[..n]);
    }
  }

  /** The steps of a registration, one right after the other. */
  function Registering(id: int, req: WatchRequest): seq<Move>
  {
    if req.startRevision > 0 then [Open(req), List(id), Enter(id)] else [Open(req), Enter(id)]
  }

  lemma OpeningSteps(w: Watcher, s: State)
    ensures Opening(w, s)
            == [CreatedResponse(w, s.revision)] + if w.startRevision > 0 then Snapshot(w, s.data) else []
  {
  }

  /** A registration as one action is where its steps lead when nothing comes between them: the created
      response, the snapshot if and only if a positive start revision is asked for, the entry. */
  lemma RegisterInSteps(sys: System, req: WatchRequest)
    requires Sane(Still(sys))
    ensures var moves := Registering(sys.watching.nextWatchId, req);
            && CanMoveAll(Still(sys), moves)
            && MovedAll(Still(sys), moves) == Still(Act(sys, Register(req)))
  {
    hide WellFormed, Snapshot, Opening, MovedAll, CanMoveAll;
    var l, id := Still(sys), sys.watching.nextWatchId;
    var begun := Moved(l, Open(req));
    OneMove(l, Open(req));
    if req.startRevision > 0 {
      TwoMoves(begun, List(id), Enter(id));
      MovesAppend(l, [Open(req)], [List(id), Enter(id)]);
      assert [Open(req)] + [List(id), Enter(id)] == Registering(id, req);
      ListedThenEntered(sys, req);
    } else {
      OneMove(begun, Enter(id));
      MovesAppend(l, [Open(req)], [Enter(id)]);
      assert [Open(req)] + [Enter(id)] == Registering(id, req);
      EnteredAtOnce(sys, req);
    }
  }

  lemma ListedThenEntered(sys: System, req: WatchRequest)
    requires Sane(Still(sys)) && req.startRevision > 0
    ensures var begun, id := Moved(Still(sys), Open(req)), sys.watching.nextWatchId;
            && CanMove(begun, List(id)) && CanMove(Moved(begun, List(id)), Enter(id))
            && Moved(Moved(begun, List(id)), Enter(id)) == Still(Act(sys, Register(req)))
  {
    hide WellFormed, Snapshot;
    var id := sys.watching.nextWatchId;
    OpeningSteps(NewWatcher(id, req), sys.state);
    assert Moved(Moved(Moved(Still(sys), Open(req)), List(id)), Enter(id)).joining == map[];
  }

  lemma EnteredAtOnce(sys: System, req: WatchRequest)
    requires Sane(Still(sys)) && req.startRevision <= 0
    ensures var begun, id := Moved(Still(sys), Open(req)), sys.watching.nextWatchId;
            && CanMove(begun, Enter(id)) && Moved(begun, Enter(id)) == Still(Act(sys, Register(req)))
  {
    hide WellFormed, Snapshot;
    var id := sys.watching.nextWatchId;
    var created := CreatedResponse(NewWatcher(id, req), sys.state.revision);
    OpeningSteps(NewWatcher(id, req), sys.state);
    assert [created] + [] == [created];
    assert Moved(Moved(Still(sys), Open(req)), Enter(id)).joining == map[];
  }

  lemma CallInSteps(sys: System, op: Op)
    requires ValidAction(sys, Do(op))
    ensures var moves := [Call(op)] + ReportMoves(|Notices(sys.state, op)|);
            && CanMoveAll(Still(sys), moves)
            && MovedAll(Still(sys), moves) == Still(Act(sys, Do(op)))
            && CallsIn(moves) == [op]
  {
    hide Step, NotifyAll, Notices;
    var l, n := Still(sys), |Notices(sys.state, op)|;
    var called := Moved(l, Call(op));
    assert [] + Notices(sys.state, op) == Notices(sys.state, op);
    OneMove(l, Call(op));
    ReportMany(called, n);
    MovesAppend(l, [Call(op)], ReportMoves(n));
    assert called.pending[..n] == Notices(sys.state, op) && called.pending[n..] == [];
    CallsAppend([Call(op)], ReportMoves(n));
    assert CallsIn([Call(op)]) == [op] by {
      assert [Call(op)][..0] == [];
    }
  }

  lemma {:induction false} CallsAppend(first: seq<Move>, second: seq<Move>)
    ensures CallsIn(first + second) == CallsIn(first) + CallsIn(second)
  {
    if second == [] {
      assert first + second == first;
    } else {
      var n := |second| - 1;
      assert (first + second)[..|first + second| - 1] == first + second[..n];
      CallsAppend(first, second[..n]);
    }
  }

  lemma ActionInSteps(sys: System, a: Action) returns (moves: seq<Move>)
    requires ValidAction(sys, a) && Sane(Still(sys))
    ensures CanMoveAll(Still(sys), moves) && MovedAll(Still(sys), moves) == Still(Act(sys, a))
    ensures CallsIn(moves) == OpsOf([a])
  {
    hide Sane, CanMoveAll, MovedAll, Act, Moved, CanMove;
    assert [a][..0] == [];
    match a {
      case Do(op) =>
        CallInSteps(sys, op);
        moves := [Call(op)] + ReportMoves(|Notices(sys.state, op)|);
      case Register(req) =>
        RegisterInSteps(sys, req);
        moves := Registering(sys.watching.nextWatchId, req);
        NoCalls(sys.watching.nextWatchId, req);
      case Cancel(id) =>
        moves := CancelInSteps(sys, id);
    }
  }

  lemma NoCalls(id: int, req: WatchRequest)
    ensures CallsIn(Registering(id, req)) == []
  {
    CallsAppend([Open(req)], [Enter(id)]);
    CallsAppend([Open(req)], [List(id), Enter(id)]);
    CallsAppend([List(id)], [Enter(id)]);
    assert [Open(req)] + [List(id), Enter(id)] == [Open(req), List(id), Enter(id)];
    assert [Open(req)][..0] == [] && [List(id)][..0] == [] && [Enter(id)][..0] == [];
  }

  lemma CancelInSteps(sys: System, id: int) returns (moves: seq<Move>)
    ensures CanMoveAll(Still(sys), moves) && MovedAll(Still(sys), moves) == Still(Act(sys, Cancel(id)))
    ensures CallsIn(moves) == []
  {
    if id in sys.watching.watchers && id in sys.watching.sent {
      OneMove(Still(sys), Leave(id));
      moves := [Leave(id)];
      assert [Leave(id)][..0] == [];
    } else {
      moves := [];
    }
  }

  /** Every history of whole actions is a run of steps with the same calls, the same store and the same
      streams: what holds of every run of steps holds of the server. */
  lemma {:induction false} ActionsInSteps(actions: seq<Action>) returns (moves: seq<Move>)
    requires ValidActions(START, actions)
    ensures CanMoveAll(START_LIVE, moves) && MovedAll(START_LIVE, moves) == Still(ActAll(START, actions))
    ensures CallsIn(moves) == OpsOf(actions)
  {
    hide Act, Moved, CanMove;
    if actions == [] {
      moves := [];
    } else {
      hide Sane, Still;
      var init, last := actions[..|actions| - 1], actions[|actions| - 1];
      var earlier := ActionsInSteps(init);
      ReachableIsSane(earlier);
      var more := ActionInSteps(ActAll(START, init), last);
      MovesAppend(START_LIVE, earlier, more);
      CallsAppend(earlier, more);
      moves := earlier + more;
      OpsOfSnoc(init, last);
      assert actions == init + [last];
    }
  }

  lemma OpsOfSnoc(actions: seq<Action>, a: Action)
    ensures OpsOf(actions + [a]) == OpsOf(actions) + OpsOf([a])
  {
    assert (actions + [a])[..|actions|] == actions && [a][..0] == [];
  }

  // ----- The shape of a stream -----

  /** A response that announces no change: the first, or the last of a canceled watcher. */
  predicate Announces(r: WatchResponse)
  {
    r.created || r.canceled
  }

  /** Everything on the stream is written for its watcher; the first response is created and no other is; a
      response is canceled exactly if the watcher is gone and it is the last; those two carry no events, the
      last one no revision, and every other response carries one event. */
  predicate Shaped(id: int, rs: seq<WatchResponse>, gone: bool)
  {
    && rs != []
    && (gone ==> |rs| > 1)
    && (forall i | 0 <= i < |rs| ::
          && rs[i].watchId == id
          && (rs[i].created <==> i == 0)
          && (rs[i].canceled <==> gone && i == |rs| - 1)
          && |rs[i].events| == (if Announces(rs[i]) then 0 else 1)
          && (rs[i].canceled ==> rs[i].revision == 0))
  }

  predicate Gone(l: Live, id: int)
  {
    id !in l.watching.watchers && id !in l.joining
  }

  ghost predicate AllShaped(l: Live)
  {
    forall id | id in l.watching.sent :: Shaped(id, l.watching.sent[id], Gone(l, id))
  }

  predicate Plain(id: int, rs: seq<WatchResponse>)
  {
    forall i | 0 <= i < |rs| :: rs[i].watchId == id && !Announces(rs[i]) && |rs[i].events| == 1
  }

  lemma ShapedPlain(id: int, rs: seq<WatchResponse>, more: seq<WatchResponse>)
    requires Shaped(id, rs, false) && Plain(id, more)
    ensures Shaped(id, rs + more, false)
  {
  }

  lemma ShapedCanceled(id: int, rs: seq<WatchResponse>)
    requires Shaped(id, rs, false)
    ensures Shaped(id, rs + [Canceled(id)], true)
  {
  }

  lemma ReportIsPlain(w: Watcher, n: Notice)
    ensures Plain(w.watchId, Deliver(w, [n]))
  {
    assert [n][..0] == [] && Deliver(w, [n][..0]) == [];
    assert Deliver(w, [n]) == [] + if Receives(w, n) then [Respond(w, n)] else [];
  }

  lemma SnapshotIsPlain(w: Watcher, data: Data)
    ensures Plain(w.watchId, Snapshot(w, data))
  {
  }

  lemma ReportKeepsShape(l: Live)
    requires Sane(l) && AllShaped(l) && l.pending != []
    ensures AllShaped(Moved(l, Report))
  {
    hide WellFormed, Shaped, Plain, Deliver;
    var t, n := Moved(l, Report), l.pending[0];
    forall id | id in t.watching.sent
      ensures Shaped(id, t.watching.sent[id], Gone(t, id))
    {
      var rs := l.watching.sent[id];
      if id in l.watching.watchers {
        ReportIsPlain(l.watching.watchers[id], n);
        ShapedPlain(id, rs, Deliver(l.watching.watchers[id], [n]));
      } else {
        assert rs + [] == rs;
      }
    }
  }

  lemma MoveKeepsShape(l: Live, m: Move)
    requires Sane(l) && AllShaped(l) && CanMove(l, m)
    ensures AllShaped(Moved(l, m))
  {
    hide WellFormed, Shaped, Snapshot, Step, Notices;
    var t := Moved(l, m);
    match m
    case Report => ReportKeepsShape(l);
    case Open(req) => OpenedIsShaped(l.watching.nextWatchId, req, l.state.revision);
    case List(id) =>
      SnapshotIsPlain(l.joining[id].w, l.state.data);
      ShapedPlain(id, l.watching.sent[id], Snapshot(l.joining[id].w, l.state.data));
    case Leave(id) => ShapedCanceled(id, l.watching.sent[id]);
    case _ =>
  }

  lemma OpenedIsShaped(id: int, req: WatchRequest, revision: int)
    ensures Shaped(id, [CreatedResponse(NewWatcher(id, req), revision)], false)
  {
  }

  /** In every state the steps can reach, every stream has its shape. */
  lemma {:induction false} StreamsAreShaped(moves: seq<Move>)
    requires CanMoveAll(START_LIVE, moves)
    ensures AllShaped(MovedAll(START_LIVE, moves))
  {
    if moves != [] {
      hide Sane, AllShaped, CanMove, Moved;
      var init, last := moves[..|moves| - 1], moves[|moves| - 1];
      StreamsAreShaped(init);
      ReachableIsSane(init);
      MoveKeepsShape(MovedAll(START_LIVE, init), last);
    }
  }

  /** And so on the server: a watcher is canceled exactly if it is no longer in the table. */
  lemma ServerStreamsAreShaped(actions: seq<Action>, id: int)
    requires ValidActions(START, actions) && id in ActAll(START, actions).watching.sent
    ensures var wm := ActAll(START, actions).watching;
            Shaped(id, wm.sent[id], id !in wm.watchers)
  {
    hide Shaped;
    var moves := ActionsInSteps(actions);
    StreamsAreShaped(moves);
  }

  // ----- The created response and the snapshot -----

  /** The revision in a created response is the number of Puts, Deletes and Txns begun by then, plus one. */
  lemma CreatedCountsWrites(before: seq<Move>, r: Registration)
    requires CanMoveAll(START_LIVE, before) && r.start == MovedAll(START_LIVE, before) && CanRegister(r)
    ensures OpeningOf(r)[0].created && OpeningOf(r)[0].events == []
    ensures OpeningOf(r)[0].revision == Since(r) == Writes(CallsIn(before)) + 1
    ensures r.req.startRevision <= 0 ==> |OpeningOf(r)| == 1
  {
    hide CanRegister, MovedAll, CanMoveAll, Run, AllNotices;
    SinceIsCurrent(r);
    FirstInFirstOut(START_LIVE, before);
    RevisionCountsWrites(INIT, CallsIn(before));
  }

  /** So on the server; and without a positive start revision the created response is all that is sent. */
  lemma CreatedOnServer(actions: seq<Action>, req: WatchRequest)
    requires ValidActions(START, actions)
    ensures var id, sent := ActAll(START, actions).watching.nextWatchId,
                            Act(ActAll(START, actions), Register(req)).watching.sent;
            && id in sent && sent[id] != []
            && sent[id][0].created && sent[id][0].revision == Writes(OpsOf(actions)) + 1
            && (req.startRevision <= 0 ==> |sent[id]| == 1)
  {
    hide Snapshot;
    var sys := ActAll(START, actions);
    StateIsRun(START, actions);
    RevisionCountsWrites(INIT, OpsOf(actions));
    OpeningSteps(NewWatcher(sys.watching.nextWatchId, req), sys.state);
  }

  /** And the last response of a watcher just canceled is canceled. */
  lemma CanceledOnServer(actions: seq<Action>, id: int)
    requires ValidActions(START, actions) && id in ActAll(START, actions).watching.watchers
    ensures var sent := Act(ActAll(START, actions), Cancel(id)).watching.sent;
            && id in sent && sent[id] != []
            && sent[id][|sent[id]| - 1].canceled && !sent[id][|sent[id]| - 1].created
  {
    StaysConsistent(START, actions);
  }

  /** A snapshot response is the record of one key in range, in ascending order of keys, all of them; its
      header is the revision of the last put to the key, and it has no previous record. */
  lemma SnapshotIsDated(ops: seq<Op>, w: Watcher, i: nat)
    requires i < |Snapshot(w, Run(INIT, ops).data)|
    ensures var data, r := Run(INIT, ops).data, Snapshot(w, Run(INIT, ops).data)[i];
            && |r.events| == 1 && r.events[0].PutEvent? && r.events[0].prevKv == None && r.watchId == w.watchId
            && var kv := r.events[0].kv;
               && i < |Sorted(InRangeKeys(data, w.key, w.rangeEnd))|
               && kv.key == Sorted(InRangeKeys(data, w.key, w.rangeEnd))[i]
               && Stored(data, kv.key) == Some(kv)
               && var puts := LivePuts(Log(INIT, ops), kv.key);
                  puts != [] && r.revision == puts[|puts| - 1].revision
  {
    hide Run, Log, LivePuts, Sorted, InRangeKeys, Determines, WellFormed;
    var data := Run(INIT, ops).data;
    var keys := Sorted(InRangeKeys(data, w.key, w.rangeEnd));
    ListedArePresent(data, w.key, w.rangeEnd);
    RunWellFormed(INIT, ops);
    StoreIsItsLog(ops);
    assert keys[i] in keys;
    RecordIsDated(ops, keys[i]);
  }

  lemma RecordIsDated(ops: seq<Op>, key: Bytes)
    requires Determines(Log(INIT, ops), Run(INIT, ops).data) && WellFormed(Run(INIT, ops))
    requires key in Run(INIT, ops).data
    ensures var puts := LivePuts(Log(INIT, ops), key);
            && puts != [] && Run(INIT, ops).data[key].kv.key == key
            && Run(INIT, ops).data[key].kv.modRevision == puts[|puts| - 1].revision
  {
    hide Run, Log, LivePuts;
    assert DeterminesAt(Log(INIT, ops), Run(INIT, ops).data, key);
  }

  lemma InitWellFormed()
    ensures WellFormed(INIT)
  {
  }

  // ----- What a live response tells, step by step -----

  /** The store is that of the run, and what is to be reported comes from its calls. */
  ghost predicate From(l: Live, ops: seq<Op>)
  {
    && ValidRun(INIT, ops) && l.state == Run(INIT, ops)
    && forall n | n in l.pending :: n in AllNotices(INIT, ops)
  }

  lemma {:induction false} AllNoticesAppend(s: State, first: seq<Op>, second: seq<Op>)
    requires ValidRun(s, first + second)
    ensures ValidRun(s, first) && ValidRun(Run(s, first), second)
    ensures AllNotices(s, first + second) == AllNotices(s, first) + AllNotices(Run(s, first), second)
  {
    hide Notices, Step;
    RunAppend(s, first, second);
    if second == [] {
      assert first + second == first;
    } else {
      var n := |second| - 1;
      assert (first + second)[..|first + second| - 1] == first + second[..n];
      AllNoticesAppend(s, first, second[..n]);
      RunAppend(s, first, second[..n]);
    }
  }

  lemma StaysFrom(l: Live, ops: seq<Op>, moves: seq<Move>)
    requires From(l, ops) && CanMoveAll(l, moves)
    ensures From(MovedAll(l, moves), ops + CallsIn(moves))
    ensures forall n | n in Told(l, moves) :: n in AllNotices(INIT, ops + CallsIn(moves))
  {
    hide CanMove, Moved, Run, Step, Notices, AllNotices, ValidRun;
    var calls, t := CallsIn(moves), MovedAll(l, moves);
    FirstInFirstOut(l, moves);
    RunAppend(INIT, ops, calls);
    AllNoticesAppend(INIT, ops, calls);
    var all := l.pending + AllNotices(l.state, calls);
    forall n | n in Told(l, moves) || n in t.pending
      ensures n in AllNotices(INIT, ops + calls)
    {
      assert n in Told(l, moves) + t.pending;
      assert n in l.pending || n in AllNotices(l.state, calls);
    }
  }

  lemma StartFrom()
    ensures From(START_LIVE, [])
  {
  }

  lemma OneMoveFrom(l: Live, ops: seq<Op>, m: Move)
    requires From(l, ops) && CanMove(l, m) && !m.Call? && !m.Report?
    ensures From(Moved(l, m), ops)
  {
    hide AllNotices, ValidRun, Run;
  }

  /** All the calls up to the end of `live`, from the start. */
  function CallsUntil(before: seq<Move>, r: Registration, live: seq<Move>): seq<Op>
  {
    CallsIn(before) + CallsIn(r.early) + CallsIn(r.late) + CallsIn(live)
  }

  lemma EnteredFrom(before: seq<Move>, r: Registration)
    requires CanMoveAll(START_LIVE, before) && r.start == MovedAll(START_LIVE, before) && CanRegister(r)
    ensures From(Entered(r), CallsIn(before) + CallsIn(r.early) + CallsIn(r.late))
  {
    hide From, MovedAll, CanMoveAll, Moved;
    StartFrom();
    assert [] + CallsIn(before) == CallsIn(before);
    StaysFrom(START_LIVE, [], before);
    var ops := CallsIn(before);
    OneMoveFrom(r.start, ops, Open(r.req));
    StaysFrom(Moved(r.start, Open(r.req)), ops, r.early);
    if r.req.startRevision > 0 {
      OneMoveFrom(AtListing(r), ops + CallsIn(r.early), List(IdOf(r)));
    }
    StaysFrom(Listed(r), ops + CallsIn(r.early), r.late);
    OneMoveFrom(AtEntry(r), ops + CallsIn(r.early) + CallsIn(r.late), Enter(IdOf(r)));
  }

  /** Every live response, wherever the watcher entered among the reports of a call, tells of one call of the
      run: the record that call left or removed, at its revision, and, if the registration asked for it, the
      record it replaced. */
  lemma HeardTells(before: seq<Move>, r: Registration, live: seq<Move>, response: WatchResponse) returns (j: nat)
    requires CanMoveAll(START_LIVE, before) && r.start == MovedAll(START_LIVE, before)
    requires CanRegister(r) && CanMoveAll(Entered(r), live)
    requires response in Deliver(WatcherOf(r), Told(Entered(r), live))
    ensures var ops := CallsUntil(before, r, live);
            j < |ops| && Tells(IdOf(r), r.req.prevKv, Run(INIT, ops[..j]), ops[j], response)
  {
    hide From, MovedAll, CanMoveAll, Moved, Told, Deliver, Tells, Run, Respond, Receives, AllNotices, ValidRun;
    hide WellFormed, CanRegister, Entered;
    EnteredFrom(before, r);
    var ops := CallsUntil(before, r, live);
    StaysFrom(Entered(r), CallsIn(before) + CallsIn(r.early) + CallsIn(r.late), live);
    FromMeans(MovedAll(Entered(r), live), ops);
    var n := DeliveredIsResponse(WatcherOf(r), Told(Entered(r), live), response);
    j := NoticeOrigin(INIT, ops, n);
    InitWellFormed();
    RunWellFormed(INIT, ops[..j]);
    NoticeTells(WatcherOf(r), Run(INIT, ops[..j]), ops[j], n);
  }

  lemma FromMeans(l: Live, ops: seq<Op>)
    requires From(l, ops)
    ensures ValidRun(INIT, ops)
  {
  }
}
