/** Registration and notification, step by step. */
module Registration {
  import opened Collections
  import opened Bytes
  import opened Engine
  import opened History
  import opened Watch

  // RegisterWatcher reads the revision without a lock, takes its snapshot under the store's mutex, and enters
  // the watcher in the table under the watch mutex. A Put or a collecting Delete holds the store's mutex for
  // its whole length, but takes and gives back the watch mutex for every change it reports, so a watcher may
  // enter the table between two reports of one Delete.

  /** A watcher that is not in the table yet, and whether its snapshot has been sent. */
  datatype Joining = Joining(w: Watcher, listed: bool)

  /** `pending` is what the holder of the store's mutex has yet to report. */
  datatype Live = Live(state: State, pending: seq<Notice>, watching: Watching, joining: map<int, Joining>)

  datatype Move =
    | Call(op: Op)              // a Put, Delete or Txn takes the store's mutex and makes its changes; or a lease step
    | Report                    // the next change is reported, to every watcher in the table
    | Open(req: WatchRequest)   // a new watcher reads the revision and is sent its created response
    | List(id: int)             // it is sent its snapshot
    | Enter(id: int)            // it enters the table
    | Leave(id: int)            // it is canceled

  predicate IsWrite(op: Op)
  {
    op.Put? || op.Delete? || op.Txn?
  }

  ghost predicate CanMove(l: Live, m: Move)
  {
    match m
    case Call(op) => ValidOp(l.state, op) && (IsWrite(op) ==> l.pending == [])
    case Report => l.pending != []
    case Open(_) => true
    case List(id) =>
      id in l.joining && !l.joining[id].listed && l.joining[id].w.startRevision > 0 && l.pending == []
      && id in l.watching.sent
    case Enter(id) => id in l.joining && (l.joining[id].w.startRevision > 0 ==> l.joining[id].listed)
    case Leave(id) => id in l.watching.watchers && id in l.watching.sent
  }

  function CreatedResponse(w: Watcher, revision: int): WatchResponse
  {
    WatchResponse(revision, w.watchId, true, false, [])
  }

  ghost function Moved(l: Live, m: Move): Live
    requires CanMove(l, m)
  {
    var wm := l.watching;
    match m
    case Call(op) => l.(state := Step(l.state, op), pending := l.pending + Notices(l.state, op))
    case Report => l.(watching := NotifyAll(wm, [l.pending[0]]), pending := l.pending[1..])
    case Open(req) =>
      var w := NewWatcher(wm.nextWatchId, req);
      l.(watching := wm.(nextWatchId := wm.nextWatchId + 1,
                         sent := wm.sent[w.watchId := [CreatedResponse(w, l.state.revision)]]),
         joining := l.joining[w.watchId := Joining(w, false)])
    case List(id) =>
      var w := l.joining[id].w;
      l.(watching := wm.(sent := wm.sent[id := wm.sent[id] + Snapshot(w, l.state.data)]),
         joining := l.joining[id := Joining(w, true)])
    case Enter(id) =>
      l.(watching := wm.(watchers := wm.watchers[id := l.joining[id].w]), joining := l.joining - {id})
    case Leave(id) =>
      l.(watching := wm.(watchers := wm.watchers - {id}, sent := wm.sent[id := wm.sent[id] + [Canceled(id)]]))
  }

  ghost predicate CanMoveAll(l: Live, moves: seq<Move>)
    decreases |moves|, 0
  {
    moves == []
    || (CanMoveAll(l, moves[..|moves| - 1])
        && CanMove(MovedAll(l, moves[..|moves| - 1]), moves[|moves| - 1]))
  }

  ghost function MovedAll(l: Live, moves: seq<Move>): Live
    requires CanMoveAll(l, moves)
    decreases |moves|, 1
  {
    if moves == [] then l else Moved(MovedAll(l, moves[..|moves| - 1]), moves[|moves| - 1])
  }

  function CallsIn(moves: seq<Move>): seq<Op>
  {
    if moves == [] then []
    else
      CallsIn(moves[..|moves| - 1]) + CallsOf(moves[|moves| - 1])
  }

  /** The changes reported along the way. */
  ghost function Told(l: Live, moves: seq<Move>): seq<Notice>
    requires CanMoveAll(l, moves)
  {
    if moves == [] then []
    else
      var init := moves[..|moves| - 1];
      Told(l, init) + if moves[|moves| - 1].Report? then [MovedAll(l, init).pending[0]] else []
  }

  // ----- What stays true -----

  /** What is still to be reported is true of the store as it is, and dated now. */
  predicate StillTrue(n: Notice, s: State)
  {
    && n.key == n.kv.key && n.revision == s.revision && WellDated(n)
    && Stored(s.data, n.key) == if n.PutNotice? then Some(n.kv) else None
  }

  ghost predicate Sane(l: Live)
  {
    && WellFormed(l.state)
    && (forall i | 0 <= i < |l.pending| :: StillTrue(l.pending[i], l.state))
    && Consistent(l.watching)
    && (forall id | id in l.joining ::
          && id in l.watching.sent && id !in l.watching.watchers
          && l.joining[id].w.watchId == id && l.joining[id].w.active)
  }

  const START_LIVE := Live(INIT, [], NOT_WATCHING, map[])

  lemma StartIsSane()
    ensures Sane(START_LIVE)
  {
  }

  lemma NoticesAreTrue(s: State, op: Op)
    requires WellFormed(s) && ValidOp(s, op)
    ensures forall i | 0 <= i < |Notices(s, op)| :: StillTrue(Notices(s, op)[i], Step(s, op))
  {
    var ns := Notices(s, op);
    forall i | 0 <= i < |ns|
      ensures StillTrue(ns[i], Step(s, op))
    {
      if op.Delete? {
        assert op.order[i] in op.order;
      }
    }
  }

  lemma CallKeepsSane(l: Live, op: Op)
    requires Sane(l) && CanMove(l, Call(op))
    ensures Sane(Moved(l, Call(op)))
  {
    hide WellFormed;
    StepWellFormed(l.state, op);
    if IsWrite(op) {
      NoticesAreTrue(l.state, op);
      assert l.pending + Notices(l.state, op) == Notices(l.state, op);
    } else {
      assert l.pending + [] == l.pending;
    }
  }

  lemma MoveKeepsSane(l: Live, m: Move)
    requires Sane(l) && CanMove(l, m)
    ensures Sane(Moved(l, m))
  {
    if m.Call? {
      CallKeepsSane(l, m.op);
    }
  }

  lemma {:induction false} StaysSane(l: Live, moves: seq<Move>)
    requires Sane(l) && CanMoveAll(l, moves)
    ensures Sane(MovedAll(l, moves))
  {
    if moves != [] {
      hide Sane, CanMove, Moved;
      StaysSane(l, moves[..|moves| - 1]);
      MoveKeepsSane(MovedAll(l, moves[..|moves| - 1]), moves[|moves| - 1]);
    }
  }

  /** So what is still to be reported is true in every state the machine reaches. */
  lemma ReachableIsSane(moves: seq<Move>)
    requires CanMoveAll(START_LIVE, moves)
    ensures Sane(MovedAll(START_LIVE, moves))
  {
    StartIsSane();
    StaysSane(START_LIVE, moves);
  }

  function CallsOf(m: Move): seq<Op>
  {
    match m case Call(op) => [op] case _ => []
  }

  ghost function ToldBy(l: Live, m: Move): seq<Notice>
    requires CanMove(l, m)
  {
    if m.Report? then [l.pending[0]] else []
  }

  ghost function Added(l: Live, m: Move): seq<Notice>
    requires CanMove(l, m)
  {
    match m case Call(op) => Notices(l.state, op) case _ => []
  }

  lemma OneMoveReports(l: Live, m: Move)
    requires CanMove(l, m)
    ensures l.pending + Added(l, m) == ToldBy(l, m) + Moved(l, m).pending
    ensures Moved(l, m).state == if m.Call? then Step(l.state, m.op) else l.state
  {
  }

  lemma AddedIsNotices(s: State, ops: seq<Op>, l: Live, m: Move)
    requires CanMove(l, m) && ValidRun(s, ops) && Run(s, ops) == l.state
    ensures ValidRun(s, ops + CallsOf(m)) && Run(s, ops + CallsOf(m)) == Moved(l, m).state
    ensures AllNotices(s, ops + CallsOf(m)) == AllNotices(s, ops) + Added(l, m)
  {
    hide Step, Notices;
    OneMoveReports(l, m);
    if m.Call? {
      RunSnoc(s, ops, m.op);
      AllNoticesSnoc(s, ops, m.op);
    } else {
      assert ops + [] == ops;
    }
  }

  /** Changes are reported in the order they are made, and none is lost: what was to be reported and what the
      calls add is what has been reported and what is still to be. */
  lemma {:induction false} FirstInFirstOut(l: Live, moves: seq<Move>)
    requires CanMoveAll(l, moves)
    ensures ValidRun(l.state, CallsIn(moves)) && MovedAll(l, moves).state == Run(l.state, CallsIn(moves))
    ensures l.pending + AllNotices(l.state, CallsIn(moves)) == Told(l, moves) + MovedAll(l, moves).pending
  {
    if moves != [] {
      hide CanMove, Moved, Run, Step, ValidRun, AllNotices, Notices, Added, ToldBy;
      var init, last := moves[..|moves| - 1], moves[|moves| - 1];
      FirstInFirstOut(l, init);
      var mid := MovedAll(l, init);
      OneMoveReports(mid, last);
      AddedIsNotices(l.state, CallsIn(init), mid, last);
      ToldSnoc(l, moves);
      PassOn(l.pending, AllNotices(l.state, CallsIn(init)), Told(l, init), mid.pending,
             Added(mid, last), ToldBy(mid, last), Moved(mid, last).pending);
    }
  }

  lemma PassOn<T>(a: seq<T>, b: seq<T>, told: seq<T>, left: seq<T>, added: seq<T>, one: seq<T>, left': seq<T>)
    requires a + b == told + left && left + added == one + left'
    ensures a + (b + added) == told + one + left'
  {
    calc {
      a + (b + added);
      { SeqAssociative(a, b, added); }
      told + left + added;
      { SeqAssociative(told, left, added); }
      told + (one + left');
      { SeqAssociative(told, one, left'); }
      told + one + left';
    }
  }

  lemma ToldSnoc(l: Live, moves: seq<Move>)
    requires moves != [] && CanMoveAll(l, moves)
    ensures var init, last := moves[..|moves| - 1], moves[|moves| - 1];
            && Told(l, moves) == Told(l, init) + ToldBy(MovedAll(l, init), last)
            && CallsIn(moves) == CallsIn(init) + CallsOf(last)
            && MovedAll(l, moves) == Moved(MovedAll(l, init), last)
  {
  }

  // ----- One watcher's stream -----

  lemma EnteredGrows(l: Live, m: Move, id: int)
    requires Sane(l) && CanMove(l, m) && m != Leave(id) && id in l.watching.watchers
    ensures var wm, w := Moved(l, m).watching, l.watching.watchers[id];
            && id in wm.watchers && wm.watchers[id] == w && id in wm.sent
            && wm.sent[id] == l.watching.sent[id] + if m.Report? then Deliver(w, [l.pending[0]]) else []
  {
    assert l.watching.sent[id] + [] == l.watching.sent[id];
  }

  /** While it is in the table, a watcher's stream grows by exactly the reports in its range. */
  lemma {:induction false} StreamGrows(l: Live, moves: seq<Move>, id: int)
    requires Sane(l) && CanMoveAll(l, moves) && Leave(id) !in moves && id in l.watching.watchers
    ensures var wm, w := MovedAll(l, moves).watching, l.watching.watchers[id];
            && id in wm.watchers && wm.watchers[id] == w && id in wm.sent
            && wm.sent[id] == l.watching.sent[id] + Deliver(w, Told(l, moves))
  {
    var w, sent := l.watching.watchers[id], l.watching.sent[id];
    if moves == [] {
      assert sent + [] == sent;
    } else {
      hide Sane, CanMove, Moved, NotifyAll;
      var init, last := moves[..|moves| - 1], moves[|moves| - 1];
      assert moves == init + [last];
      StreamGrows(l, init, id);
      StaysSane(l, init);
      var mid := MovedAll(l, init);
      EnteredGrows(mid, last, id);
      var more: seq<Notice> := if last.Report? then [mid.pending[0]] else [];
      DeliverAppend(w, Told(l, init), more);
      SeqAssociative(sent, Deliver(w, Told(l, init)), Deliver(w, more));
    }
  }

  lemma JoiningWaits(l: Live, m: Move, id: int)
    requires Sane(l) && CanMove(l, m) && m != List(id) && m != Enter(id) && id in l.joining
    ensures var t := Moved(l, m);
            && id in t.joining && t.joining[id] == l.joining[id]
            && id in t.watching.sent && t.watching.sent[id] == l.watching.sent[id]
  {
    assert l.watching.sent[id] + [] == l.watching.sent[id];
  }

  lemma {:induction false} StreamWaits(l: Live, moves: seq<Move>, id: int)
    requires Sane(l) && CanMoveAll(l, moves) && List(id) !in moves && Enter(id) !in moves && id in l.joining
    ensures var t := MovedAll(l, moves);
            && id in t.joining && t.joining[id] == l.joining[id]
            && id in t.watching.sent && t.watching.sent[id] == l.watching.sent[id]
  {
    if moves != [] {
      hide Sane, CanMove, Moved;
      var init, last := moves[..|moves| - 1], moves[|moves| - 1];
      assert moves == init + [last];
      StreamWaits(l, init, id);
      StaysSane(l, init);
      JoiningWaits(MovedAll(l, init), last, id);
    }
  }

  /** A registration: the state it starts from, and what others do before and after its snapshot. */
  datatype Registration = Registration(start: Live, req: WatchRequest, early: seq<Move>, late: seq<Move>)

  function IdOf(r: Registration): int
  {
    r.start.watching.nextWatchId
  }

  function WatcherOf(r: Registration): Watcher
  {
    NewWatcher(IdOf(r), r.req)
  }

  /** Moves of others. */
  predicate Others(moves: seq<Move>, id: int)
  {
    List(id) !in moves && Enter(id) !in moves
  }

  ghost predicate CanRegister(r: Registration)
  {
    var id := IdOf(r);
    && Sane(r.start)
    && CanMoveAll(Moved(r.start, Open(r.req)), r.early) && Others(r.early, id)
    && (r.req.startRevision > 0 ==> CanMove(AtListing(r), List(id)))
    && CanMoveAll(Listed(r), r.late) && Others(r.late, id)
    && CanMove(AtEntry(r), Enter(id))
  }

  ghost function AtListing(r: Registration): Live
    requires CanMoveAll(Moved(r.start, Open(r.req)), r.early)
  {
    MovedAll(Moved(r.start, Open(r.req)), r.early)
  }

  ghost function Listed(r: Registration): Live
    requires CanMoveAll(Moved(r.start, Open(r.req)), r.early)
    requires r.req.startRevision > 0 ==> CanMove(AtListing(r), List(IdOf(r)))
  {
    if r.req.startRevision > 0 then Moved(AtListing(r), List(IdOf(r))) else AtListing(r)
  }

  ghost function AtEntry(r: Registration): Live
    requires CanMoveAll(Moved(r.start, Open(r.req)), r.early)
    requires r.req.startRevision > 0 ==> CanMove(AtListing(r), List(IdOf(r)))
    requires CanMoveAll(Listed(r), r.late)
  {
    MovedAll(Listed(r), r.late)
  }

  ghost function Entered(r: Registration): Live
    requires CanRegister(r)
  {
    Moved(AtEntry(r), Enter(IdOf(r)))
  }

  /** What the watcher has been sent when it enters the table. */
  ghost function OpeningOf(r: Registration): seq<WatchResponse>
    requires CanRegister(r)
  {
    [CreatedResponse(WatcherOf(r), r.start.state.revision)]
    + if r.req.startRevision > 0 then Snapshot(WatcherOf(r), AtListing(r).state.data) else []
  }

  lemma Entering(r: Registration)
    requires CanRegister(r)
    ensures Sane(AtListing(r)) && Sane(Listed(r)) && Sane(AtEntry(r)) && Sane(Entered(r))
    ensures var wm := Entered(r).watching;
            && IdOf(r) in wm.watchers && wm.watchers[IdOf(r)] == WatcherOf(r)
            && IdOf(r) in wm.sent && wm.sent[IdOf(r)] == OpeningOf(r)
  {
    var id := IdOf(r);
    var created := Moved(r.start, Open(r.req));
    MoveKeepsSane(r.start, Open(r.req));
    StaysSane(created, r.early);
    StreamWaits(created, r.early, id);
    if r.req.startRevision > 0 {
      MoveKeepsSane(AtListing(r), List(id));
    }
    StaysSane(Listed(r), r.late);
    StreamWaits(Listed(r), r.late, id);
    MoveKeepsSane(AtEntry(r), Enter(id));
    var first := [CreatedResponse(WatcherOf(r), r.start.state.revision)];
    assert first + [] == first;
  }

  /** Whatever happens between the steps of its registration, a watcher's stream is its created response, the
      snapshot, and each change reported after it entered the table that falls in its range, once and in
      order. */
  lemma StreamInSteps(r: Registration, live: seq<Move>)
    requires CanRegister(r) && CanMoveAll(Entered(r), live) && Leave(IdOf(r)) !in live
    ensures var final := MovedAll(Entered(r), live);
            && IdOf(r) in final.watching.watchers && IdOf(r) in final.watching.sent
            && final.watching.sent[IdOf(r)] == OpeningOf(r) + Deliver(WatcherOf(r), Told(Entered(r), live))
  {
    hide CanRegister, Sane, OpeningOf;
    Entering(r);
    StreamGrows(Entered(r), live, IdOf(r));
  }

  // ----- Cancellation -----

  lemma {:induction false} StreamEnds(l: Live, moves: seq<Move>, id: int)
    requires CanMoveAll(l, moves)
    requires id in l.watching.sent && id !in l.watching.watchers && id !in l.joining && id < l.watching.nextWatchId
    ensures var t := MovedAll(l, moves);
            && id in t.watching.sent && id !in t.watching.watchers && id !in t.joining
            && id < t.watching.nextWatchId && t.watching.sent[id] == l.watching.sent[id]
  {
    if moves != [] {
      hide Moved, CanMove;
      StreamEnds(l, moves[..|moves| - 1], id);
      OneMoveSilent(MovedAll(l, moves[..|moves| - 1]), moves[|moves| - 1], id);
    }
  }

  lemma OneMoveSilent(l: Live, m: Move, id: int)
    requires CanMove(l, m)
    requires id in l.watching.sent && id !in l.watching.watchers && id !in l.joining && id < l.watching.nextWatchId
    ensures var t := Moved(l, m);
            && id in t.watching.sent && id !in t.watching.watchers && id !in t.joining
            && id < t.watching.nextWatchId && t.watching.sent[id] == l.watching.sent[id]
  {
    assert l.watching.sent[id] + [] == l.watching.sent[id];
  }

  /** The life of a watcher in steps: then the canceled response, and nothing more. */
  lemma LifeInSteps(r: Registration, live: seq<Move>, after: seq<Move>)
    requires CanRegister(r) && CanMoveAll(Entered(r), live) && Leave(IdOf(r)) !in live
    requires var last := MovedAll(Entered(r), live);
             CanMove(last, Leave(IdOf(r))) && CanMoveAll(Moved(last, Leave(IdOf(r))), after)
    ensures var last := MovedAll(Entered(r), live);
            var final := MovedAll(Moved(last, Leave(IdOf(r))), after);
            && IdOf(r) in final.watching.sent
            && final.watching.sent[IdOf(r)]
               == OpeningOf(r) + Deliver(WatcherOf(r), Told(Entered(r), live)) + [Canceled(IdOf(r))]
  {
    hide CanRegister, OpeningOf;
    var id := IdOf(r);
    StreamInSteps(r, live);
    Entering(r);
    StaysSane(Entered(r), live);
    var last := MovedAll(Entered(r), live);
    assert id in last.watching.sent;
    StreamEnds(Moved(last, Leave(id)), after, id);
  }

  // ----- Revisions on the stream -----

  /** From a registration on, until nothing is left to report. */
  ghost predicate Settled(r: Registration, live: seq<Move>)
  {
    && CanRegister(r) && CanMoveAll(Entered(r), live) && MovedAll(Entered(r), live).pending == []
  }

  ghost function Heard(r: Registration, live: seq<Move>): seq<WatchResponse>
    requires Settled(r, live)
  {
    Deliver(WatcherOf(r), Told(Entered(r), live))
  }

  /** The revision in the created response. */
  ghost function Since(r: Registration): int
    requires CanRegister(r)
  {
    OpeningOf(r)[0].revision
  }

  lemma SinceIsCurrent(r: Registration)
    requires CanRegister(r)
    ensures Since(r) == r.start.state.revision
  {
    hide CanRegister;
  }

  lemma DatedAppend(first: seq<Notice>, second: seq<Notice>, since: int, middle: int, until: int)
    requires Dated(first, since, middle) && Dated(second, middle, until) && since <= middle <= until
    ensures Dated(first + second, since, until)
  {
    var both := first + second;
    forall i, j | 0 <= i < j < |both|
      ensures both[i].revision <= both[j].revision
    {
      assert i < |first| <= j ==> both[i].revision <= middle < both[j].revision;
    }
  }

  lemma PendingDated(l: Live)
    requires Sane(l)
    ensures Dated(l.pending, l.state.revision - 1, l.state.revision)
  {
  }

  lemma RevisionGrows(l: Live, moves: seq<Move>)
    requires Sane(l) && CanMoveAll(l, moves)
    ensures l.state.revision <= MovedAll(l, moves).state.revision
    ensures l.pending == [] && MovedAll(l, moves).pending != [] ==>
              l.state.revision < MovedAll(l, moves).state.revision
  {
    hide Moved, MovedAll, CanMoveAll, Told, Run, ValidRun, AllNotices;
    FirstInFirstOut(l, moves);
    RevisionCountsWrites(l.state, CallsIn(moves));
    NoticesDated(l.state, CallsIn(moves));
    var ns, t := AllNotices(l.state, CallsIn(moves)), MovedAll(l, moves);
    if l.pending == [] && t.pending != [] {
      assert [] + ns == ns;
      assert ns[|ns| - 1].revision > l.state.revision;
    }
  }

  lemma EntryRevision(r: Registration)
    requires CanRegister(r)
    ensures Since(r) <= Entered(r).state.revision
    ensures r.req.startRevision > 0 && Entered(r).pending != [] ==> Since(r) < Entered(r).state.revision
  {
    hide MovedAll, CanMoveAll, WellFormed, OpeningOf;
    SinceIsCurrent(r);
    Entering(r);
    MoveKeepsSane(r.start, Open(r.req));
    RevisionGrows(Moved(r.start, Open(r.req)), r.early);
    RevisionGrows(Listed(r), r.late);
  }

  lemma ToldDated(r: Registration, live: seq<Move>)
    requires Settled(r, live)
    ensures var e := Entered(r);
            && Sane(e)
            && ValidRun(e.state, CallsIn(live))
            && Told(e, live) == e.pending + AllNotices(e.state, CallsIn(live))
            && Dated(AllNotices(e.state, CallsIn(live)), e.state.revision, MovedAll(e, live).state.revision)
            && e.state.revision <= MovedAll(e, live).state.revision
            && Dated(Told(e, live), e.state.revision - 1, MovedAll(e, live).state.revision)
  {
    hide CanRegister, Moved, MovedAll, CanMoveAll, Told, Run, ValidRun, AllNotices;
    var e := Entered(r);
    Entering(r);
    FirstInFirstOut(e, live);
    assert Told(e, live) + [] == Told(e, live);
    RevisionGrows(e, live);
    NoticesDated(e.state, CallsIn(live));
    PendingDated(e);
    DatedAppend(e.pending, AllNotices(e.state, CallsIn(live)), e.state.revision - 1, e.state.revision,
                MovedAll(e, live).state.revision);
  }

  lemma DatedLater(ns: seq<Notice>, since: int, earlier: int, until: int)
    requires Dated(ns, since, until) && earlier <= since
    ensures Dated(ns, earlier, until)
  {
  }

  /** Header revisions never decrease, none is below the revision in the created response, a PUT's is its
      record's modification revision, a DELETE's is newer than that of the record deleted. */
  lemma HeardInOrder(r: Registration, live: seq<Move>)
    requires Settled(r, live)
    ensures LiveDated(Heard(r, live), IdOf(r), Since(r) - 1, MovedAll(Entered(r), live).state.revision)
  {
    hide CanRegister, Moved, MovedAll, CanMoveAll, Told, AllNotices, Dated;
    ToldDated(r, live);
    EntryRevision(r);
    var e := Entered(r);
    DatedLater(Told(e, live), e.state.revision - 1, Since(r) - 1, MovedAll(e, live).state.revision);
    DeliverDated(WatcherOf(r), Told(e, live), Since(r) - 1, MovedAll(e, live).state.revision);
  }

  lemma PendingHeard(w: Watcher, l: Live)
    requires Sane(l)
    ensures forall i | 0 <= i < |Deliver(w, l.pending)| :: Deliver(w, l.pending)[i].revision == l.state.revision
  {
    PendingDated(l);
    DeliverDated(w, l.pending, l.state.revision - 1, l.state.revision);
  }

  lemma LaterHeard(w: Watcher, ns: seq<Notice>, since: int, until: int)
    requires Dated(ns, since, until)
    ensures forall i | 0 <= i < |Deliver(w, ns)| :: since < Deliver(w, ns)[i].revision
  {
    DeliverDated(w, ns, since, until);
  }

  /** They are all above it if and only if, when the watcher entered the table, a call had begun since the
      created response was dated, or none of what was still to be reported was in its range. */
  lemma StrictlyLaterIff(r: Registration, live: seq<Move>)
    requires Settled(r, live)
    ensures (forall i | 0 <= i < |Heard(r, live)| :: Since(r) < Heard(r, live)[i].revision)
            <==> Since(r) < Entered(r).state.revision
                 || forall i | 0 <= i < |Entered(r).pending| :: !Receives(WatcherOf(r), Entered(r).pending[i])
  {
    hide CanRegister, Entered, MovedAll, CanMoveAll, Told, AllNotices, ValidRun, Deliver, Dated, Sane, Receives;
    hide WatcherOf;
    ToldDated(r, live);
    EntryRevision(r);
    var e, w := Entered(r), WatcherOf(r);
    var more := AllNotices(e.state, CallsIn(live));
    DeliverAppend(w, e.pending, more);
    PendingHeard(w, e);
    LaterHeard(w, more, e.state.revision, MovedAll(e, live).state.revision);
    HeardPending(w, e.pending);
    FirstThenLater(Deliver(w, e.pending), Deliver(w, more), Since(r), e.state.revision);
    assert Heard(r, live) == Deliver(w, e.pending) + Deliver(w, more);
  }

  lemma FirstThenLater(first: seq<WatchResponse>, second: seq<WatchResponse>, since: int, at: int)
    requires since <= at
    requires forall i | 0 <= i < |first| :: first[i].revision == at
    requires forall i | 0 <= i < |second| :: at < second[i].revision
    ensures (forall i | 0 <= i < |first + second| :: since < (first + second)[i].revision)
            <==> since < at || first == []
  {
    if first != [] {
      assert (first + second)[0] == first[0];
    }
  }

  lemma {:induction false} HeardPending(w: Watcher, ns: seq<Notice>)
    ensures Deliver(w, ns) == [] <==> forall i | 0 <= i < |ns| :: !Receives(w, ns[i])
  {
    if ns != [] {
      HeardPending(w, ns[..|ns| - 1]);
    }
  }

  /** A watcher that asked for a snapshot always hears strictly later revisions: the call under way when the
      created response was dated had to finish before the snapshot. */
  lemma AfterSnapshotStrictlyLater(r: Registration, live: seq<Move>)
    requires Settled(r, live) && r.req.startRevision > 0
    ensures forall i | 0 <= i < |Heard(r, live)| :: Since(r) < Heard(r, live)[i].revision
  {
    hide CanRegister;
    EntryRevision(r);
    StrictlyLaterIff(r, live);
  }

  function ReportMoves(n: nat): seq<Move>
  {
    seq(n, _ => Report)
  }

  lemma {:induction false} ReportMany(l: Live, n: nat)
    requires n <= |l.pending|
    ensures CanMoveAll(l, ReportMoves(n)) && Told(l, ReportMoves(n)) == l.pending[..n] && CallsIn(ReportMoves(n)) == []
    ensures var t := MovedAll(l, ReportMoves(n));
            && t.state == l.state && t.pending == l.pending[n..] && t.joining == l.joining
            && t.watching == NotifyAll(l.watching, l.pending[..n])
  {
    if n == 0 {
      NotifyNothing(l.watching);
    } else {
      hide Moved, CanMove, NotifyAll;
      assert ReportMoves(n)[..n - 1] == ReportMoves(n - 1) && ReportMoves(n)[n - 1] == Report;
      ReportMany(l, n - 1);
      var mid := MovedAll(l, ReportMoves(n - 1));
      assert mid.pending[0] == l.pending[n - 1] && mid.pending[1..] == l.pending[n..];
      assert l.pending[..n] == l.pending[..n - 1] + [l.pending[n - 1]];
      OneReport(mid);
      NotifyTwice(l.watching, l.pending[..n - 1], [l.pending[n - 1]]);
    }
  }

  lemma OneReport(l: Live)
    requires l.pending != []
    ensures CanMove(l, Report)
    ensures var t := Moved(l, Report);
            && t.state == l.state && t.pending == l.pending[1..] && t.joining == l.joining
            && t.watching == NotifyAll(l.watching, [l.pending[0]])
  {
    hide NotifyAll;
  }

  /** A watcher without a snapshot that enters the table while a change in its range is still to be reported
      hears of it under the very revision of its created response. */
  lemma SameRevisionHeard(l: Live, req: WatchRequest)
    requires Sane(l) && l.pending != [] && req.startRevision <= 0
    requires KeyInRange(l.pending[0].key, req.key, req.rangeEnd)
    ensures var r, live := Registration(l, req, [], []), ReportMoves(|l.pending|);
            && Settled(r, live) && Heard(r, live) != []
            && Heard(r, live)[0].revision == Since(r)
  {
    hide Sane;
    var r, live := Registration(l, req, [], []), ReportMoves(|l.pending|);
    assert AtEntry(r) == Moved(l, Open(req));
    assert CanRegister(r);
    ReportMany(Entered(r), |l.pending|);
    assert l.pending[..|l.pending|] == l.pending;
    assert Entered(r).pending == l.pending && Entered(r).state == l.state;
    HeardPending(WatcherOf(r), l.pending);
    PendingHeard(WatcherOf(r), l);
  }
}
