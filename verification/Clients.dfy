/** What a client holds that applies every event of its stream. */
module Clients {
  import opened Collections
  import opened Bytes
  import opened Engine
  import opened History
  import opened Watch
  import opened Registration

  // However its registration fell among the calls of others, and whatever is called afterwards.

  lemma TrueReportShows(w: Watcher, n: Notice, s: State, m: Mirror, key: Bytes)
    requires w.active && KeyInRange(key, w.key, w.rangeEnd) && StillTrue(n, s)
    ensures Held(if Receives(w, n) then ReplayEvent(m, Respond(w, n).events[0]) else m, key)
            == if n.key == key then Stored(s.data, key) else Held(m, key)
  {
    hide KeyInRange, WellDated;
  }

  lemma ReportedSnoc(ns: seq<Notice>, n: Notice, key: Bytes)
    ensures Reported(ns + [n], key) <==> Reported(ns, key) || n.key == key
  {
    ReportedAppend(ns, [n], key);
    assert Reported([n], key) <==> n.key == key by {
      assert [n][0] == n;
    }
  }

  /** Reports that are true of the store bring the client's record of each key they name in line. */
  lemma {:induction false} TrueReportsReplay(w: Watcher, ns: seq<Notice>, s: State, m: Mirror, key: Bytes)
    requires w.active && KeyInRange(key, w.key, w.rangeEnd)
    requires forall i | 0 <= i < |ns| :: StillTrue(ns[i], s)
    ensures Held(Replay(m, Deliver(w, ns)), key)
            == if Reported(ns, key) then Stored(s.data, key) else Held(m, key)
  {
    if ns != [] {
      hide StillTrue, Receives, Respond, ReplayEvent, Reported, Replay, Deliver, KeyInRange, Held, Stored;
      var init, last := ns[..|ns| - 1], ns[|ns| - 1];
      assert forall i | 0 <= i < |init| :: init[i] == ns[i];
      TrueReportsReplay(w, init, s, m, key);
      ReplayLast(w, ns, m);
      assert ns == init + [last];
      ReportedSnoc(init, last, key);
      TrueReportShows(w, last, s, Replay(m, Deliver(w, init)), key);
    }
  }

  /** Reports still to be made, then those of further calls. */
  lemma ReportsReplay(l: Live, ops: seq<Op>, w: Watcher, m: Mirror, key: Bytes)
    requires Sane(l) && ValidRun(l.state, ops) && w.active && KeyInRange(key, w.key, w.rangeEnd)
    ensures var j := LastReport(l.state, ops, key);
            && j <= |ops|
            && Held(Replay(m, Deliver(w, l.pending + AllNotices(l.state, ops))), key)
               == if j > 0 then Stored(Run(l.state, ops[..j]).data, key)
                  else if Reported(l.pending, key) then Stored(l.state.data, key)
                  else Held(m, key)
  {
    var more := AllNotices(l.state, ops);
    DeliverAppend(w, l.pending, more);
    ReplayAppend(m, Deliver(w, l.pending), Deliver(w, more));
    TrueReportsReplay(w, l.pending, l.state, m, key);
    RunReplays(l.state, ops, w, Replay(m, Deliver(w, l.pending)), key);
  }

  /** The store as the snapshot shows it. */
  ghost function ListedState(r: Registration): State
    requires CanRegister(r)
  {
    AtListing(r).state
  }

  /** From a registration that asked for a snapshot, through moves that leave nothing to report. */
  ghost predicate Followed(r: Registration, live: seq<Move>)
  {
    && CanRegister(r) && r.req.startRevision > 0
    && CanMoveAll(Entered(r), live) && Leave(IdOf(r)) !in live
    && MovedAll(Entered(r), live).pending == []
  }

  ghost function Final(r: Registration, live: seq<Move>): Live
    requires Followed(r, live)
  {
    MovedAll(Entered(r), live)
  }

  ghost function ToldTo(r: Registration, live: seq<Move>): seq<Notice>
    requires Followed(r, live)
  {
    Told(Entered(r), live)
  }

  /** What a client holds that has applied every event of its stream. */
  ghost function ClientOf(r: Registration, live: seq<Move>): Mirror
    requires Followed(r, live)
  {
    var sent := Final(r, live).watching.sent;
    if IdOf(r) in sent then Replay(map[], sent[IdOf(r)]) else map[]
  }

  lemma CreatedShowsNothing(w: Watcher, revision: int, rs: seq<WatchResponse>)
    ensures Replay(map[], [CreatedResponse(w, revision)] + rs) == Replay(map[], rs)
  {
    var created := CreatedResponse(w, revision);
    ReplayAppend(map[], [created], rs);
    assert [created][..0] == [];
    assert Replay(map[], [created]) == ReplayEvents(Replay(map[], []), []);
  }

  lemma OpeningShows(r: Registration)
    requires CanRegister(r) && r.req.startRevision > 0
    ensures WellFormed(ListedState(r))
    ensures Replay(map[], OpeningOf(r)) == View(ListedState(r).data, WatcherOf(r))
  {
    hide Replay, View, Snapshot, Moved, MovedAll, CanMove, CanMoveAll;
    Entering(r);
    CreatedShowsNothing(WatcherOf(r), r.start.state.revision, Snapshot(WatcherOf(r), AtListing(r).state.data));
    ReplaySnapshot(AtListing(r).state, WatcherOf(r));
  }

  /** The reports the watcher hears: those of the call under way when it entered the table that were still to
      be made, and those of the calls since. */
  lemma ToldIs(r: Registration, live: seq<Move>)
    requires Followed(r, live)
    ensures Sane(Entered(r)) && ValidRun(Entered(r).state, CallsIn(live))
    ensures ToldTo(r, live) == Entered(r).pending + AllNotices(Entered(r).state, CallsIn(live))
    ensures Final(r, live).state == Run(Entered(r).state, CallsIn(live))
  {
    hide CanRegister, Sane, Moved, MovedAll, CanMoveAll, Told, Run, ValidRun, AllNotices;
    Entering(r);
    FirstInFirstOut(Entered(r), live);
    assert ToldTo(r, live) + [] == ToldTo(r, live);
  }

  lemma ClientReplays(r: Registration, live: seq<Move>)
    requires Followed(r, live)
    ensures WellFormed(ListedState(r))
    ensures ClientOf(r, live)
            == Replay(View(ListedState(r).data, WatcherOf(r)), Deliver(WatcherOf(r), ToldTo(r, live)))
  {
    hide CanRegister, Sane, Moved, MovedAll, CanMoveAll, Told, OpeningOf, Replay, View, WellFormed, ListedState;
    StreamInSteps(r, live);
    OpeningShows(r);
    ReplayAppend(map[], OpeningOf(r), Deliver(WatcherOf(r), ToldTo(r, live)));
  }

  lemma ViewHolds(data: Data, w: Watcher, key: Bytes)
    ensures Held(View(data, w), key) == if KeyInRange(key, w.key, w.rangeEnd) then Stored(data, key) else None
  {
  }

  /** Where the client's record of a key comes from: the state, and the calls made since. It is the state
      after the last call begun since the entry that reported the key; or the state after the call under way
      at the entry, if that reported the key afterwards; or the snapshot. */
  ghost function KnownFrom(r: Registration, live: seq<Move>, key: Bytes): (State, seq<Op>)
    requires Followed(r, live) && ValidRun(Entered(r).state, CallsIn(live))
    requires LastReport(Entered(r).state, CallsIn(live), key) <= |CallsIn(live)|
  {
    var e, calls := Entered(r), CallsIn(live);
    var j := LastReport(e.state, calls, key);
    if j > 0 then (Run(e.state, calls[..j]), calls[j..])
    else if Reported(e.pending, key) then (e.state, calls)
    else (ListedState(r), CallsIn(r.late) + calls)
  }

  lemma RunInTwo(s: State, ops: seq<Op>, j: nat)
    requires WellFormed(s) && j <= |ops|
    ensures WellFormed(Run(s, ops[..j])) && Run(s, ops) == Run(Run(s, ops[..j]), ops[j..])
  {
    hide Run, WellFormed;
    RunWellFormed(s, ops[..j]);
    RunAppend(s, ops[..j], ops[j..]);
    assert ops[..j] + ops[j..] == ops;
  }

  lemma Known(r: Registration, live: seq<Move>, key: Bytes)
    requires Followed(r, live)
    ensures ValidRun(Entered(r).state, CallsIn(live))
    ensures LastReport(Entered(r).state, CallsIn(live), key) <= |CallsIn(live)|
    ensures var (known, since) := KnownFrom(r, live, key);
            WellFormed(known) && Final(r, live).state == Run(known, since)
  {
    hide Moved, MovedAll, CanMoveAll, Told, Run, Step, AllNotices, Reported, LastReport, Sane, CanRegister;
    hide Entered, ListedState, Final, WellFormed, ValidRun;
    ToldIs(r, live);
    OpeningShows(r);
    RunSince(r, live);
    SaneIsWellFormed(Entered(r));
    LastReportInRun(Entered(r).state, CallsIn(live), key);
    RunInTwo(Entered(r).state, CallsIn(live), LastReport(Entered(r).state, CallsIn(live), key));
  }

  lemma SaneIsWellFormed(l: Live)
    requires Sane(l)
    ensures WellFormed(l.state)
  {
  }

  lemma ClientHolds(r: Registration, live: seq<Move>, key: Bytes)
    requires Followed(r, live) && KeyInRange(key, r.req.key, r.req.rangeEnd)
    ensures ValidRun(Entered(r).state, CallsIn(live))
    ensures LastReport(Entered(r).state, CallsIn(live), key) <= |CallsIn(live)|
    ensures Held(ClientOf(r, live), key) == Stored(KnownFrom(r, live, key).0.data, key)
  {
    hide CanRegister, Moved, MovedAll, CanMoveAll, Told, Replay, Deliver, View, ListedState, ClientOf, Final, ToldTo;
    hide Run, LastReport, Reported, AllNotices, Sane;
    var w := WatcherOf(r);
    ClientReplays(r, live);
    ToldIs(r, live);
    ReportsReplay(Entered(r), CallsIn(live), w, View(ListedState(r).data, w), key);
    ViewHolds(ListedState(r).data, w, key);
  }

  /** Whatever comes between the three steps of a registration, between the reports of one Delete, and
      afterwards, transactions and expiring leases included: a key in range is right in the client's copy if
      and only if no call has written or cleared it since the state the client knows it from, or it was absent
      there and is now. */
  lemma KeyIsRightIff(r: Registration, live: seq<Move>, key: Bytes)
    requires Followed(r, live) && KeyInRange(key, r.req.key, r.req.rangeEnd)
    ensures ValidRun(Entered(r).state, CallsIn(live))
    ensures LastReport(Entered(r).state, CallsIn(live), key) <= |CallsIn(live)|
    ensures var now := Final(r, live).state;
            var (known, since) := KnownFrom(r, live, key);
            Held(ClientOf(r, live), key) == Stored(now.data, key)
            <==> !Touched(Log(known, since), key) || (key !in known.data && key !in now.data)
  {
    hide Followed, KnownFrom, ClientOf, Final, Run, Log, Touched, ValidRun, LastReport;
    ClientHolds(r, live, key);
    Known(r, live, key);
    var (known, since) := KnownFrom(r, live, key);
    StoredIsLookup(known, since, key);
    SameRecordIffUntouched(known, since, key);
  }

  /** When every call begun since the entry reports what it does: the key is right if and only if its record
      is the one of the snapshot, or a change to it was reported after the watcher entered the table. */
  lemma LoudKeyIsRightIff(r: Registration, live: seq<Move>, key: Bytes)
    requires Followed(r, live) && KeyInRange(key, r.req.key, r.req.rangeEnd)
    requires forall op | op in CallsIn(live) :: Loud(op)
    ensures var now, listed := Final(r, live).state.data, ListedState(r).data;
            Held(ClientOf(r, live), key) == Stored(now, key)
            <==> Stored(now, key) == Stored(listed, key) || Reported(ToldTo(r, live), key)
  {
    hide CanRegister, Moved, MovedAll, CanMoveAll, Told, Replay, Deliver, View, ListedState, ClientOf, Final, ToldTo;
    hide Run, LastReport, Reported, AllNotices, Sane, Loud;
    var e, calls := Entered(r), CallsIn(live);
    ClientHolds(r, live, key);
    ToldIs(r, live);
    SaneIsWellFormed(e);
    LoudRun(e.state, calls, key);
    ReportedAppend(e.pending, AllNotices(e.state, calls), key);
    LastReportIff(e.state, calls, key);
    assert calls[..0] == [];
    NothingRun(e.state);
  }

  lemma NothingRun(s: State)
    ensures Run(s, []) == s
  {
  }

  lemma RunSince(r: Registration, live: seq<Move>)
    requires Followed(r, live)
    ensures Final(r, live).state == Run(ListedState(r), CallsIn(r.late) + CallsIn(live))
  {
    hide Run, Step, Sane, Told, AllNotices, ValidRun;
    FirstInFirstOut(Listed(r), r.late);
    FirstInFirstOut(Entered(r), live);
    RunAppend(ListedState(r), CallsIn(r.late), CallsIn(live));
  }

  /** In terms of what was called: the record is the one of the snapshot if and only if no call begun since
      the snapshot wrote or cleared the key, or it was absent then and is now. */
  lemma SameAsListedIff(r: Registration, live: seq<Move>, key: Bytes)
    requires Followed(r, live)
    ensures var now, listed := Final(r, live).state.data, ListedState(r).data;
            Stored(now, key) == Stored(listed, key)
            <==> !Touched(Log(ListedState(r), CallsIn(r.late) + CallsIn(live)), key) || (key !in listed && key !in now)
  {
    hide Followed, Log, Touched, Run, ListedState, Final;
    OpeningShowsFor(r, live);
    RunSince(r, live);
    var ops := CallsIn(r.late) + CallsIn(live);
    StoredIsLookup(ListedState(r), ops, key);
    SameRecordIffUntouched(ListedState(r), ops, key);
  }

  lemma OpeningShowsFor(r: Registration, live: seq<Move>)
    requires Followed(r, live)
    ensures CanRegister(r) && WellFormed(ListedState(r))
  {
    OpeningShows(r);
  }

  lemma OutOfRange(r: Registration, live: seq<Move>, key: Bytes)
    requires Followed(r, live) && !KeyInRange(key, r.req.key, r.req.rangeEnd)
    ensures Held(ClientOf(r, live), key) == None
  {
    hide CanRegister, Moved, MovedAll, CanMoveAll, Told, Replay, Deliver, View, ListedState, ClientOf, Final, ToldTo;
    var w, s := WatcherOf(r), Entered(r).state;
    ClientReplays(r, live);
    ToldIs(r, live);
    AllNamed(s, CallsIn(live));
    assert Named(Entered(r).pending);
    ReplayInRange(w, ToldTo(r, live), View(ListedState(r).data, w), key);
    ViewHolds(ListedState(r).data, w, key);
  }

  /** The key has not been written or cleared since the state the client knows it from, or was absent there
      and is now. */
  ghost predicate UpToDate(r: Registration, live: seq<Move>, key: Bytes)
    requires Followed(r, live)
  {
    Known(r, live, key);
    var (known, since) := KnownFrom(r, live, key);
    !Touched(Log(known, since), key) || (key !in known.data && key !in Final(r, live).state.data)
  }

  /** So the client holds exactly its part of the store if and only if that is so of every key in range. */
  lemma ClientIsRightIff(r: Registration, live: seq<Move>)
    requires Followed(r, live)
    ensures ClientOf(r, live) == View(Final(r, live).state.data, WatcherOf(r))
            <==> forall key | KeyInRange(key, r.req.key, r.req.rangeEnd) :: UpToDate(r, live, key)
  {
    hide Followed, ClientOf, Final, ListedState, KnownFrom, View;
    OpeningShowsFor(r, live);
    var now, w := Final(r, live).state.data, WatcherOf(r);
    var client, view := ClientOf(r, live), View(now, w);
    forall key
      ensures Held(client, key) == Held(view, key)
              <==> (KeyInRange(key, r.req.key, r.req.rangeEnd) ==> UpToDate(r, live, key))
    {
      ViewHolds(now, w, key);
      if KeyInRange(key, r.req.key, r.req.rangeEnd) {
        KeyIsRightIff(r, live, key);
      } else {
        OutOfRange(r, live, key);
      }
    }
    if forall key :: Held(client, key) == Held(view, key) {
      SameMirror(client, view);
    }
  }

  // ----- A Delete seen halfway -----

  lemma {:induction false} CallFirst(l: Live, op: Op, moves: seq<Move>)
    requires CanMove(l, Call(op)) && CanMoveAll(Moved(l, Call(op)), moves)
    ensures CanMoveAll(l, [Call(op)] + moves)
    ensures MovedAll(l, [Call(op)] + moves) == MovedAll(Moved(l, Call(op)), moves)
  {
    var all := [Call(op)] + moves;
    if moves == [] {
      assert all == [Call(op)] && [Call(op)][..0] == [];
    } else {
      assert all[..|all| - 1] == [Call(op)] + moves[..|moves| - 1];
      CallFirst(l, op, moves[..|moves| - 1]);
    }
  }

  /** The watcher takes its snapshot, the Delete removes its keys and reports the first `cut` of them, the
      watcher enters the table, and the Delete reports the others. */
  function HalfSeen(l: Live, req: WatchRequest, op: Op, cut: nat): Registration
  {
    Registration(l, req, [], [Call(op)] + ReportMoves(cut))
  }

  lemma NoMoves(l: Live)
    ensures CanMoveAll(l, []) && MovedAll(l, []) == l
  {
  }

  lemma CallThenReports(l: Live, op: Op, cut: nat)
    requires l.pending == [] && op.Delete? && op.collect && ValidOp(l.state, op) && cut <= |op.order|
    ensures var moves := [Call(op)] + ReportMoves(cut);
            && CanMoveAll(l, moves)
            && var t := MovedAll(l, moves);
               && t.state == Step(l.state, op) && t.pending == Notices(l.state, op)[cut..] && t.joining == l.joining
  {
    hide Step;
    var called := Moved(l, Call(op));
    assert [] + Notices(l.state, op) == Notices(l.state, op);
    assert called.pending == Notices(l.state, op);
    ReportMany(called, cut);
    CallFirst(l, op, ReportMoves(cut));
  }

  /** Such a client is right about a key in its range if and only if the Delete had not reported the key when
      the watcher entered. So it is wrong about some of the keys of one Delete and right about others, as it
      would be neither if the whole Delete came before it entered (all reported: wrong about every key) nor
      if it came after (none reported: right about every key). */
  lemma HalfSeenDelete(l: Live, req: WatchRequest, op: Op, cut: nat, key: Bytes)
    requires Sane(l) && l.pending == [] && req.startRevision > 0
    requires op.Delete? && op.collect && ValidOp(l.state, op) && cut <= |op.order|
    requires KeyInRange(key, req.key, req.rangeEnd)
    ensures var r, live := HalfSeen(l, req, op, cut), ReportMoves(|op.order| - cut);
            && Followed(r, live)
            && (Held(ClientOf(r, live), key) == Stored(Final(r, live).state.data, key) <==> key !in op.order[..cut])
  {
    hide CanRegister, Moved, CanMove, Replay, ClientOf, WellFormed, KeyInRange, Reported, Step, Loud;
    var r, live := HalfSeen(l, req, op, cut), ReportMoves(|op.order| - cut);
    HalfSeenSteps(l, req, op, cut);
    ReportMany(Entered(r), |op.order| - cut);
    assert Followed(r, live);
    LoudKeyIsRightIff(r, live, key);
    var ns := Notices(l.state, op);
    assert ns[cut..][..|op.order| - cut] == ns[cut..];
    ReportedKeys(l.state, op, cut, key);
    assert ToldTo(r, live) == ns[cut..];
  }

  lemma ReportedKeys(s: State, op: Op, cut: nat, key: Bytes)
    requires WellFormed(s) && op.Delete? && op.collect && ValidOp(s, op) && cut <= |op.order|
    ensures Reported(Notices(s, op)[cut..], key) <==> key in op.order[cut..]
    ensures Stored(Step(s, op).data, key) == Stored(s.data, key) <==> key !in op.order
    ensures key in op.order <==> key in op.order[..cut] || key in op.order[cut..]
    ensures !(key in op.order[..cut] && key in op.order[cut..])
  {
    var ns := Notices(s, op);
    forall i | 0 <= i < |ns|
      ensures ns[i].key == op.order[i]
    {
      assert op.order[i] in op.order;
    }
    if key in op.order[cut..] {
      var i :| 0 <= i < |op.order[cut..]| && op.order[cut..][i] == key;
      assert ns[cut..][i].key == key;
    }
    assert op.order == op.order[..cut] + op.order[cut..];
  }

  lemma HalfSeenSteps(l: Live, req: WatchRequest, op: Op, cut: nat)
    requires Sane(l) && l.pending == [] && req.startRevision > 0
    requires op.Delete? && op.collect && ValidOp(l.state, op) && cut <= |op.order|
    ensures var r := HalfSeen(l, req, op, cut);
            && CanRegister(r) && ListedState(r) == l.state
            && Entered(r).state == Step(l.state, op) && Entered(r).pending == Notices(l.state, op)[cut..]
  {
    hide Step, WellFormed, Notices, MovedAll, CanMoveAll;
    var r := HalfSeen(l, req, op, cut);
    MoveKeepsSane(l, Open(req));
    NoMoves(Moved(l, Open(req)));
    var listed := Listed(r);
    CallThenReports(listed, op, cut);
  }
}
