/**
 * The log stream as its clients see it, told from the events: who is subscribed,
 * exactly which ids a newcomer is sent, when it is sent ids older than itself,
 * and that a notified id arrives in its log.
 */
module LogListeners {
  import opened Bytes
  import opened Histories
  import opened LogHub

  // --- Who listens, told from the events -----------------------------------

  /** The socket joined after it was opened, and has not left since. */
  predicate Subscribed(es: seq<Event>, ws: Socket) { JoinedSince(es, Opens(ws), Joins(ws), Leaves(ws)) }

  /** The socket was opened, and has not closed since; a send that fails closes it too. */
  predicate StillOpen(es: seq<Event>, ws: Socket) { OpenSince(es, Opens(ws), Closes(ws)) }

  /** Over every run, the hub's subscribers are those that the events tell, and no other socket is open. */
  lemma {:induction false} ListenersAsTold(es: seq<Event>, debounce: nat, ws: Socket)
    ensures var w := Run(START, es, debounce);
      && (ws in w.logs <==> Opens(ws) in es)
      && (ws in w.hub.subscribers <==> Subscribed(es, ws))
      && (ws in w.open ==> StillOpen(es, ws))
      && ((forall i :: 0 <= i < |es| && es[i].Sends? ==> ws !in es[i].cut) ==> (ws in w.open <==> StillOpen(es, ws)))
  {
    if es != [] {
      var front, e := es[..|es| - 1], es[|es| - 1];
      ListenersAsTold(front, debounce, ws);
      assert front + [e] == es;
      JoinedStep(front, e, Opens(ws), Joins(ws), Leaves(ws));
      OpenStep(front, e, Opens(ws), Closes(ws));
      ListenersStep(Run(START, front, debounce), e, debounce, ws);
    }
  }

  lemma ListenersStep(w: World, e: Event, debounce: nat, ws: Socket)
    ensures var n := Step(w, e, debounce);
      && (ws in n.logs <==> ws in w.logs || e == Opens(ws))
      && (ws in n.hub.subscribers <==> e != Leaves(ws) && (ws in w.hub.subscribers || (e == Joins(ws) && ws in w.logs)))
      && (ws in n.open ==> if e == Opens(ws) && ws !in w.logs then true else e != Closes(ws) && ws in w.open)
      && (!(e.Sends? && ws in e.cut) ==>
            (ws in n.open <==> if e == Opens(ws) && ws !in w.logs then true else e != Closes(ws) && ws in w.open))
  {
  }

  // --- Rows that become visible in id order --------------------------------

  lemma {:induction false} InsertLast(rows: seq<int>, id: int)
    requires forall x :: x in rows ==> x < id
    ensures Insert(rows, id) == rows + [id]
  {
    if rows != [] {
      HeadTail(rows);
      assert rows[0] in rows;
      forall x | x in rows[1..] ensures x < id { assert x in rows; }
      InsertLast(rows[1..], id);
    }
  }

  lemma SegmentGrows(b: seq<int>, rows: seq<int>, id: int, k: nat)
    requires SegmentAt(b, rows, k)
    ensures SegmentAt(b, rows + [id], k)
  {
  }

  lemma {:induction false} UpToGrows(rows: seq<int>, id: int, mark: int)
    requires UpTo(rows, mark) < |rows|
    ensures UpTo(rows + [id], mark) == UpTo(rows, mark)
  {
    assert (rows + [id])[0] == rows[0];
    if rows[0] <= mark {
      assert (rows + [id])[1..] == rows[1..] + [id];
      UpToGrows(rows[1..], id, mark);
    }
  }

  lemma FollowsGrows(rows: seq<int>, id: int, mark: int, b: seq<int>)
    requires Ascending(rows) && Follows(rows, mark, b) && b != [] && (forall x :: x in rows ==> x < id)
    ensures Follows(Insert(rows, id), mark, b)
  {
    InsertLast(rows, id);
    UpToGrows(rows, id, mark);
    SegmentGrows(b, rows, id, UpTo(rows, mark));
  }

  /** A slice that follows the mark holds exactly the stored ids above it, up to its own last. */
  lemma SliceHolds(rows: seq<int>, mark: int, b: seq<int>, x: int)
    requires Ascending(rows) && Follows(rows, mark, b) && b != []
    ensures x in b <==> x in rows && mark < x <= b[|b| - 1]
    ensures mark < b[|b| - 1] && b[|b| - 1] in rows
  {
    var k := UpTo(rows, mark);
    UpToSplits(rows, mark);
    assert b[|b| - 1] == rows[k + |b| - 1];
    if x in b {
      var i :| 0 <= i < |b| && b[i] == x;
      assert rows[k + i] == x;
    }
    if x in rows && mark < x <= b[|b| - 1] {
      var j :| 0 <= j < |rows| && rows[j] == x;
      assert k <= j < k + |b|;
      assert b[j - k] == x;
    }
  }

  // --- What a newcomer is sent ---------------------------------------------

  /** The baseline: the largest id that the last read of it saw, which is the mark a push starts from. */
  function BaseStep(base: Option<int>, w: World, e: Event): Option<int> {
    if Enabled(w, e) && ((e.BaselineReturns? && w.hub.lastPushed.None?) || e.MaxReturns?)
    then Some(MaxId(w.rows[..e.k])) else base
  }

  function Base(base: Option<int>, w: World, es: seq<Event>, debounce: nat): Option<int> {
    if es == [] then base
    else
      var front := es[..|es| - 1];
      BaseStep(Base(base, w, front, debounce), Run(w, front, debounce), es[|es| - 1])
  }

  /** Where the push in flight is, from a newcomer's point of view. */
  predicate PhaseFits(w: World, base: Option<int>) {
    match w.phase
    case NoPush => true
    case Done => true
    case Baselining => w.hub.lastPushed == base
    case Querying(m) => w.hub.lastPushed == Some(m)
    case Decoding(m, b) => w.hub.lastPushed == Some(m) && b != [] && Follows(w.rows, m, b)
  }

  predicate MarkFits(w: World, base: Option<int>) {
    && (base.None? <==> w.hub.lastPushed.None?)
    && (base.Some? ==> base.value <= w.hub.lastPushed.value)
    && (base.Some? && base.value < w.hub.lastPushed.value ==> w.hub.lastPushed.value in w.rows && !w.phase.Baselining?)
  }

  /** The log holds exactly the stored ids above the baseline and up to the mark. */
  ghost predicate LogFits(log: seq<int>, rows: seq<int>, base: Option<int>, mark: Option<int>, open: bool) {
    if base.None? || mark.None? then log == []
    else
      && (forall x :: x in log ==> base.value < x <= mark.value)
      && (open ==> forall x :: x in log <==> x in rows && base.value < x <= mark.value)
  }

  ghost predicate Newcomer(w: World, ws: Socket, base: Option<int>) {
    && ws in w.hub.subscribers && ws in w.logs && Ascending(w.rows)
    && PhaseFits(w, base) && MarkFits(w, base)
    && LogFits(w.logs[ws], w.rows, base, w.hub.lastPushed, ws in w.open)
  }

  lemma StoresKeeps(w: World, id: int, debounce: nat, ws: Socket, base: Option<int>)
    requires Newcomer(w, ws, base) && InIdOrder(w.rows, Stores(id))
    ensures Newcomer(Step(w, Stores(id), debounce), ws, base)
  {
    InsertKeeps(w.rows, id);
    if w.phase.Decoding? { FollowsGrows(w.rows, id, w.phase.mark, w.phase.slice); }
  }

  lemma SliceKeeps(w: World, k: nat, debounce: nat, ws: Socket, base: Option<int>)
    requires Newcomer(w, ws, base) && Enabled(w, SliceReturns(k))
    ensures Newcomer(Step(w, SliceReturns(k), debounce), ws, base)
  {
    SliceFollows(w.rows, k, w.phase.mark);
  }

  lemma SendsKeeps(w: World, cut: map<Socket, nat>, debounce: nat, ws: Socket, base: Option<int>)
    requires Newcomer(w, ws, base) && Enabled(w, Sends(cut))
    ensures Newcomer(Step(w, Sends(cut), debounce), ws, base)
  {
    var n, b, m := Step(w, Sends(cut), debounce), w.phase.slice, w.phase.mark;
    var part := if ws in Listening(w) then Portion(b, cut, ws) else [];
    assert n.logs[ws] == w.logs[ws] + part;
    SentFits(w.logs[ws], w.rows, base.value, m, b, part, ws in n.open);
    assert ws in n.open ==> ws in w.open && part == b;
  }

  lemma SentFits(log: seq<int>, rows: seq<int>, base: int, mark: int, b: seq<int>, part: seq<int>, open: bool)
    requires Ascending(rows) && Follows(rows, mark, b) && b != [] && base <= mark && part <= b
    requires LogFits(log, rows, Some(base), Some(mark), open) && (open ==> part == b)
    ensures LogFits(log + part, rows, Some(base), Some(b[|b| - 1]), open)
    ensures base < b[|b| - 1] && b[|b| - 1] in rows
  {
    forall x | x in part ensures base < x <= b[|b| - 1] {
      assert x in b;
      SliceHolds(rows, mark, b, x);
    }
    SliceHolds(rows, mark, b, mark);
    if open {
      forall x ensures x in log + part <==> x in rows && base < x <= b[|b| - 1] { SliceHolds(rows, mark, b, x); }
    }
  }

  /** Steps that store, read or send nothing. */
  lemma OtherKeeps(w: World, e: Event, debounce: nat, ws: Socket, base: Option<int>)
    requires Newcomer(w, ws, base) && Serial(w) && e != Leaves(ws)
    requires !e.Stores? && !e.SliceReturns? && !e.Sends? && !e.BaselineReturns? && !e.MaxReturns?
    ensures Newcomer(Step(w, e, debounce), ws, base)
  {
  }

  lemma BaselineKeeps(w: World, e: Event, debounce: nat, ws: Socket, base: Option<int>)
    requires Newcomer(w, ws, base) && Enabled(w, e) && (e.BaselineReturns? || e.MaxReturns?)
    ensures Newcomer(Step(w, e, debounce), ws, BaseStep(base, w, e))
  {
    var log := w.logs[ws];
    if e.MaxReturns? && log != [] { assert log[0] in log; }
  }

  lemma NewcomerStep(w: World, e: Event, debounce: nat, ws: Socket, base: Option<int>)
    requires Newcomer(w, ws, base) && Serial(w) && e != Leaves(ws) && InIdOrder(w.rows, e)
    ensures Newcomer(Step(w, e, debounce), ws, BaseStep(base, w, e)) && Serial(Step(w, e, debounce))
  {
    SerialStep(w, e, debounce);
    if Enabled(w, e) {
      match e
      case Stores(id) => StoresKeeps(w, id, debounce, ws, base);
      case SliceReturns(k) => SliceKeeps(w, k, debounce, ws, base);
      case Sends(cut) => SendsKeeps(w, cut, debounce, ws, base);
      case BaselineReturns(_) => BaselineKeeps(w, e, debounce, ws, base);
      case MaxReturns(_) => BaselineKeeps(w, e, debounce, ws, base);
      case _ => OtherKeeps(w, e, debounce, ws, base);
    }
  }

  lemma {:induction false} NewcomerRun(w: World, es: seq<Event>, debounce: nat, ws: Socket, base: Option<int>)
    requires Newcomer(w, ws, base) && Serial(w) && Leaves(ws) !in es && RowsInOrder(w, es, debounce)
    ensures Newcomer(Run(w, es, debounce), ws, Base(base, w, es, debounce)) && Serial(Run(w, es, debounce))
  {
    if es != [] {
      var front := es[..|es| - 1];
      forall i | 0 <= i < |front| ensures InIdOrder(Run(w, front[..i], debounce).rows, front[i]) {
        assert front[..i] == es[..i] && front[i] == es[i];
      }
      NewcomerRun(w, front, debounce, ws, base);
      assert InIdOrder(Run(w, es[..|es| - 1], debounce).rows, es[|es| - 1]);
      NewcomerStep(Run(w, front, debounce), es[|es| - 1], debounce, ws, Base(base, w, front, debounce));
    }
  }

  /** Nobody is subscribed and no push is in flight. */
  predicate Deserted(w: World) { w.hub.subscribers == {} && w.phase == NoPush }

  /**
   * A socket that joins a deserted device and does not leave is sent, while it is open, exactly the ids stored above
   * its baseline and up to the mark, and nothing before there is a baseline. The baseline is the largest id that the
   * read of it saw; only a mark that was there before the socket joined stands in for such a read.
   */
  lemma NewcomerExact(w: World, ws: Socket, es: seq<Event>, debounce: nat)
    requires Deserted(w) && Serial(w) && Ascending(w.rows) && ws in w.logs
    requires Leaves(ws) !in es && RowsInOrder(Step(w, Joins(ws), debounce), es, debounce)
    ensures var n := Run(Step(w, Joins(ws), debounce), es, debounce);
      var base := Base(w.hub.lastPushed, Step(w, Joins(ws), debounce), es, debounce);
      && ws in n.logs && (base.None? ==> n.logs[ws] == [] && n.hub.lastPushed.None?)
      && (base.Some? ==>
            && n.hub.lastPushed.Some? && (forall x :: x in n.logs[ws] ==> base.value < x)
            && (ws in n.open ==>
                  forall x :: x in n.logs[ws] <==> x in n.rows && base.value < x <= n.hub.lastPushed.value))
  {
    var joined := Step(w, Joins(ws), debounce);
    assert Newcomer(joined, ws, w.hub.lastPushed);
    NewcomerRun(joined, es, debounce, ws, w.hub.lastPushed);
  }

  // --- When a newcomer is sent ids older than itself -----------------------

  /** Rows only ever get more, at the end. */
  lemma {:induction false} RowsGrow(w: World, es: seq<Event>, debounce: nat)
    requires Ascending(w.rows) && RowsInOrder(w, es, debounce)
    ensures w.rows <= Run(w, es, debounce).rows && Ascending(Run(w, es, debounce).rows)
  {
    if es != [] {
      var front, e := es[..|es| - 1], es[|es| - 1];
      forall i | 0 <= i < |front| ensures InIdOrder(Run(w, front[..i], debounce).rows, front[i]) {
        assert front[..i] == es[..i] && front[i] == es[i];
      }
      RowsGrow(w, front, debounce);
      assert InIdOrder(Run(w, es[..|es| - 1], debounce).rows, e);
      var before := Run(w, front, debounce);
      RowsStep(before, e, debounce);
      if e.Stores? { InsertLast(before.rows, e.id); }
    }
  }

  /** Baseline reads that begin after the join see everything stored before it. */
  predicate ReadsSee(es: seq<Event>, n: nat) {
    forall i :: 0 <= i < |es| && (es[i].BaselineReturns? || es[i].MaxReturns?) ==> es[i].k >= n
  }

  lemma {:induction false} BaseAbove(w: World, es: seq<Event>, debounce: nat, base: Option<int>, x: int)
    requires Ascending(w.rows) && RowsInOrder(w, es, debounce) && ReadsSee(es, |w.rows|) && x in w.rows
    requires base.Some? ==> x <= base.value
    ensures Base(base, w, es, debounce).Some? ==> x <= Base(base, w, es, debounce).value
  {
    if es != [] {
      var front, e := es[..|es| - 1], es[|es| - 1];
      forall i | 0 <= i < |front| ensures InIdOrder(Run(w, front[..i], debounce).rows, front[i]) {
        assert front[..i] == es[..i] && front[i] == es[i];
      }
      BaseAbove(w, front, debounce, base, x);
      RowsGrow(w, front, debounce);
      var rows := Run(w, front, debounce).rows;
      if Enabled(Run(w, front, debounce), e) && (e.BaselineReturns? || e.MaxReturns?) {
        assert e.k >= |w.rows|;
        var i :| 0 <= i < |w.rows| && w.rows[i] == x;
        assert rows[..e.k][i] == x;
        AscendingMax(rows[..e.k], x);
      }
    }
  }

  /** In some run after it joined, the socket is sent an id that was stored before. */
  ghost predicate MayReplay(w: World, ws: Socket) {
    exists es: seq<Event>, debounce: nat :: Replays(w, ws, es, debounce)
  }

  ghost predicate Replays(w: World, ws: Socket, es: seq<Event>, debounce: nat) {
    var joined := Step(w, Joins(ws), debounce);
    && Leaves(ws) !in es && RowsInOrder(joined, es, debounce) && ReadsSee(es, |w.rows|)
    && ws in Run(joined, es, debounce).logs && exists x :: x in w.rows && x in Run(joined, es, debounce).logs[ws]
  }

  lemma NoReplayAbove(w: World, ws: Socket, es: seq<Event>, debounce: nat)
    requires Deserted(w) && Serial(w) && Ascending(w.rows) && ws in w.logs
    requires w.hub.lastPushed.Some? ==> forall x :: x in w.rows ==> x <= w.hub.lastPushed.value
    ensures !Replays(w, ws, es, debounce)
  {
    if Replays(w, ws, es, debounce) {
      var joined := Step(w, Joins(ws), debounce);
      var x :| x in w.rows && x in Run(joined, es, debounce).logs[ws];
      NewcomerExact(w, ws, es, debounce);
      BaseAbove(joined, es, debounce, w.hub.lastPushed, x);
      assert false;
    }
  }

  /** A mark left below stored ids: the newcomer's first push sends it the first of them. */
  lemma LeftMarkReplays(w: World, ws: Socket, x: int)
    requires Deserted(w) && Serial(w) && Ascending(w.rows) && ws in w.logs && ws in w.open
    requires !w.hub.flushAgain && w.hub.timer.None? && w.hub.since.None?
    requires w.hub.lastPushed.Some? && x in w.rows && w.hub.lastPushed.value < x
    ensures MayReplay(w, ws)
  {
    var m := w.hub.lastPushed.value;
    var es: seq<Event> := [Notifies, TimerFires] + [SliceReturns(|w.rows|), Sends(map[])];
    var a := Step(w, Joins(ws), 0);
    RunJoin(a, [Notifies, TimerFires], [SliceReturns(|w.rows|), Sends(map[])], 0);
    RunTwo(a, Notifies, TimerFires, 0);
    var b := Step(Step(a, Notifies, 0), TimerFires, 0);
    PushBegins(a, 0);
    RunTwo(b, SliceReturns(|w.rows|), Sends(map[]), 0);
    var slice := Slice(w.rows, m);
    assert w.rows[..|w.rows|] == w.rows;
    SliceReaches(w.rows, m, x);
    SliceFollows(w.rows, |w.rows|, m);
    var c := Step(b, SliceReturns(|w.rows|), 0);
    Sending(c, ws, 0);
    SliceHolds(w.rows, m, slice, slice[0]);
    assert slice[0] in Run(a, es, 0).logs[ws];
    assert Replays(w, ws, es, 0);
  }

  lemma PushBegins(w: World, debounce: nat)
    requires w.hub.subscribers != {} && w.hub.timer.None? && w.hub.since.None? && w.hub.lastPushed.Some?
    requires !w.hub.flushing && w.phase == NoPush
    ensures var n := Step(Step(w, Notifies, 0), TimerFires, 0);
      && n.phase == Querying(w.hub.lastPushed.value) && n.rows == w.rows && n.logs == w.logs && n.open == w.open
      && n.hub.subscribers == w.hub.subscribers
  {
  }

  /** With nobody subscribed and no push in flight, nothing is scheduled. */
  predicate Settled(w: World) {
    && (w.hub.subscribers == {} ==> w.hub.timer.None?)
    && (w.hub.timer.None? ==> w.hub.since.None?)
    && (w.hub.flushAgain ==> w.hub.flushing)
  }

  lemma SettledStep(w: World, e: Event, debounce: nat)
    requires Settled(w) && Serial(w)
    ensures Settled(Step(w, e, debounce)) && Serial(Step(w, e, debounce))
  {
  }

  lemma {:induction false} RunSettled(es: seq<Event>, debounce: nat)
    ensures Settled(Run(START, es, debounce)) && Serial(Run(START, es, debounce))
  {
    if es != [] {
      RunSettled(es[..|es| - 1], debounce);
      SettledStep(Run(START, es[..|es| - 1], debounce), es[|es| - 1], debounce);
    }
  }

  /**
   * Whether a newcomer to a deserted device can be sent ids older than itself: exactly if a mark was left behind and
   * some stored id is above it.
   */
  lemma {:induction false} ReplayExact(es: seq<Event>, debounce: nat, ws: Socket)
    requires RowsInOrder(START, es, debounce)
    requires var w := Run(START, es, debounce); Deserted(w) && ws in w.logs && ws in w.open
    ensures var w := Run(START, es, debounce);
      MayReplay(w, ws) <==> w.hub.lastPushed.Some? && exists x :: x in w.rows && w.hub.lastPushed.value < x
  {
    var w := Run(START, es, debounce);
    RunSettled(es, debounce);
    RowsGrow(START, es, debounce);
    if w.hub.lastPushed.Some? && exists x :: x in w.rows && w.hub.lastPushed.value < x {
      var x :| x in w.rows && w.hub.lastPushed.value < x;
      LeftMarkReplays(w, ws, x);
    } else {
      forall more: seq<Event>, d: nat ensures !Replays(w, ws, more, d) { NoReplayAbove(w, ws, more, d); }
    }
  }

  /** A read of the baseline that comes back when nobody is subscribed. */
  predicate Orphaned(w: World, e: Event) {
    Enabled(w, e) && (e.BaselineReturns? || e.MaxReturns?) && w.hub.subscribers == {}
  }

  lemma OrphanStep(w: World, e: Event, debounce: nat)
    requires var n := Step(w, e, debounce); n.hub.subscribers == {} && n.hub.lastPushed.Some?
    ensures Orphaned(w, e) || (w.hub.subscribers == {} && w.hub.lastPushed.Some?)
  {
  }

  /** Only a baseline read that outlives its subscribers leaves a mark behind: leaving takes the mark with it. */
  lemma {:induction false} MarkLeftByOrphan(es: seq<Event>, debounce: nat) returns (i: nat)
    requires var w := Run(START, es, debounce); w.hub.subscribers == {} && w.hub.lastPushed.Some?
    ensures i < |es| && Orphaned(Run(START, es[..i], debounce), es[i])
  {
    var front, e := es[..|es| - 1], es[|es| - 1];
    OrphanStep(Run(START, front, debounce), e, debounce);
    if Orphaned(Run(START, front, debounce), e) {
      i := |es| - 1;
    } else {
      i := MarkLeftByOrphan(front, debounce);
      assert front[..i] == es[..i];
    }
  }

  /**
   * In every run without such a read, a socket that joins a deserted device is never sent an id stored before it
   * joined, whatever happens until it leaves.
   */
  lemma {:induction false} NoReplay(es: seq<Event>, debounce: nat, ws: Socket, more: seq<Event>, x: int)
    requires RowsInOrder(START, es, debounce) && Deserted(Run(START, es, debounce)) && Opens(ws) in es
    requires forall i :: 0 <= i < |es| ==> !Orphaned(Run(START, es[..i], debounce), es[i])
    requires var joined := Step(Run(START, es, debounce), Joins(ws), debounce);
      Leaves(ws) !in more && RowsInOrder(joined, more, debounce) && ReadsSee(more, |joined.rows|)
    requires x in Run(START, es, debounce).rows
    ensures var n := Run(Step(Run(START, es, debounce), Joins(ws), debounce), more, debounce);
      ws in n.logs && x !in n.logs[ws]
  {
    var w := Run(START, es, debounce);
    RunSettled(es, debounce);
    RowsGrow(START, es, debounce);
    ListenersAsTold(es, debounce, ws);
    if w.hub.lastPushed.Some? { var i := MarkLeftByOrphan(es, debounce); }
    NewcomerExact(w, ws, more, debounce);
    NoReplayAbove(w, ws, more, debounce);
  }

  const ORPHAN: seq<Event> := [Opens(0), Joins(0)] + ([Leaves(0), BaselineReturns(0)] + [Stores(5), Opens(1)])

  /** A subscriber leaves before its baseline comes back; the next one can be sent what was stored in between. */
  lemma OrphanRun()
    ensures var w := Run(START, ORPHAN, 0); Deserted(w) && w.rows == [5] && MayReplay(w, 1)
  {
    RunJoin(START, [Opens(0), Joins(0)], [Leaves(0), BaselineReturns(0)] + [Stores(5), Opens(1)], 0);
    RunTwo(START, Opens(0), Joins(0), 0);
    var a := Run(START, [Opens(0), Joins(0)], 0);
    RunJoin(a, [Leaves(0), BaselineReturns(0)], [Stores(5), Opens(1)], 0);
    RunTwo(a, Leaves(0), BaselineReturns(0), 0);
    var b := Run(a, [Leaves(0), BaselineReturns(0)], 0);
    RunTwo(b, Stores(5), Opens(1), 0);
    assert b.hub.lastPushed == Some(0) && b.rows == [] && Insert([], 5) == [5];
    var w := Run(START, ORPHAN, 0);
    assert 5 in w.rows;
    LeftMarkReplays(w, 1, 5);
  }

  // --- A notified id arrives -----------------------------------------------

  lemma {:induction false} FollowIsRun(t: Track, es: seq<Event>, debounce: nat)
    ensures FollowAll(t, es, debounce).w == Run(t.w, es, debounce)
  {
    if es != [] { FollowIsRun(t, es[..|es| - 1], debounce); }
  }

  lemma RowsInOrderPrefix(w: World, es: seq<Event>, fs: seq<Event>, debounce: nat)
    requires RowsInOrder(w, es + fs, debounce)
    ensures RowsInOrder(w, es, debounce) && RowsInOrder(Run(w, es, debounce), fs, debounce)
  {
    var all := es + fs;
    forall i | 0 <= i < |es| ensures InIdOrder(Run(w, es[..i], debounce).rows, es[i]) {
      assert all[..i] == es[..i] && all[i] == es[i];
    }
    forall i | 0 <= i < |fs| ensures InIdOrder(Run(Run(w, es, debounce), fs[..i], debounce).rows, fs[i]) {
      assert all[..|es| + i] == es + fs[..i] && all[|es| + i] == fs[i];
      RunJoin(w, es, fs[..i], debounce);
    }
  }

  /**
   * An id that is stored, is above the newcomer's baseline and is then notified is in the newcomer's log once the hub
   * is at rest, if the socket is still open and reads after the notification succeed and see the id.
   */
  lemma {:induction false} NotifiedArrives(w: World, ws: Socket, es: seq<Event>, more: seq<Event>, debounce: nat,
      x: int)
    requires Deserted(w) && Serial(w) && Ascending(w.rows) && ws in w.logs && Leaves(ws) !in es && Leaves(ws) !in more
    requires RowsInOrder(Step(w, Joins(ws), debounce), es + ([Notifies] + more), debounce)
    requires var told := Run(Step(w, Joins(ws), debounce), es, debounce);
      && x in told.rows && told.hub.subscribers != {}
      && FairRun(Track(Step(told, Notifies, debounce), told.phase != NoPush), more, debounce, x)
    requires var joined, all := Step(w, Joins(ws), debounce), es + ([Notifies] + more);
      var n, base := Run(joined, all, debounce), Base(w.hub.lastPushed, joined, all, debounce);
      && n.hub.timer.None? && n.phase == NoPush && !n.hub.flushAgain && ws in n.open
      && base.Some? && base.value < x
    ensures var n := Run(Step(w, Joins(ws), debounce), es + ([Notifies] + more), debounce);
      ws in n.logs && x in n.logs[ws]
  {
    var joined, all := Step(w, Joins(ws), debounce), es + ([Notifies] + more);
    var told := Run(joined, es, debounce);
    RowsInOrderPrefix(joined, es, [Notifies] + more, debounce);
    RunJoin(joined, es, [Notifies] + more, debounce);
    RunFirst(told, Notifies, more, debounce);
    RowsGrow(joined, es, debounce);
    RowsGrow(told, [Notifies] + more, debounce);
    assert Newcomer(joined, ws, w.hub.lastPushed);
    NewcomerRun(joined, es, debounce, ws, w.hub.lastPushed);
    NoLostNotification(told, more, debounce, x);
    FollowIsRun(Track(Step(told, Notifies, debounce), told.phase != NoPush), more, debounce);
    NewcomerExact(w, ws, all, debounce);
  }

  // --- When a push is due --------------------------------------------------

  /** A notification arms the timer one debounce ahead; a batch keeps its start until it is flushed. */
  lemma ScheduleDue(s: DeviceState, now: int, debounce: nat)
    requires s.subscribers != {}
    ensures var t := Schedule(s, now, debounce);
      && t.timer == Some(now + debounce)
      && (s.timer.Some? && s.since.Some? && now - s.since.value < 500 ==>
        t.since == s.since && t.flushing == s.flushing)
      && (s.timer.None? ==> t.since == Some(now) && t.flushing == s.flushing)
      && (s.timer.Some? && s.since.Some? && now - s.since.value >= 500 ==>
            t.since == Some(now) && t.flushing && (s.flushing ==> t.flushAgain))
  {
  }
}
