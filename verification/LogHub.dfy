/**
 * The realtime log stream: a hub that sends each device's stored events above a
 * high-water mark to its subscribers, in slices, one flush at a time. Devices
 * do not share state apart from the connection count, so the protocol is stated
 * for one device and the hub is shown to run it for each.
 */
module LogHub {
  import opened Bytes

  type Device = nat
  type Socket = nat

  const MAX_WAIT_MS := 500
  const PUSH_BATCH_SIZE := 500

  // --- One device of the hub -----------------------------------------------

  datatype DeviceState = DeviceState(
    subscribers: set<Socket>,
    lastPushed: Option<int>,
    timer: Option<int>,
    since: Option<int>,
    flushing: bool,
    flushAgain: bool
  )

  const IDLE := DeviceState({}, None, None, None, false, false)

  /** A flush starts a push only if someone listens and none is in flight. */
  predicate FlushBegins(s: DeviceState) { s.subscribers != {} && !s.flushing }

  function Flush(s: DeviceState): DeviceState {
    var fired := s.(timer := None, since := None);
    if s.subscribers == {} then fired
    else if s.flushing then fired.(flushAgain := true)
    else fired.(flushing := true)
  }

  /** Whether a notification flushes at once: its batch has already waited long enough. */
  predicate Overdue(s: DeviceState, now: int) {
    s.subscribers != {} && s.timer.Some? && now - (if s.since.Some? then s.since.value else now) >= MAX_WAIT_MS
  }

  function Schedule(s: DeviceState, now: int, debounce: nat): DeviceState {
    if s.subscribers == {} then s
    else if s.timer.None? then s.(since := Some(now), timer := Some(now + debounce))
    else if Overdue(s, now) then Flush(s).(since := Some(now), timer := Some(now + debounce))
    else s.(timer := Some(now + debounce))
  }

  predicate ScheduleBegins(s: DeviceState, now: int) { Overdue(s, now) && FlushBegins(s) }

  /** The end of a push; `idle` is the state the follow-up is scheduled in. */
  function Idle(s: DeviceState): DeviceState { s.(flushing := false, flushAgain := false) }

  function Settle(s: DeviceState, now: int, debounce: nat): DeviceState {
    if s.flushAgain then Schedule(Idle(s), now, debounce) else Idle(s)
  }

  predicate SettleBegins(s: DeviceState, now: int) { s.flushAgain && ScheduleBegins(Idle(s), now) }

  function Unsubscribe(s: DeviceState, ws: Socket): DeviceState {
    var left := s.(subscribers := s.subscribers - {ws});
    if s.subscribers == {} || left.subscribers != {} then left
    else left.(lastPushed := None, timer := None, since := if s.timer.Some? then None else s.since)
  }

  /** Only that socket goes; with the last one the mark and the timer go too. */
  lemma UnsubscribeMeaning(s: DeviceState, ws: Socket)
    ensures var r := Unsubscribe(s, ws);
      && r.subscribers == s.subscribers - {ws} && r.flushing == s.flushing && r.flushAgain == s.flushAgain
      && (s.subscribers == {ws} ==> r.lastPushed.None? && r.timer.None?)
      && (s.subscribers != {ws} ==> r == s.(subscribers := s.subscribers - {ws}))
  {
  }

  // --- Stored events and slices --------------------------------------------

  predicate Ascending(rows: seq<int>) {
    forall i, j :: 0 <= i < j < |rows| ==> rows[i] < rows[j]
  }

  /** How many of the first ids are at or below the mark. */
  function UpTo(rows: seq<int>, mark: int): (k: nat)
    ensures k <= |rows|
  {
    if rows == [] || rows[0] > mark then 0 else 1 + UpTo(rows[1..], mark)
  }

  /** The query of one slice: the first ids above the mark. */
  function Slice(rows: seq<int>, mark: int): seq<int> {
    var above := rows[UpTo(rows, mark)..];
    if |above| > PUSH_BATCH_SIZE then above[..PUSH_BATCH_SIZE] else above
  }

  function MaxId(rows: seq<int>): int {
    if rows == [] then 0 else rows[|rows| - 1]
  }

  /** An id becoming visible takes its place in id order. */
  function Insert(rows: seq<int>, id: int): seq<int> {
    if rows == [] || id < rows[0] then [id] + rows
    else if id == rows[0] then rows
    else [rows[0]] + Insert(rows[1..], id)
  }

  // --- The device, its sockets and its stored events -----------------------

  /**
   * Where the push in flight is: asking for a baseline, querying a slice, decoding one, or done but not yet
   * settled.
   */
  datatype Phase = NoPush | Baselining | Querying(mark: int) | Decoding(mark: int, slice: seq<int>) | Done

  /**
   * `logs` holds what each socket was sent during its current subscription; `baselines` counts baseline queries of
   * subscribers in flight.
   */
  datatype World = World(
    hub: DeviceState,
    now: int,
    open: set<Socket>,
    logs: map<Socket, seq<int>>,
    rows: seq<int>,
    phase: Phase,
    baselines: nat
  )

  const START := World(IDLE, 0, {}, map[], [], NoPush, 0)

  /** A read's event is the moment that fixes what it saw: the first `k` of the rows visible then. */
  datatype Event =
    | Opens(ws: Socket)
    | Joins(ws: Socket)
    | Leaves(ws: Socket)
    | Closes(ws: Socket)
    | Stores(id: int)
    | Notifies
    | Waits(ms: nat)
    | TimerFires
    | BaselineReturns(k: nat)
    | BaselineFails
    | MaxReturns(k: nat)
    | SliceReturns(k: nat)
    | ReadFails
    | Sends(cut: map<Socket, nat>)
    | Settles

  predicate Enabled(w: World, e: Event) {
    match e
    case TimerFires => w.hub.timer.Some? && w.hub.timer.value <= w.now
    case BaselineReturns(k) => w.baselines > 0 && k <= |w.rows|
    case BaselineFails => w.baselines > 0
    case MaxReturns(k) => w.phase.Baselining? && k <= |w.rows|
    case SliceReturns(k) => w.phase.Querying? && k <= |w.rows|
    case ReadFails => w.phase.Baselining? || w.phase.Querying?
    case Sends(_) => w.phase.Decoding?
    case Settles => w.phase.Done?
    case _ => true
  }

  function Listening(w: World): set<Socket> { w.hub.subscribers * w.open }

  function PhaseFrom(lastPushed: Option<int>): Phase {
    if lastPushed.None? then Baselining else Querying(lastPushed.value)
  }

  /** What a socket gets of a slice: all of it, unless sending fails part way. */
  function Portion(slice: seq<int>, cut: map<Socket, nat>, ws: Socket): seq<int> {
    if ws in cut && cut[ws] < |slice| then slice[..cut[ws]] else slice
  }

  /** The sockets whose connection broke while the slice was sent to them. */
  function Broken(w: World, slice: seq<int>, cut: map<Socket, nat>): set<Socket> {
    set ws | ws in Listening(w) && Portion(slice, cut, ws) != slice
  }

  /** Sends the slice to every open subscriber and moves the mark past it, in one step. */
  function SendSlice(w: World, slice: seq<int>, cut: map<Socket, nat>): World
    requires slice != []
  {
    var mark := slice[|slice| - 1];
    World(
      w.hub.(lastPushed := Some(mark)),
      w.now,
      w.open - Broken(w, slice, cut),
      map ws | ws in w.logs :: if ws in Listening(w) then w.logs[ws] + Portion(slice, cut, ws) else w.logs[ws],
      w.rows,
      if |slice| < PUSH_BATCH_SIZE then Done else Querying(mark),
      w.baselines)
  }

  function Step(w: World, e: Event, debounce: nat): World {
    if !Enabled(w, e) then w
    else
      match e
      case Opens(ws) => if ws in w.logs then w else w.(open := w.open + {ws}, logs := w.logs[ws := []])
      case Joins(ws) =>
        if ws !in w.logs then w
        else
          w.(hub := w.hub.(subscribers := w.hub.subscribers + {ws}),
             logs := if ws in w.hub.subscribers then w.logs else w.logs[ws := []],
             baselines := if w.hub.lastPushed.Some? then w.baselines else w.baselines + 1)
      case Leaves(ws) => w.(hub := Unsubscribe(w.hub, ws))
      case Closes(ws) => w.(open := w.open - {ws})
      case Stores(id) => w.(rows := Insert(w.rows, id))
      case Notifies =>
        w.(hub := Schedule(w.hub, w.now, debounce),
           phase := if ScheduleBegins(w.hub, w.now) then PhaseFrom(w.hub.lastPushed) else w.phase)
      case Waits(ms) => w.(now := w.now + ms)
      case TimerFires =>
        w.(hub := Flush(w.hub), phase := if FlushBegins(w.hub) then PhaseFrom(w.hub.lastPushed) else w.phase)
      case BaselineReturns(k) =>
        var hub := if w.hub.lastPushed.Some? then w.hub else w.hub.(lastPushed := Some(MaxId(w.rows[..k])));
        w.(hub := hub, baselines := w.baselines - 1)
      case BaselineFails => w.(baselines := w.baselines - 1)
      case MaxReturns(k) =>
        var mark := MaxId(w.rows[..k]);
        w.(hub := w.hub.(lastPushed := Some(mark)), phase := Querying(mark))
      case SliceReturns(k) =>
        var slice := Slice(w.rows[..k], w.phase.mark);
        w.(phase := if slice == [] then Done else Decoding(w.phase.mark, slice))
      case ReadFails => w.(phase := Done)
      case Sends(cut) =>
        if w.hub.subscribers == {} || w.phase.slice == [] then w.(phase := Done) else SendSlice(w, w.phase.slice, cut)
      case Settles =>
        w.(hub := Settle(w.hub, w.now, debounce),
           phase := if SettleBegins(w.hub, w.now) then PhaseFrom(w.hub.lastPushed) else NoPush)
  }

  function Run(w: World, es: seq<Event>, debounce: nat): World {
    if es == [] then w else Step(Run(w, es[..|es| - 1], debounce), es[|es| - 1], debounce)
  }

  // --- Contiguity ----------------------------------------------------------

  predicate SegmentAt(log: seq<int>, rows: seq<int>, lo: nat) {
    lo + |log| <= |rows| && forall i :: 0 <= i < |log| ==> log[i] == rows[lo + i]
  }

  /** The log is a run of consecutive stored ids. */
  ghost predicate Segment(log: seq<int>, rows: seq<int>) {
    exists lo: nat :: SegmentAt(log, rows, lo)
  }

  /** A segment is strictly increasing and skips no stored id between two of its own. */
  lemma SegmentMeaning(log: seq<int>, rows: seq<int>)
    requires Ascending(rows) && Segment(log, rows)
    ensures Ascending(log)
    ensures forall i, j, x :: 0 <= i <= j < |log| && x in rows && log[i] <= x <= log[j] ==> x in log
  {
    var lo: nat :| SegmentAt(log, rows, lo);
    forall i, j, x | 0 <= i <= j < |log| && x in rows && log[i] <= x <= log[j] ensures x in log {
      var k :| 0 <= k < |rows| && rows[k] == x;
      assert log[i] == rows[lo + i] && log[j] == rows[lo + j];
      assert lo + i <= k <= lo + j;
      assert log[k - lo] == x;
    }
  }

  /** Slice `b` consists of the stored ids that come right after the mark. */
  predicate Follows(rows: seq<int>, mark: int, b: seq<int>) {
    SegmentAt(b, rows, UpTo(rows, mark))
  }

  lemma {:induction false} UpToSplits(rows: seq<int>, mark: int)
    requires Ascending(rows)
    ensures forall i :: 0 <= i < |rows| ==> (rows[i] <= mark <==> i < UpTo(rows, mark))
  {
    if rows != [] && rows[0] <= mark {
      UpToSplits(rows[1..], mark);
      forall i | 0 <= i < |rows| ensures rows[i] <= mark <==> i < UpTo(rows, mark) {
        if i > 0 { assert rows[i] == rows[1..][i - 1]; }
      }
    }
  }

  lemma UpToIs(rows: seq<int>, mark: int, k: nat)
    requires Ascending(rows) && k <= |rows|
    requires (k > 0 ==> rows[k - 1] <= mark) && (k < |rows| ==> mark < rows[k])
    ensures UpTo(rows, mark) == k
  {
    UpToSplits(rows, mark);
  }

  /** Sending what follows the mark extends a segment that ends at the mark. */
  lemma ExtendSegment(log: seq<int>, rows: seq<int>, mark: int, b: seq<int>, n: nat)
    requires Ascending(rows) && Segment(log, rows) && (log == [] || log[|log| - 1] == mark) &&
      Follows(rows, mark, b) && n <= |b|
    ensures Segment(log + b[..n], rows)
  {
    var k := UpTo(rows, mark);
    if log == [] {
      assert SegmentAt(log + b[..n], rows, k);
    } else {
      var lo: nat :| SegmentAt(log, rows, lo);
      UpToIs(rows, mark, lo + |log|);
      assert SegmentAt(log + b[..n], rows, lo);
    }
  }

  lemma SliceFollows(rows: seq<int>, n: nat, mark: int)
    requires Ascending(rows) && n <= |rows|
    ensures Follows(rows, mark, Slice(rows[..n], mark))
  {
    var seen := rows[..n];
    var k := UpTo(seen, mark);
    UpToSplits(seen, mark);
    if k < n {
      assert seen[k] == rows[k] && (k == 0 || seen[k - 1] == rows[k - 1]);
      UpToIs(rows, mark, k);
    }
  }

  /** A slice shorter than the batch size leaves nothing that the query saw above the mark. */
  lemma ShortSliceIsLast(rows: seq<int>, mark: int)
    requires Ascending(rows) && 0 < |Slice(rows, mark)| < PUSH_BATCH_SIZE
    ensures forall x :: x in rows ==> x <= Slice(rows, mark)[|Slice(rows, mark)| - 1]
  {
    assert rows[|rows| - 1] == Slice(rows, mark)[|Slice(rows, mark)| - 1];
  }

  // --- An id becoming visible ----------------------------------------------

  lemma {:induction false} InsertHas(rows: seq<int>, id: int)
    ensures forall x :: x in Insert(rows, id) <==> x in rows || x == id
  {
    if rows != [] {
      HeadTail(rows);
      InsertHas(rows[1..], id);
    }
  }

  lemma {:induction false} InsertAscends(rows: seq<int>, id: int)
    requires Ascending(rows)
    ensures Ascending(Insert(rows, id)) && (id in rows ==> Insert(rows, id) == rows)
  {
    if rows != [] {
      HeadTail(rows);
      if rows[0] < id {
        InsertAscends(rows[1..], id);
        InsertHas(rows[1..], id);
        AscendsFrom(rows[0], Insert(rows[1..], id));
      } else if id < rows[0] {
        AscendsFrom(id, rows);
      }
    }
  }

  lemma AscendsFrom(x: int, rest: seq<int>)
    requires Ascending(rest) && forall y :: y in rest ==> x < y
    ensures Ascending([x] + rest)
  {
    var all := [x] + rest;
    forall i, j | 0 <= i < j < |all| ensures all[i] < all[j] { assert rest[j - 1] in rest; }
  }

  lemma InsertKeeps(rows: seq<int>, id: int)
    requires Ascending(rows)
    ensures Ascending(Insert(rows, id))
    ensures forall x :: x in Insert(rows, id) <==> x in rows || x == id
    ensures id in rows ==> Insert(rows, id) == rows
  {
    InsertHas(rows, id);
    InsertAscends(rows, id);
  }

  /** Where a new id lands among the rows. */
  lemma {:induction false} InsertAt(rows: seq<int>, id: int, i: nat)
    requires Ascending(rows) && id !in rows && i <= |rows|
    ensures |Insert(rows, id)| == |rows| + 1
    ensures var k := UpTo(rows, id);
      Insert(rows, id)[i] == if i < k then rows[i] else if i == k then id else rows[i - 1]
  {
    if rows != [] && rows[0] < id {
      HeadTail(rows);
      InsertAt(rows[1..], id, if i == 0 then 0 else i - 1);
    }
  }

  /** Strictly between the first and the last of a run of ids. */
  predicate Inside(id: int, log: seq<int>) {
    log != [] && log[0] < id < log[|log| - 1]
  }

  lemma InsideIsGap(log: seq<int>, rows: seq<int>, id: int)
    requires Ascending(rows) && Segment(log, rows) && id !in rows && Inside(id, log)
    ensures !Segment(log, Insert(rows, id))
  {
    InsertKeeps(rows, id);
    if Segment(log, Insert(rows, id)) {
      SegmentMeaning(log, Insert(rows, id));
      assert false;
    }
  }

  lemma SegmentMoves(log: seq<int>, rows: seq<int>, lo: nat, id: int)
    requires Ascending(rows) && SegmentAt(log, rows, lo) && id !in rows
    requires UpTo(rows, id) <= lo || lo + |log| <= UpTo(rows, id)
    ensures SegmentAt(log, Insert(rows, id), if UpTo(rows, id) <= lo then lo + 1 else lo)
  {
    var at := if UpTo(rows, id) <= lo then lo + 1 else lo;
    InsertAt(rows, id, 0);
    forall i | 0 <= i < |log| ensures log[i] == Insert(rows, id)[at + i] {
      InsertAt(rows, id, at + i);
    }
  }

  /** A new id leaves a run of ids without a gap exactly when it does not fall strictly inside it. */
  lemma LateIdGap(log: seq<int>, rows: seq<int>, id: int)
    requires Ascending(rows) && Segment(log, rows) && id !in rows
    ensures Segment(log, Insert(rows, id)) <==> !Inside(id, log)
  {
    if Inside(id, log) {
      InsideIsGap(log, rows, id);
    } else {
      var lo: nat :| SegmentAt(log, rows, lo);
      var k := UpTo(rows, id);
      UpToSplits(rows, id);
      if log == [] {
        assert SegmentAt(log, Insert(rows, id), 0);
      } else {
        assert log[0] == rows[lo] && log[|log| - 1] == rows[lo + |log| - 1];
        SegmentMoves(log, rows, lo, id);
      }
    }
  }

  lemma SegmentPrefix(log: seq<int>, b: seq<int>, n: nat, rows: seq<int>)
    requires Segment(log + b, rows) && n <= |b|
    ensures Segment(log + b[..n], rows)
  {
    var lo: nat :| SegmentAt(log + b, rows, lo);
    forall i | 0 <= i < |log + b[..n]| ensures (log + b[..n])[i] == rows[lo + i] {
      assert (log + b[..n])[i] == (log + b)[i];
    }
    assert SegmentAt(log + b[..n], rows, lo);
  }

  // --- What every step keeps -----------------------------------------------

  /** A flush is in flight exactly when the device is marked as flushing, so flushes never overlap. */
  predicate Serial(w: World) {
    w.phase != NoPush <==> w.hub.flushing
  }

  /** A socket that has been sent something waits exactly at the mark, wherever the push in flight is. */
  predicate InSync(lastPushed: Option<int>, phase: Phase, log: seq<int>) {
    log == [] || (
      lastPushed == Some(log[|log| - 1])
      && !phase.Baselining?
      && (phase.Querying? || phase.Decoding? ==> phase.mark == log[|log| - 1]))
  }

  predicate AllInSync(w: World) {
    forall ws {:trigger w.logs[ws]} ::
      ws in Listening(w) && ws in w.logs ==> InSync(w.hub.lastPushed, w.phase, w.logs[ws])
  }

  /** What is being decoded is a run of stored ids, and so is what each subscriber will have got with it. */
  ghost predicate SliceFits(w: World) {
    w.phase.Decoding? ==>
      && w.phase.slice != [] && Segment(w.phase.slice, w.rows)
      && forall ws {:trigger w.logs[ws]} ::
           ws in Listening(w) && ws in w.logs ==> Segment(w.logs[ws] + w.phase.slice, w.rows)
  }

  ghost predicate AllSegments(w: World) {
    forall ws {:trigger w.logs[ws]} :: ws in w.logs ==> Segment(w.logs[ws], w.rows)
  }

  ghost predicate Inv(w: World) {
    Ascending(w.rows) && Serial(w) && AllInSync(w) && SliceFits(w) && AllSegments(w)
  }

  /** An id that may become visible now: strictly inside nothing that was sent or is about to be. */
  predicate Harmless(w: World, id: int) {
    id in w.rows || (
      && (forall ws {:trigger w.logs[ws]} :: ws in w.logs ==> !Inside(id, w.logs[ws]))
      && (w.phase.Decoding? ==>
            && !Inside(id, w.phase.slice)
            && forall ws {:trigger w.logs[ws]} ::
                 ws in Listening(w) && ws in w.logs ==> !Inside(id, w.logs[ws] + w.phase.slice)))
  }

  predicate HarmlessEvent(w: World, e: Event) { e.Stores? ==> Harmless(w, e.id) }

  ghost predicate HarmlessRun(w: World, es: seq<Event>, debounce: nat) {
    forall i :: 0 <= i < |es| ==> HarmlessEvent(Run(w, es[..i], debounce), es[i])
  }

  lemma RowsStep(w: World, e: Event, debounce: nat)
    requires Ascending(w.rows)
    ensures Ascending(Step(w, e, debounce).rows)
    ensures Step(w, e, debounce).rows == if e.Stores? then Insert(w.rows, e.id) else w.rows
    ensures forall x :: x in w.rows ==> x in Step(w, e, debounce).rows
  {
    if e.Stores? { InsertKeeps(w.rows, e.id); }
  }

  lemma SerialStep(w: World, e: Event, debounce: nat)
    requires Serial(w)
    ensures Serial(Step(w, e, debounce))
  {
  }

  lemma InSyncStep(w: World, e: Event, debounce: nat)
    requires Serial(w) && AllInSync(w)
    ensures AllInSync(Step(w, e, debounce))
  {
    var n := Step(w, e, debounce);
    forall ws {:trigger n.logs[ws]} | ws in Listening(n) && ws in n.logs
      ensures InSync(n.hub.lastPushed, n.phase, n.logs[ws])
    {
      if ws in w.logs { assert ws in Listening(w) ==> InSync(w.hub.lastPushed, w.phase, w.logs[ws]); }
    }
  }

  /** A new id keeps every run of ids that it does not fall into. */
  lemma SegmentStored(log: seq<int>, rows: seq<int>, id: int)
    requires Ascending(rows) && Segment(log, rows) && (id in rows || !Inside(id, log))
    ensures Segment(log, Insert(rows, id))
  {
    if id in rows { InsertKeeps(rows, id); } else { LateIdGap(log, rows, id); }
  }

  lemma StoredFits(w: World, id: int, debounce: nat)
    requires Inv(w) && Harmless(w, id)
    ensures SliceFits(Step(w, Stores(id), debounce)) && AllSegments(Step(w, Stores(id), debounce))
  {
    forall ws {:trigger w.logs[ws]} | ws in w.logs ensures Segment(w.logs[ws], Insert(w.rows, id)) {
      SegmentStored(w.logs[ws], w.rows, id);
    }
    if w.phase.Decoding? {
      SegmentStored(w.phase.slice, w.rows, id);
      forall ws {:trigger w.logs[ws]} | ws in Listening(w) && ws in w.logs
        ensures Segment(w.logs[ws] + w.phase.slice, Insert(w.rows, id))
      {
        SegmentStored(w.logs[ws] + w.phase.slice, w.rows, id);
      }
    }
  }

  lemma ReturnedFits(w: World, k: nat, debounce: nat)
    requires Inv(w) && Enabled(w, SliceReturns(k))
    ensures SliceFits(Step(w, SliceReturns(k), debounce))
  {
    var m, b := w.phase.mark, Slice(w.rows[..k], w.phase.mark);
    SliceFollows(w.rows, k, m);
    assert b[..|b|] == b;
    assert Segment(b, w.rows);
    forall ws {:trigger w.logs[ws]} | ws in Listening(w) && ws in w.logs ensures Segment(w.logs[ws] + b, w.rows) {
      ExtendSegment(w.logs[ws], w.rows, m, b, |b|);
    }
  }

  /** Every other step leaves the slice alone, or is through with it, and adds only sockets that were sent nothing. */
  lemma OtherFits(w: World, e: Event, debounce: nat)
    requires Inv(w) && !e.Stores? && !e.SliceReturns?
    ensures SliceFits(Step(w, e, debounce))
  {
    var n := Step(w, e, debounce);
    if n.phase.Decoding? {
      assert n.phase == w.phase && n.rows == w.rows;
      forall ws {:trigger n.logs[ws]} | ws in Listening(n) && ws in n.logs
        ensures Segment(n.logs[ws] + n.phase.slice, n.rows)
      {
        StillFits(w, e, debounce, ws);
      }
    }
  }

  lemma StillFits(w: World, e: Event, debounce: nat, ws: Socket)
    requires Inv(w) && !e.Stores? && !e.SliceReturns? && w.phase.Decoding? && Step(w, e, debounce).phase == w.phase
    requires ws in Listening(Step(w, e, debounce)) && ws in Step(w, e, debounce).logs
    ensures Segment(Step(w, e, debounce).logs[ws] + w.phase.slice, w.rows)
  {
    var log := Step(w, e, debounce).logs[ws];
    if log == [] {
      assert log + w.phase.slice == w.phase.slice;
    } else {
      assert ws in w.logs && log == w.logs[ws] && ws in Listening(w);
    }
  }

  /** How one step can change a log: it starts empty, keeps it, or adds the first `n` ids of the slice being sent. */
  ghost predicate Appended(w: World, ws: Socket, log: seq<int>, n: nat)
    requires ws in w.logs
  {
    w.phase.Decoding? && ws in Listening(w) && n <= |w.phase.slice| && log == w.logs[ws] + w.phase.slice[..n]
  }

  lemma LogStep(w: World, e: Event, debounce: nat, ws: Socket)
    requires ws in Step(w, e, debounce).logs && !e.Stores?
    ensures var log := Step(w, e, debounce).logs[ws];
      log == [] || (ws in w.logs && (log == w.logs[ws] || exists n: nat :: Appended(w, ws, log, n)))
  {
    if e.Sends? && Enabled(w, e) && w.hub.subscribers != {} && w.phase.slice != [] && ws in Listening(w) {
      var part := Portion(w.phase.slice, e.cut, ws);
      assert part == w.phase.slice[..|part|];
      assert Appended(w, ws, Step(w, e, debounce).logs[ws], |part|);
    }
  }

  lemma SegmentStep(w: World, e: Event, debounce: nat, ws: Socket)
    requires Inv(w) && !e.Stores? && ws in Step(w, e, debounce).logs
    ensures Segment(Step(w, e, debounce).logs[ws], w.rows)
  {
    LogStep(w, e, debounce, ws);
    var log := Step(w, e, debounce).logs[ws];
    if log == [] {
      assert SegmentAt(log, w.rows, 0);
    } else if log != w.logs[ws] {
      var n: nat :| Appended(w, ws, log, n);
      SegmentPrefix(w.logs[ws], w.phase.slice, n, w.rows);
    }
  }

  lemma StepInv(w: World, e: Event, debounce: nat)
    requires Inv(w) && HarmlessEvent(w, e)
    ensures Inv(Step(w, e, debounce))
  {
    RowsStep(w, e, debounce);
    SerialStep(w, e, debounce);
    InSyncStep(w, e, debounce);
    if e.Stores? {
      StoredFits(w, e.id, debounce);
    } else {
      var n := Step(w, e, debounce);
      forall ws {:trigger n.logs[ws]} | ws in n.logs ensures Segment(n.logs[ws], n.rows) {
        SegmentStep(w, e, debounce, ws);
      }
      if e.SliceReturns? && Enabled(w, e) {
        ReturnedFits(w, e.k, debounce);
      } else if !e.SliceReturns? {
        OtherFits(w, e, debounce);
      }
    }
  }

  lemma {:induction false} RunInv(w: World, es: seq<Event>, debounce: nat)
    requires Inv(w) && HarmlessRun(w, es, debounce)
    ensures Inv(Run(w, es, debounce))
  {
    if es != [] {
      var front := es[..|es| - 1];
      forall i | 0 <= i < |front| ensures HarmlessEvent(Run(w, front[..i], debounce), front[i]) {
        assert front[..i] == es[..i] && front[i] == es[i];
      }
      RunInv(w, front, debounce);
      assert HarmlessEvent(Run(w, es[..|es| - 1], debounce), es[|es| - 1]);
      StepInv(Run(w, front, debounce), es[|es| - 1], debounce);
    }
  }

  lemma StartInv()
    ensures Inv(START)
  {
  }

  // --- Contiguity ----------------------------------------------------------

  /** Strictly increasing, and every stored id between two of its own is in it. */
  ghost predicate Contiguous(log: seq<int>, rows: seq<int>) {
    && Ascending(log)
    && forall i, j, x :: 0 <= i <= j < |log| && x in rows && log[i] <= x <= log[j] ==> x in log
  }

  /**
   * In every run in which ids become visible harmlessly, what a socket was sent since it subscribed is strictly
   * increasing and contains every stored id between any two that it was sent.
   */
  lemma {:induction false} HarmlessIsContiguous(es: seq<Event>, debounce: nat, ws: Socket)
    requires HarmlessRun(START, es, debounce) && ws in Run(START, es, debounce).logs
    ensures var w := Run(START, es, debounce); Contiguous(w.logs[ws], w.rows)
  {
    StartInv();
    RunInv(START, es, debounce);
    var w := Run(START, es, debounce);
    SegmentMeaning(w.logs[ws], w.rows);
  }

  /** New ids become visible in id order. */
  predicate InIdOrder(rows: seq<int>, e: Event) {
    e.Stores? ==> forall x :: x in rows ==> x < e.id
  }

  ghost predicate RowsInOrder(w: World, es: seq<Event>, debounce: nat) {
    forall i :: 0 <= i < |es| ==> InIdOrder(Run(w, es[..i], debounce).rows, es[i])
  }

  lemma NotInside(log: seq<int>, rows: seq<int>, id: int)
    requires Segment(log, rows) && forall x :: x in rows ==> x < id
    ensures !Inside(id, log)
  {
    if log != [] {
      var lo: nat :| SegmentAt(log, rows, lo);
      assert log[|log| - 1] == rows[lo + |log| - 1];
      assert rows[lo + |log| - 1] in rows;
    }
  }

  lemma InOrderIsHarmless(w: World, e: Event)
    requires Inv(w) && InIdOrder(w.rows, e)
    ensures HarmlessEvent(w, e)
  {
    if e.Stores? {
      forall ws {:trigger w.logs[ws]} | ws in w.logs ensures !Inside(e.id, w.logs[ws]) {
        NotInside(w.logs[ws], w.rows, e.id);
      }
      if w.phase.Decoding? {
        NotInside(w.phase.slice, w.rows, e.id);
        forall ws {:trigger w.logs[ws]} | ws in Listening(w) && ws in w.logs
          ensures !Inside(e.id, w.logs[ws] + w.phase.slice)
        {
          NotInside(w.logs[ws] + w.phase.slice, w.rows, e.id);
        }
      }
    }
  }

  lemma {:induction false} InOrderRun(es: seq<Event>, debounce: nat)
    requires RowsInOrder(START, es, debounce)
    ensures HarmlessRun(START, es, debounce)
  {
    if es != [] {
      var front := es[..|es| - 1];
      forall i | 0 <= i < |front| ensures InIdOrder(Run(START, front[..i], debounce).rows, front[i]) {
        assert front[..i] == es[..i] && front[i] == es[i];
      }
      InOrderRun(front, debounce);
      StartInv();
      RunInv(START, front, debounce);
      assert InIdOrder(Run(START, es[..|es| - 1], debounce).rows, es[|es| - 1]);
      InOrderIsHarmless(Run(START, front, debounce), es[|es| - 1]);
      forall i | 0 <= i < |es| ensures HarmlessEvent(Run(START, es[..i], debounce), es[i]) {
        if i < |front| { assert front[..i] == es[..i] && front[i] == es[i]; }
      }
    }
  }

  /** In particular, in every run in which ids become visible in order. */
  lemma {:induction false} SentIsContiguous(es: seq<Event>, debounce: nat, ws: Socket)
    requires RowsInOrder(START, es, debounce) && ws in Run(START, es, debounce).logs
    ensures var w := Run(START, es, debounce); Contiguous(w.logs[ws], w.rows)
  {
    InOrderRun(es, debounce);
    HarmlessIsContiguous(es, debounce, ws);
  }

  // --- Exactly which late ids do harm --------------------------------------

  lemma {:induction false} Above(used: set<Socket>) returns (ws: Socket)
    ensures forall s :: s in used ==> s < ws
  {
    ws := 0;
    if used != {} {
      var x :| x in used;
      ws := Above(used - {x});
      if ws <= x { ws := x + 1; }
      assert forall s :: s in used ==> s == x || s in used - {x};
    }
  }

  lemma RunTwo(w: World, d: Event, e: Event, debounce: nat)
    ensures Run(w, [d], debounce) == Step(w, d, debounce)
    ensures Run(w, [d, e], debounce) == Step(Step(w, d, debounce), e, debounce)
  {
    assert [d][..0] == [] && [d, e][..1] == [d];
  }

  lemma QuietRun(w: World, es: seq<Event>, debounce: nat)
    requires forall i :: 0 <= i < |es| ==> !es[i].Stores?
    ensures HarmlessRun(w, es, debounce)
  {
  }

  lemma SendShowsGap(w: World, id: int, debounce: nat, ws: Socket)
    requires Inv(w) && id !in w.rows && w.phase.Decoding? && ws in Listening(w) && ws in w.logs
    requires Inside(id, w.logs[ws] + w.phase.slice)
    ensures !AllSegments(Run(Step(w, Stores(id), debounce), [Sends(map[])], debounce))
  {
    var after := Step(w, Stores(id), debounce);
    RunTwo(after, Sends(map[]), Settles, debounce);
    InsideIsGap(w.logs[ws] + w.phase.slice, w.rows, id);
    Sending(after, ws, debounce);
  }

  /** A newcomer shows a gap inside the slice that is about to be sent. */
  lemma NewcomerShowsGap(w: World, id: int, debounce: nat) returns (es: seq<Event>)
    requires Inv(w) && id !in w.rows && w.phase.Decoding? && Inside(id, w.phase.slice)
    ensures HarmlessRun(Step(w, Stores(id), debounce), es, debounce)
    ensures !AllSegments(Run(Step(w, Stores(id), debounce), es, debounce))
  {
    var after := Step(w, Stores(id), debounce);
    var ws := Above(w.logs.Keys);
    es := [Opens(ws), Joins(ws), Sends(map[])];
    QuietRun(after, es, debounce);
    assert es[..2] == [Opens(ws), Joins(ws)];
    RunTwo(after, Opens(ws), Joins(ws), debounce);
    var joined := Step(Step(after, Opens(ws), debounce), Joins(ws), debounce);
    Joining(after, ws, debounce);
    Sending(joined, ws, debounce);
    assert [] + w.phase.slice == w.phase.slice;
    InsideIsGap(w.phase.slice, w.rows, id);
  }

  lemma Joining(w: World, ws: Socket, debounce: nat)
    requires ws !in w.logs
    ensures var n := Step(Step(w, Opens(ws), debounce), Joins(ws), debounce);
      n.phase == w.phase && n.rows == w.rows && ws in Listening(n) && ws in n.logs && n.logs[ws] == []
  {
  }

  lemma Sending(w: World, ws: Socket, debounce: nat)
    requires w.phase.Decoding? && w.phase.slice != [] && ws in Listening(w) && ws in w.logs
    ensures var n := Step(w, Sends(map[]), debounce);
      n.rows == w.rows && ws in n.logs && n.logs[ws] == w.logs[ws] + w.phase.slice
  {
  }

  lemma HarmShows(w: World, id: int, debounce: nat) returns (es: seq<Event>)
    requires Inv(w) && id !in w.rows && !Harmless(w, id)
    ensures HarmlessRun(Step(w, Stores(id), debounce), es, debounce)
    ensures !AllSegments(Run(Step(w, Stores(id), debounce), es, debounce))
  {
    if ws :| ws in w.logs && Inside(id, w.logs[ws]) {
      es := [];
      InsideIsGap(w.logs[ws], w.rows, id);
      assert Step(w, Stores(id), debounce).logs[ws] == w.logs[ws];
    } else if Inside(id, w.phase.slice) {
      es := NewcomerShowsGap(w, id, debounce);
    } else {
      var ws :| ws in Listening(w) && ws in w.logs && Inside(id, w.logs[ws] + w.phase.slice);
      es := [Sends(map[])];
      QuietRun(Step(w, Stores(id), debounce), es, debounce);
      SendShowsGap(w, id, debounce, ws);
    }
  }

  /**
   * An id that becomes visible late leaves every log without a gap, in every further run without more harm,
   * exactly when it falls strictly inside nothing that was sent nor, with the slice being decoded, is about to be.
   */
  lemma LateIdExact(w: World, id: int, debounce: nat)
    requires Inv(w) && id !in w.rows
    ensures var after := Step(w, Stores(id), debounce);
      (forall es :: HarmlessRun(after, es, debounce) ==> AllSegments(Run(after, es, debounce))) <==> Harmless(w, id)
  {
    var after := Step(w, Stores(id), debounce);
    if Harmless(w, id) {
      StepInv(w, Stores(id), debounce);
      forall es | HarmlessRun(after, es, debounce) ensures AllSegments(Run(after, es, debounce)) {
        RunInv(after, es, debounce);
      }
    } else {
      var es := HarmShows(w, id, debounce);
    }
  }

  /** The send in flight alone: the log with the slice has no gap exactly when the id is not strictly inside them. */
  lemma PendingSendExact(w: World, id: int, debounce: nat, ws: Socket)
    requires Inv(w) && id !in w.rows && w.phase.Decoding? && ws in Listening(w) && ws in w.logs
    ensures var end := Step(Step(w, Stores(id), debounce), Sends(map[]), debounce);
      Segment(end.logs[ws], end.rows) <==> !Inside(id, w.logs[ws] + w.phase.slice)
  {
    Sending(Step(w, Stores(id), debounce), ws, debounce);
    LateIdGap(w.logs[ws] + w.phase.slice, w.rows, id);
  }

  lemma {:induction false} RunFirst(w: World, e: Event, es: seq<Event>, debounce: nat)
    ensures Run(w, [e] + es, debounce) == Run(Step(w, e, debounce), es, debounce)
  {
    if es == [] {
      assert [e] + es == [e] && [e][..0] == [];
    } else {
      var all := [e] + es;
      assert all[..|all| - 1] == [e] + es[..|es| - 1];
      RunFirst(w, e, es[..|es| - 1], debounce);
    }
  }

  /** One subscriber of an otherwise idle device, with its mark, what it was sent and what is stored. */
  function OneSubscriber(mark: int, log: seq<int>, rows: seq<int>, phase: Phase): World {
    World(DeviceState({0}, Some(mark), None, None, phase != NoPush, false), 0, {0}, map[0 := log], rows, phase, 0)
  }

  const JOIN: seq<Event> := [Opens(0), Joins(0), BaselineReturns(0)]

  lemma Joined()
    ensures Run(START, JOIN, 0) == OneSubscriber(0, [], [], NoPush)
  {
    var a := Step(START, Opens(0), 0);
    var b := Step(a, Joins(0), 0);
    RunFirst(START, Opens(0), [Joins(0), BaselineReturns(0)], 0);
    RunTwo(a, Joins(0), BaselineReturns(0), 0);
    assert JOIN == [Opens(0)] + [Joins(0), BaselineReturns(0)];
    assert Step(b, BaselineReturns(0), 0) == OneSubscriber(0, [], [], NoPush);
  }

  /** A notification, its timer, and a query that sees the first `k` rows. */
  function Reading(k: nat): seq<Event> { [Notifies, TimerFires] + [SliceReturns(k)] }

  lemma SliceRead(mark: int, log: seq<int>, rows: seq<int>, k: nat, slice: seq<int>)
    requires k <= |rows| && slice != [] && Slice(rows[..k], mark) == slice
    ensures Run(OneSubscriber(mark, log, rows, NoPush), Reading(k), 0)
      == OneSubscriber(mark, log, rows, Decoding(mark, slice))
  {
    var w := OneSubscriber(mark, log, rows, NoPush);
    RunTwo(w, Notifies, TimerFires, 0);
    RunJoin(w, [Notifies, TimerFires], [SliceReturns(k)], 0);
    var q := OneSubscriber(mark, log, rows, Querying(mark));
    assert Step(Step(w, Notifies, 0), TimerFires, 0) == q;
    RunTwo(q, SliceReturns(k), Settles, 0);
  }

  const DELIVERY: seq<Event> := [Sends(map[]), Settles]

  lemma Delivered(mark: int, log: seq<int>, rows: seq<int>, slice: seq<int>)
    requires slice != [] && |slice| < PUSH_BATCH_SIZE
    ensures Step(OneSubscriber(mark, log, rows, Decoding(mark, slice)), Sends(map[]), 0)
         == OneSubscriber(slice[|slice| - 1], log + slice, rows, Done)
    ensures Run(OneSubscriber(mark, log, rows, Decoding(mark, slice)), DELIVERY, 0)
         == OneSubscriber(slice[|slice| - 1], log + slice, rows, NoPush)
  {
    RunTwo(OneSubscriber(mark, log, rows, Decoding(mark, slice)), Sends(map[]), Settles, 0);
  }

  lemma {:induction false} RunJoin(w: World, es: seq<Event>, fs: seq<Event>, debounce: nat)
    ensures Run(w, es + fs, debounce) == Run(Run(w, es, debounce), fs, debounce)
  {
    if fs == [] {
      assert es + fs == es;
    } else {
      var front := fs[..|fs| - 1];
      assert (es + fs)[..|es + fs| - 1] == es + front;
      RunJoin(w, es, front, debounce);
    }
  }

  lemma Stored(mark: int, log: seq<int>, rows: seq<int>, phase: Phase, id: int)
    ensures Run(OneSubscriber(mark, log, rows, phase), [Stores(id)], 0)
      == OneSubscriber(mark, log, Insert(rows, id), phase)
  {
    RunTwo(OneSubscriber(mark, log, rows, phase), Stores(id), Settles, 0);
  }

  /** The subscriber gets 4; then a slice with 5 and 7 is read. */
  const FIRST: seq<Event> := JOIN + ([Stores(4)] + (Reading(1) + DELIVERY))
  const SECOND: seq<Event> := [Stores(5)] + ([Stores(7)] + Reading(3))
  const LATE: seq<Event> := [Stores(6)] + [Sends(map[])]

  lemma FirstPush()
    ensures Run(START, FIRST, 0) == OneSubscriber(4, [4], [4], NoPush)
  {
    Joined();
    RunJoin(START, JOIN, [Stores(4)] + (Reading(1) + DELIVERY), 0);
    var w := OneSubscriber(0, [], [], NoPush);
    RunJoin(w, [Stores(4)], Reading(1) + DELIVERY, 0);
    Stored(0, [], [], NoPush, 4);
    var x := OneSubscriber(0, [], [4], NoPush);
    RunJoin(x, Reading(1), DELIVERY, 0);
    var none: seq<int> := [];
    assert [4][..1] == [4] && Slice([4], 0) == [4] && none + [4] == [4] && Insert(none, 4) == [4];
    SliceRead(0, none, [4], 1, [4]);
    Delivered(0, none, [4], [4]);
  }

  lemma SecondPush()
    ensures Run(START, FIRST + SECOND, 0) == OneSubscriber(4, [4], [4, 5, 7], Decoding(4, [5, 7]))
  {
    FirstPush();
    RunJoin(START, FIRST, SECOND, 0);
    Inserted();
    RunJoin(OneSubscriber(4, [4], [4], NoPush), [Stores(5)], [Stores(7)] + Reading(3), 0);
    Stored(4, [4], [4], NoPush, 5);
    RunJoin(OneSubscriber(4, [4], [4, 5], NoPush), [Stores(7)], Reading(3), 0);
    Stored(4, [4], [4, 5], NoPush, 7);
    UpToIs([4, 5, 7], 4, 1);
    assert [4, 5, 7][..3] == [4, 5, 7];
    SliceRead(4, [4], [4, 5, 7], 3, [5, 7]);
  }

  lemma Inserted()
    ensures Insert([4], 5) == [4, 5] && Insert([4, 5], 7) == [4, 5, 7] && Insert([4, 5, 7], 6) == [4, 5, 6, 7]
  {
    assert [4][1..] == [] && [4, 5][1..] == [5] && [5][1..] == [] && [4, 5, 7][1..] == [5, 7] && [5, 7][1..] == [7];
    assert Insert([5], 7) == [5] + Insert([], 7);
    assert Insert([7], 6) == [6, 7];
    assert Insert([5, 7], 6) == [5] + Insert([7], 6);
  }

  /** A run in which the slice 5, 7 is being decoded when 6 becomes visible: the subscriber never gets 6. */
  lemma LateIdRun()
    ensures var before, end := Run(START, FIRST + SECOND, 0), Run(START, FIRST + SECOND + LATE, 0);
      && before.logs == map[0 := [4]] && before.phase == Decoding(4, [5, 7]) && !Inside(6, before.logs[0])
      && end.logs == map[0 := [4, 5, 7]] && end.rows == [4, 5, 6, 7] && !Contiguous(end.logs[0], end.rows)
  {
    SecondPush();
    RunJoin(START, FIRST + SECOND, LATE, 0);
    Inserted();
    RunJoin(OneSubscriber(4, [4], [4, 5, 7], Decoding(4, [5, 7])), [Stores(6)], [Sends(map[])], 0);
    Stored(4, [4], [4, 5, 7], Decoding(4, [5, 7]), 6);
    RunTwo(OneSubscriber(4, [4], [4, 5, 6, 7], Decoding(4, [5, 7])), Sends(map[]), Settles, 0);
    Delivered(4, [4], [4, 5, 6, 7], [5, 7]);
    var log, rows := [4, 5, 7], [4, 5, 6, 7];
    assert [4] + [5, 7] == log;
    assert rows[2] == 6 && log[1] <= 6 <= log[2] && 6 !in log;
  }

  // --- No notification is lost ---------------------------------------------

  /** A run after a notification: `stale` says that the push in flight had begun before it. */
  datatype Track = Track(w: World, stale: bool)

  function Follow(t: Track, e: Event, debounce: nat): Track {
    Track(Step(t.w, e, debounce), t.stale && !(e.Settles? && Enabled(t.w, e)))
  }

  function FollowAll(t: Track, es: seq<Event>, debounce: nat): Track {
    if es == [] then t else Follow(FollowAll(t, es[..|es| - 1], debounce), es[|es| - 1], debounce)
  }

  /**
   * Someone stays subscribed, and reads that begin after the notification succeed and see the event stored before
   * it.
   */
  predicate Fair(t: Track, e: Event, debounce: nat, x: int) {
    Step(t.w, e, debounce).hub.subscribers != {}
    && (t.stale || !Enabled(t.w, e) || (
      !e.ReadFails? && (e.MaxReturns? || e.SliceReturns? ==> x in t.w.rows[..e.k])))
  }

  ghost predicate FairRun(t: Track, es: seq<Event>, debounce: nat, x: int) {
    forall i :: 0 <= i < |es| ==> Fair(FollowAll(t, es[..i], debounce), es[i], debounce, x)
  }

  predicate Covered(w: World, x: int) { w.hub.lastPushed.Some? && w.hub.lastPushed.value >= x }

  /** The push in flight, if any, moves the mark up to the event before it ends. */
  predicate Reaching(w: World, x: int) {
    match w.phase
    case NoPush => Covered(w, x)
    case Baselining => true
    case Querying(m) => w.hub.lastPushed == Some(m)
    case Decoding(m, b) => w.hub.lastPushed == Some(m) && b != [] && (|b| < PUSH_BATCH_SIZE ==> b[|b| - 1] >= x)
    case Done => Covered(w, x)
  }

  ghost predicate Awake(t: Track, x: int) {
    t.w.hub.subscribers != {} && x in t.w.rows && Ascending(t.w.rows) && Serial(t.w)
    && (t.stale ==> t.w.phase != NoPush)
    && (t.w.hub.timer.Some? || t.w.hub.flushAgain || (!t.stale && Reaching(t.w, x)))
  }

  lemma AscendingMax(rows: seq<int>, x: int)
    requires Ascending(rows) && x in rows
    ensures MaxId(rows) >= x
  {
  }

  lemma SliceReaches(rows: seq<int>, mark: int, x: int)
    requires Ascending(rows) && x in rows
    ensures Slice(rows, mark) == [] ==> x <= mark
    ensures 0 < |Slice(rows, mark)| < PUSH_BATCH_SIZE ==> Slice(rows, mark)[|Slice(rows, mark)| - 1] >= x
  {
    UpToSplits(rows, mark);
    if 0 < |Slice(rows, mark)| < PUSH_BATCH_SIZE { ShortSliceIsLast(rows, mark); }
  }

  lemma ReachingStep(t: Track, e: Event, debounce: nat, x: int)
    requires Awake(t, x) && Fair(t, e, debounce, x) && !t.stale && t.w.hub.timer.None? && !t.w.hub.flushAgain
    ensures var n := Step(t.w, e, debounce); n.hub.timer.Some? || n.hub.flushAgain || Reaching(n, x)
  {
    if e.MaxReturns? && Enabled(t.w, e) {
      AscendingMax(t.w.rows[..e.k], x);
    } else if e.SliceReturns? && Enabled(t.w, e) {
      SliceReaches(t.w.rows[..e.k], t.w.phase.mark, x);
    } else {
      OtherReaches(t.w, e, debounce, x);
    }
  }

  /** Every step that reads nothing keeps the push on its way, or arms a timer. */
  lemma OtherReaches(w: World, e: Event, debounce: nat, x: int)
    requires Serial(w) && w.hub.subscribers != {} && w.hub.timer.None? && !w.hub.flushAgain && Reaching(w, x)
    requires Step(w, e, debounce).hub.subscribers != {}
    requires !Enabled(w, e) || (!e.MaxReturns? && !e.SliceReturns? && !e.ReadFails?)
    ensures var n := Step(w, e, debounce); n.hub.timer.Some? || n.hub.flushAgain || Reaching(n, x)
  {
  }

  lemma AwakeStep(t: Track, e: Event, debounce: nat, x: int)
    requires Awake(t, x) && Fair(t, e, debounce, x)
    ensures Awake(Follow(t, e, debounce), x)
  {
    RowsStep(t.w, e, debounce);
    SerialStep(t.w, e, debounce);
    if t.w.hub.timer.None? && !t.w.hub.flushAgain {
      ReachingStep(t, e, debounce, x);
    } else {
      ArmedStep(t, e, debounce, x);
    }
  }

  lemma ArmedStep(t: Track, e: Event, debounce: nat, x: int)
    requires Awake(t, x) && Fair(t, e, debounce, x) && (t.w.hub.timer.Some? || t.w.hub.flushAgain)
    ensures var n := Follow(t, e, debounce); n.w.hub.timer.Some? || n.w.hub.flushAgain || (!n.stale && Reaching(n.w, x))
  {
  }

  lemma {:induction false} AwakeRun(t: Track, es: seq<Event>, debounce: nat, x: int)
    requires Awake(t, x) && FairRun(t, es, debounce, x)
    ensures Awake(FollowAll(t, es, debounce), x)
  {
    if es != [] {
      var front := es[..|es| - 1];
      forall i | 0 <= i < |front| ensures Fair(FollowAll(t, front[..i], debounce), front[i], debounce, x) {
        assert front[..i] == es[..i] && front[i] == es[i];
      }
      AwakeRun(t, front, debounce, x);
      assert Fair(FollowAll(t, es[..|es| - 1], debounce), es[|es| - 1], debounce, x);
      AwakeStep(FollowAll(t, front, debounce), es[|es| - 1], debounce, x);
    }
  }

  /**
   * After a notification that finds a subscriber, while someone stays subscribed and reads succeed: a timer is
   * armed, a follow-up is asked for, or a push that began after the notification is on its way to every event
   * stored before it or has got there. A hub at rest has got there.
   */
  lemma NoLostNotification(w: World, es: seq<Event>, debounce: nat, x: int)
    requires Ascending(w.rows) && Serial(w) && w.hub.subscribers != {} && x in w.rows
    requires FairRun(Track(Step(w, Notifies, debounce), w.phase != NoPush), es, debounce, x)
    ensures var n := FollowAll(Track(Step(w, Notifies, debounce), w.phase != NoPush), es, debounce);
      (n.w.hub.timer.Some? || n.w.hub.flushAgain || (!n.stale && Reaching(n.w, x)))
      && (n.w.hub.timer.None? && n.w.phase == NoPush && !n.w.hub.flushAgain ==> Covered(n.w, x))
  {
    var t := Track(Step(w, Notifies, debounce), w.phase != NoPush);
    SerialStep(w, Notifies, debounce);
    assert Awake(t, x);
    AwakeRun(t, es, debounce, x);
  }

  /** A subscriber that was sent something has been sent every stored event from its first one up to the mark. */
  lemma {:induction false} CoveredIsSent(es: seq<Event>, debounce: nat, ws: Socket, x: int)
    requires HarmlessRun(START, es, debounce)
    requires var w := Run(START, es, debounce);
      ws in w.logs && ws in Listening(w) && w.logs[ws] != [] && x in w.rows && w.logs[ws][0] <= x && Covered(w, x)
    ensures x in Run(START, es, debounce).logs[ws]
  {
    StartInv();
    RunInv(START, es, debounce);
    var w := Run(START, es, debounce);
    assert InSync(w.hub.lastPushed, w.phase, w.logs[ws]);
    SegmentMeaning(w.logs[ws], w.rows);
    var log := w.logs[ws];
    assert log[0] <= x <= log[|log| - 1];
  }

  // --- The debounce window -------------------------------------------------

  /**
   * A timer is armed exactly while a batch waits, and is due within the longest wait plus one debounce of its
   * start.
   */
  predicate BurstBounded(s: DeviceState, now: int, debounce: nat) {
    s.timer.Some? == s.since.Some?
    && (s.timer.Some? ==> s.since.value <= now && s.timer.value <= s.since.value + MAX_WAIT_MS + debounce)
  }

  lemma BurstStep(w: World, e: Event, debounce: nat)
    requires BurstBounded(w.hub, w.now, debounce)
    ensures var n := Step(w, e, debounce); BurstBounded(n.hub, n.now, debounce)
  {
  }

  lemma {:induction false} BurstBound(es: seq<Event>, debounce: nat)
    ensures var w := Run(START, es, debounce); BurstBounded(w.hub, w.now, debounce)
  {
    if es != [] {
      BurstBound(es[..|es| - 1], debounce);
      BurstStep(Run(START, es[..|es| - 1], debounce), es[|es| - 1], debounce);
    }
  }

  // --- The hub -------------------------------------------------------------

  class LogStreamHub {
    const debounceMs: nat
    const maxConnections: nat
    var subscribers: map<Device, set<Socket>>
    var lastPushed: map<Device, int>
    var pendingTimers: map<Device, int>
    var pendingSince: map<Device, int>
    var flushing: set<Device>
    var flushAgain: set<Device>
    var connectionCount: nat

    ghost predicate Valid()
      reads this
    {
      forall d :: d in subscribers ==> subscribers[d] != {}
    }

    ghost function Of(d: Device): DeviceState
      reads this
    {
      DeviceState(
        if d in subscribers then subscribers[d] else {},
        if d in lastPushed then Some(lastPushed[d]) else None,
        if d in pendingTimers then Some(pendingTimers[d]) else None,
        if d in pendingSince then Some(pendingSince[d]) else None,
        d in flushing,
        d in flushAgain)
    }

    constructor (debounceMs: nat, maxConnections: nat)
      ensures Valid() && (forall d :: Of(d) == IDLE) && connectionCount == 0
      ensures this.debounceMs == debounceMs && this.maxConnections == maxConnections
    {
      this.debounceMs := debounceMs;
      this.maxConnections := maxConnections;
      subscribers, lastPushed, pendingTimers, pendingSince := map[], map[], map[], map[];
      flushing, flushAgain, connectionCount := {}, {}, 0;
    }

    /** A socket over the connection cap is refused and nothing changes; `asks` says that a baseline query starts. */
    method Join(d: Device, ws: Socket) returns (accepted: bool, asks: bool)
      requires Valid()
      modifies this
      ensures Valid() && forall k :: k != d ==> Of(k) == old(Of(k))
      ensures accepted <==> old(connectionCount) < maxConnections
      ensures Of(d) == if accepted then old(Of(d)).(subscribers := old(Of(d)).subscribers + {ws}) else old(Of(d))
      ensures asks <==> accepted && old(Of(d)).lastPushed.None?
      ensures connectionCount == old(connectionCount) + if accepted then 1 else 0
    {
      if connectionCount >= maxConnections { return false, false; }
      var sockets := {};
      if d in subscribers { sockets := subscribers[d]; }
      subscribers := subscribers[d := sockets + {ws}];
      connectionCount := connectionCount + 1;
      return true, d !in lastPushed;
    }

    /** The baseline query of a subscriber came back with the largest stored id, if any. */
    method BaselineReturned(d: Device, max: Option<int>)
      requires Valid()
      modifies this
      ensures Valid() && forall k :: k != d ==> Of(k) == old(Of(k))
      ensures Of(d) == if old(Of(d)).lastPushed.Some? then old(Of(d)) else
          old(Of(d)).(lastPushed := Some(if max.Some? then max.value else 0))
      ensures connectionCount == old(connectionCount)
    {
      if d !in lastPushed {
        lastPushed := lastPushed[d := if max.Some? then max.value else 0];
      }
    }

    method Leave(d: Device, ws: Socket)
      requires Valid()
      modifies this
      ensures Valid() && forall k :: k != d ==> Of(k) == old(Of(k))
      ensures Of(d) == Unsubscribe(old(Of(d)), ws)
      ensures Of(d).subscribers == old(Of(d)).subscribers - {ws}
      ensures old(Of(d)).subscribers == {ws} ==> Of(d).lastPushed.None? && Of(d).timer.None?
      ensures connectionCount ==
        if ws in old(Of(d)).subscribers && old(connectionCount) > 0
        then old(connectionCount) - 1 else old(connectionCount)
    {
      if d !in subscribers { return; }
      var sockets := subscribers[d];
      if ws in sockets {
        connectionCount := if connectionCount == 0 then 0 else connectionCount - 1;
      }
      sockets := sockets - {ws};
      subscribers := subscribers[d := sockets];
      if sockets == {} {
        subscribers := subscribers - {d};
        lastPushed := lastPushed - {d};
        if d in pendingTimers {
          pendingTimers := pendingTimers - {d};
          pendingSince := pendingSince - {d};
        }
      }
    }

    /** The timer callback; says whether it begins a push. */
    method FlushDevice(d: Device) returns (begins: bool)
      requires Valid()
      modifies this
      ensures Valid() && forall k :: k != d ==> Of(k) == old(Of(k))
      ensures Of(d) == Flush(old(Of(d)))
      ensures begins <==> FlushBegins(old(Of(d)))
      ensures connectionCount == old(connectionCount)
    {
      pendingTimers := pendingTimers - {d};
      pendingSince := pendingSince - {d};
      if d !in subscribers { return false; }
      if d in flushing {
        flushAgain := flushAgain + {d};
        return false;
      }
      flushing := flushing + {d};
      begins := true;
    }

    method SchedulePush(d: Device, now: int) returns (begins: bool)
      requires Valid()
      modifies this
      ensures Valid() && forall k :: k != d ==> Of(k) == old(Of(k))
      ensures Of(d) == Schedule(old(Of(d)), now, debounceMs)
      ensures begins <==> ScheduleBegins(old(Of(d)), now)
      ensures connectionCount == old(connectionCount)
    {
      begins := false;
      if d !in subscribers { return; }
      if d !in pendingTimers {
        pendingSince := pendingSince[d := now];
        pendingTimers := pendingTimers[d := now + debounceMs];
        return;
      }
      var waited := now - (if d in pendingSince then pendingSince[d] else now);
      if waited >= MAX_WAIT_MS {
        begins := FlushDevice(d);
        pendingSince := pendingSince[d := now];
        pendingTimers := pendingTimers[d := now + debounceMs];
        return;
      }
      pendingTimers := pendingTimers[d := now + debounceMs];
    }

    /** What runs when a push is over, however it ended. */
    method PushSettled(d: Device, now: int) returns (begins: bool)
      requires Valid()
      modifies this
      ensures Valid() && forall k :: k != d ==> Of(k) == old(Of(k))
      ensures Of(d) == Settle(old(Of(d)), now, debounceMs)
      ensures begins <==> SettleBegins(old(Of(d)), now)
      ensures connectionCount == old(connectionCount)
    {
      flushing := flushing - {d};
      begins := false;
      if d in flushAgain {
        flushAgain := flushAgain - {d};
        begins := SchedulePush(d, now);
      }
    }

    /**
     * A decoded slice is ready: every open subscriber is sent its events until a send fails, and the mark
     * moves to the last of them. `more` says whether another slice is queried, from the new mark.
     */
    method SendEvents(d: Device, slice: seq<int>, open: set<Socket>, cut: map<Socket, nat>)
      returns (sent: map<Socket, seq<int>>, more: bool)
      requires Valid() && slice != []
      modifies this
      ensures Valid() && forall k :: k != d ==> Of(k) == old(Of(k))
      ensures sent.Keys == old(Of(d)).subscribers * open
      ensures forall ws :: ws in sent ==> sent[ws] == Portion(slice, cut, ws)
      ensures Of(d) == if old(Of(d)).subscribers == {} then old(Of(d))
        else old(Of(d)).(lastPushed := Some(slice[|slice| - 1]))
      ensures more <==> old(Of(d)).subscribers != {} && |slice| >= PUSH_BATCH_SIZE
      ensures connectionCount == old(connectionCount)
    {
      sent, more := map[], false;
      if d !in subscribers { return; }
      var sockets := subscribers[d];
      var left := sockets;
      while left != {}
        invariant left <= sockets
        invariant sent.Keys == (sockets - left) * open
        invariant forall ws :: ws in sent ==> sent[ws] == Portion(slice, cut, ws)
      {
        var ws :| ws in left;
        left := left - {ws};
        if ws in open {
          var i := 0;
          while i < |slice| && !(ws in cut && cut[ws] == i)
            invariant 0 <= i <= |slice| && (ws in cut ==> i <= cut[ws])
          {
            i := i + 1;
          }
          sent := sent[ws := slice[..i]];
        }
      }
      lastPushed := lastPushed[d := slice[|slice| - 1]];
      more := |slice| >= PUSH_BATCH_SIZE;
    }
  }
}
