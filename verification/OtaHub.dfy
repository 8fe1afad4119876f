/**
 * The realtime OTA job stream: a hub that pushes deltas of a job's targets to
 * its subscribers, under every interleaving of subscriptions, notifications,
 * timers and slow reads. Jobs do not share state apart from the connection
 * count, so the protocol is stated for one job and the hub is shown to run it
 * for each of its jobs.
 */
module OtaHub {
  import opened Bytes
  import opened Decimal

  type Job = nat
  type Socket = nat
  type Device = nat

  /** State names come from a fixed list, none of which contains the separator of a fingerprint. */
  type StateName = s: string | '|' !in s witness ""

  /** The columns of a target that a fingerprint covers. */
  datatype Row = Row(device: Device, state: StateName, code: Option<int>, firmware: Option<string>)

  type Snapshot = seq<Row>

  // --- Fingerprints --------------------------------------------------------

  function CodeText(code: Option<int>): string {
    if code.None? then "" else IntText(code.value)
  }

  function FirmwareText(firmware: Option<string>): string {
    if firmware.None? then "" else firmware.value
  }

  function Fingerprint(r: Row): string {
    r.state + "|" + (CodeText(r.code) + "|" + FirmwareText(r.firmware))
  }

  lemma CodeTextInjective(a: Option<int>, b: Option<int>)
    ensures CodeText(a) == CodeText(b) <==> a == b
    ensures '|' !in CodeText(a)
  {
    if a.Some? { IntTextChars(a.value); }
    if b.Some? { IntTextChars(b.value); }
    if a.Some? && b.Some? { IntTextInjective(a.value, b.value); }
  }

  predicate SameColumns(a: Row, b: Row) {
    a.state == b.state && a.code == b.code && FirmwareText(a.firmware) == FirmwareText(b.firmware)
  }

  /** Fingerprints agree exactly when state, result code and firmware do; no firmware and an empty hash count as one. */
  lemma FingerprintMeaning(a: Row, b: Row)
    ensures Fingerprint(a) == Fingerprint(b) <==> SameColumns(a, b)
  {
    CodeTextInjective(a.code, b.code);
    CodeTextInjective(b.code, a.code);
    if Fingerprint(a) == Fingerprint(b) {
      SplitAt('|', a.state, CodeText(a.code) + "|" + FirmwareText(a.firmware),
              b.state, CodeText(b.code) + "|" + FirmwareText(b.firmware));
      SplitAt('|', CodeText(a.code), FirmwareText(a.firmware), CodeText(b.code), FirmwareText(b.firmware));
    }
  }

  // --- One job of the hub --------------------------------------------------

  /** What the hub's maps and sets hold for one job. */
  datatype JobState = JobState(
    subscribers: set<Socket>,
    timer: Option<int>,
    firstNotifyAt: Option<int>,
    pushing: bool,
    pushAgain: bool,
    lastTargets: Option<map<Device, string>>,
    fullNext: bool
  )

  const IDLE := JobState({}, None, None, false, false, None, false)

  const MAX_WAIT_FACTOR := 4

  function Min(a: int, b: int): int { if a < b then a else b }
  function Max(a: int, b: int): int { if a > b then a else b }

  /** Arms or re-arms the debounce timer; without subscribers a notification is dropped. */
  function Schedule(s: JobState, now: int, debounce: nat): JobState {
    if s.subscribers == {} then s
    else
      var first := if s.firstNotifyAt.Some? then s.firstNotifyAt.value else now;
      var delay := Max(0, Min(debounce, debounce * MAX_WAIT_FACTOR - (now - first)));
      s.(firstNotifyAt := Some(first), timer := Some(now + delay))
  }

  /** The end of a push: the next one is scheduled if it was asked for meanwhile. */
  function Settle(s: JobState, now: int, debounce: nat): JobState {
    var idle := s.(pushing := false, pushAgain := false);
    if s.pushAgain then Schedule(idle, now, debounce) else idle
  }

  /** Whether a firing timer starts a read: no push is in flight and someone listens. */
  predicate StartsRead(s: JobState) { !s.pushing && s.subscribers != {} }

  function Fire(s: JobState, now: int, debounce: nat): JobState {
    var fired := s.(timer := None, firstNotifyAt := None);
    if s.pushing then fired.(pushAgain := true)
    else if s.subscribers == {} then Settle(fired.(pushing := true), now, debounce)
    else fired.(pushing := true)
  }

  function Subscribe(s: JobState, ws: Socket): JobState {
    s.(subscribers := s.subscribers + {ws}, fullNext := true)
  }

  function Unsubscribe(s: JobState, ws: Socket): JobState {
    var left := s.(subscribers := s.subscribers - {ws});
    if left.subscribers == {} && s.subscribers != {} then left.(lastTargets := None) else left
  }

  /** The rows whose fingerprint differs from the last one pushed. */
  function Changed(rows: Snapshot, previous: map<Device, string>): Snapshot {
    if rows == [] then []
    else
      var r := rows[0];
      (if r.device in previous && previous[r.device] == Fingerprint(r) then [] else [r]) + Changed(rows[1..], previous)
  }

  function Record(m: map<Device, string>, rows: Snapshot): map<Device, string>
    decreases |rows|
  {
    if rows == [] then m else Record(m[rows[0].device := Fingerprint(rows[0])], rows[1..])
  }

  /** The delta baseline that a push compares with; none when a full frame is due. */
  function Baseline(s: JobState): Option<map<Device, string>> {
    if s.fullNext then None else s.lastTargets
  }

  function Frame(s: JobState, rows: Snapshot): Snapshot {
    var previous := Baseline(s);
    if previous.None? then rows else Changed(rows, previous.value)
  }

  /** Comparing a snapshot: the baseline moves unless nothing changed. */
  function Compare(s: JobState, rows: Snapshot): JobState {
    var previous := Baseline(s);
    var s1 := s.(fullNext := false);
    if Frame(s, rows) == [] then s1
    else s1.(lastTargets := Some(Record(if previous.None? then map[] else previous.value, rows)))
  }

  function Finish(s: JobState, rows: Snapshot, now: int, debounce: nat): JobState {
    Settle(Compare(s, rows), now, debounce)
  }

  // --- The job, its sockets and its database rows --------------------------

  type View = map<Device, Row>

  /** How a client merges the targets of a frame into what it has. */
  function Merge(view: View, frame: Snapshot): View
    decreases |frame|
  {
    if frame == [] then view else Merge(view[frame[0].device := frame[0]], frame[1..])
  }

  /**
   * `history` lists the job's successive contents; `reading` is the number of
   * them that existed when the read in flight began. For each socket, `owed` is
   * the number that existed at the last notification it was subscribed for, and
   * `seen` the number of the last content compared while it was subscribed.
   * `compared` is the last content compared, `comparedAt` its number.
   */
  datatype World = World(
    hub: JobState,
    now: int,
    open: set<Socket>,
    views: map<Socket, View>,
    history: seq<Snapshot>,
    reading: Option<nat>,
    owed: map<Socket, nat>,
    seen: map<Socket, nat>,
    compared: Snapshot,
    comparedAt: nat
  )

  const START := World(IDLE, 0, {}, map[], [], None, map[], map[], [], 0)

  datatype Event =
    | Opens(ws: Socket)
    | Joins(ws: Socket)
    | Leaves(ws: Socket)
    | Closes(ws: Socket)
    | Commits(rows: Snapshot)
    | Notifies
    | Waits(ms: nat)
    | TimerFires
    | ReadReturns(version: nat)
    | ReadFails

  /** Events that can happen in a given world: timers fire when due, reads return what was stored meanwhile. */
  predicate Enabled(w: World, e: Event) {
    match e
    case TimerFires => w.hub.timer.Some? && w.hub.timer.value <= w.now
    case ReadReturns(v) => w.reading.Some? && w.reading.value <= v <= |w.history|
    case ReadFails => w.reading.Some?
    case _ => true
  }

  function Listening(w: World): set<Socket> { w.hub.subscribers * w.open }

  /** A read that returned `rows`: compare, send the frame to every open subscriber, settle. */
  function Deliver(w: World, rows: Snapshot, version: nat, debounce: nat): World {
    var frame := Frame(w.hub, rows);
    w.(hub := Finish(w.hub, rows, w.now, debounce),
       reading := None,
       views := map ws | ws in w.views :: if ws in Listening(w) then Merge(w.views[ws], frame) else w.views[ws],
       seen := map ws | ws in w.seen :: if ws in Listening(w) then version else w.seen[ws],
       compared := rows,
       comparedAt := version)
  }

  function Step(w: World, e: Event, debounce: nat): World {
    if !Enabled(w, e) then w
    else
      match e
      case Opens(ws) =>
        if ws in w.views then w
        else w.(open := w.open + {ws}, views := w.views[ws := map[]], owed := w.owed[ws := 0], seen := w.seen[ws := 0])
      case Joins(ws) =>
        if ws !in w.views then w
        else w.(hub := Subscribe(w.hub, ws), owed := if ws in w.hub.subscribers then w.owed else w.owed[ws := 0])
      case Leaves(ws) => w.(hub := Unsubscribe(w.hub, ws))
      case Closes(ws) => w.(open := w.open - {ws})
      case Commits(rows) => w.(history := w.history + [rows])
      case Notifies =>
        w.(hub := Schedule(w.hub, w.now, debounce),
           owed := map ws | ws in w.owed :: if ws in w.hub.subscribers then |w.history| else w.owed[ws])
      case Waits(ms) => w.(now := w.now + ms)
      case TimerFires =>
        w.(hub := Fire(w.hub, w.now, debounce),
           reading := if StartsRead(w.hub) then Some(|w.history|) else w.reading)
      case ReadReturns(v) =>
        if v == 0 then w.(hub := Settle(w.hub, w.now, debounce), reading := None)
        else Deliver(w, w.history[v - 1], v, debounce)
      case ReadFails => w.(hub := Settle(w.hub, w.now, debounce), reading := None)
  }

  function Run(w: World, es: seq<Event>, debounce: nat): World {
    if es == [] then w else Step(Run(w, es[..|es| - 1], debounce), es[|es| - 1], debounce)
  }

  // --- Invariants ----------------------------------------------------------

  predicate Basics(w: World) {
    && w.hub.subscribers <= w.views.Keys
    && w.views.Keys == w.owed.Keys == w.seen.Keys
    && (w.hub.pushing <==> w.reading.Some?)
    && (w.hub.pushAgain ==> w.hub.pushing)
    && (w.hub.timer.Some? <==> w.hub.firstNotifyAt.Some?)
    && (w.hub.firstNotifyAt.Some? ==> w.hub.firstNotifyAt.value <= w.now)
  }

  predicate Carries(view: View, last: map<Device, string>) {
    forall d :: d in last ==> d in view && Fingerprint(view[d]) == last[d]
  }

  function Last(s: JobState): map<Device, string> {
    if s.lastTargets.None? then map[] else s.lastTargets.value
  }

  /** Every open subscriber that is not owed a full frame holds what the hub last recorded. */
  predicate ViewsAgree(w: World) {
    !w.hub.fullNext ==> forall ws :: ws in Listening(w) && ws in w.views ==> Carries(w.views[ws], Last(w.hub))
  }

  predicate Recorded(last: map<Device, string>, rows: Snapshot) {
    forall i :: 0 <= i < |rows| ==> rows[i].device in last && last[rows[i].device] == Fingerprint(rows[i])
  }

  /** While someone is subscribed and no full frame is due, the record covers the last snapshot compared. */
  predicate RecordCurrent(w: World) {
    !w.hub.fullNext && w.hub.subscribers != {} ==> Recorded(Last(w.hub), w.compared)
  }

  /** A snapshot the delta scheme can handle: some target, and no device with two different fingerprints. */
  predicate GoodSnapshot(rows: Snapshot) {
    rows != [] && Functional(rows)
  }

  predicate GoodHistory(w: World) {
    forall i :: 0 <= i < |w.history| ==> GoodSnapshot(w.history[i])
  }

  // --- A delta brings every view up to date --------------------------------

  predicate Has(rows: Snapshot, d: Device) {
    exists i :: 0 <= i < |rows| && rows[i].device == d
  }

  predicate Functional(rows: Snapshot) {
    forall i, j :: 0 <= i < j < |rows| && rows[i].device == rows[j].device ==>
      Fingerprint(rows[i]) == Fingerprint(rows[j])
  }

  lemma HasUnfold(rows: Snapshot, d: Device)
    requires rows != []
    ensures Has(rows, d) <==> rows[0].device == d || Has(rows[1..], d)
  {
    assert forall i :: 1 <= i < |rows| ==> rows[i] == rows[1..][i - 1];
    assert forall i :: 0 <= i < |rows| - 1 ==> rows[1..][i] == rows[i + 1];
  }

  /** What is recorded for a device: its last row's fingerprint, or what was there before. */
  lemma {:induction false} RecordAt(m: map<Device, string>, rows: Snapshot, d: Device)
    ensures d in Record(m, rows) <==> d in m || Has(rows, d)
    ensures !Has(rows, d) && d in m ==> Record(m, rows)[d] == m[d]
    ensures Has(rows, d) ==>
              exists i :: 0 <= i < |rows| && rows[i].device == d && Record(m, rows)[d] == Fingerprint(rows[i])
    decreases |rows|
  {
    if rows != [] {
      HasUnfold(rows, d);
      RecordAt(m[rows[0].device := Fingerprint(rows[0])], rows[1..], d);
      if Has(rows[1..], d) {
        var i :| 0 <= i < |rows| - 1 && rows[1..][i].device == d && Record(m, rows)[d] == Fingerprint(rows[1..][i]);
        assert rows[i + 1] == rows[1..][i];
      }
    }
  }

  lemma {:induction false} MergeAt(view: View, rows: Snapshot, d: Device)
    ensures d in Merge(view, rows) <==> d in view || Has(rows, d)
    ensures !Has(rows, d) && d in view ==> Merge(view, rows)[d] == view[d]
    ensures Has(rows, d) ==>
              exists i :: 0 <= i < |rows| && rows[i].device == d && Merge(view, rows)[d] == rows[i]
    decreases |rows|
  {
    if rows != [] {
      HasUnfold(rows, d);
      MergeAt(view[rows[0].device := rows[0]], rows[1..], d);
      if Has(rows[1..], d) {
        var i :| 0 <= i < |rows| - 1 && rows[1..][i].device == d && Merge(view, rows)[d] == rows[1..][i];
        assert rows[i + 1] == rows[1..][i];
      }
    }
  }

  /** A client that merges whole frames holds what the hub records for them. */
  lemma {:induction false} MergeRecord(view: View, m: map<Device, string>, rows: Snapshot, d: Device)
    requires Has(rows, d)
    ensures d in Merge(view, rows) && d in Record(m, rows) && Fingerprint(Merge(view, rows)[d]) == Record(m, rows)[d]
    decreases |rows|
  {
    var v1, m1 := view[rows[0].device := rows[0]], m[rows[0].device := Fingerprint(rows[0])];
    HasUnfold(rows, d);
    if Has(rows[1..], d) {
      MergeRecord(v1, m1, rows[1..], d);
    } else {
      MergeAt(v1, rows[1..], d);
      RecordAt(m1, rows[1..], d);
    }
  }

  lemma {:induction false} ChangedRows(rows: Snapshot, last: map<Device, string>)
    ensures forall r :: r in Changed(rows, last) <==>
      r in rows && !(r.device in last && last[r.device] == Fingerprint(r))
    decreases |rows|
  {
    if rows != [] {
      ChangedRows(rows[1..], last);
      assert rows == [rows[0]] + rows[1..];
    }
  }

  lemma HasRow(rows: Snapshot, d: Device)
    ensures Has(rows, d) <==> exists r :: r in rows && r.device == d
  {
    if Has(rows, d) {
      var i :| 0 <= i < |rows| && rows[i].device == d;
      assert rows[i] in rows;
    }
  }

  lemma FullFrameAgrees(view: View, rows: Snapshot)
    ensures Carries(Merge(view, rows), Record(map[], rows))
  {
    forall d | d in Record(map[], rows)
      ensures d in Merge(view, rows) && Fingerprint(Merge(view, rows)[d]) == Record(map[], rows)[d]
    {
      RecordAt(map[], rows, d);
      MergeRecord(view, map[], rows, d);
    }
  }

  /** One device under a delta: the merged row and the record end up with the same fingerprint. */
  lemma DeltaAgreesAt(view: View, last: map<Device, string>, rows: Snapshot, d: Device)
    requires Carries(view, last) && Functional(rows) && d in Record(last, rows)
    ensures var merged := Merge(view, Changed(rows, last));
            d in merged && Fingerprint(merged[d]) == Record(last, rows)[d]
  {
    var changed := Changed(rows, last);
    RecordAt(last, rows, d);
    MergeAt(view, changed, d);
    ChangedRows(rows, last);
    HasRow(rows, d);
    HasRow(changed, d);
    if Has(changed, d) {
      var i :| 0 <= i < |changed| && changed[i].device == d && Merge(view, changed)[d] == changed[i];
      assert changed[i] in changed;
      SameDevice(rows, changed[i], last, d);
    } else if Has(rows, d) {
      var i :| 0 <= i < |rows| && rows[i].device == d && Record(last, rows)[d] == Fingerprint(rows[i]);
      assert rows[i] in rows;
    }
  }

  lemma SameDevice(rows: Snapshot, r: Row, last: map<Device, string>, d: Device)
    requires Functional(rows) && r in rows && r.device == d
    ensures d in Record(last, rows) && Record(last, rows)[d] == Fingerprint(r)
  {
    var j :| 0 <= j < |rows| && rows[j] == r;
    assert Has(rows, d);
    RecordAt(last, rows, d);
    var i :| 0 <= i < |rows| && rows[i].device == d && Record(last, rows)[d] == Fingerprint(rows[i]);
  }

  lemma DeltaAgrees(view: View, last: map<Device, string>, rows: Snapshot)
    requires Carries(view, last) && Functional(rows)
    ensures Carries(Merge(view, Changed(rows, last)), Record(last, rows))
  {
    forall d | d in Record(last, rows)
      ensures d in Merge(view, Changed(rows, last))
              && Fingerprint(Merge(view, Changed(rows, last))[d]) == Record(last, rows)[d]
    {
      DeltaAgreesAt(view, last, rows, d);
    }
  }

  lemma NothingChanged(last: map<Device, string>, rows: Snapshot)
    requires Changed(rows, last) == []
    ensures Recorded(last, rows)
  {
    ChangedRows(rows, last);
    forall i | 0 <= i < |rows| ensures rows[i].device in last && last[rows[i].device] == Fingerprint(rows[i]) {
      assert rows[i] in rows;
    }
  }

  /** After a comparison, every view that agreed before agrees again, and the record covers the snapshot. */
  lemma CompareAgrees(s: JobState, rows: Snapshot, view: View)
    requires GoodSnapshot(rows) && (!s.fullNext ==> Carries(view, Last(s)))
    ensures Carries(Merge(view, Frame(s, rows)), Last(Compare(s, rows)))
    ensures Recorded(Last(Compare(s, rows)), rows)
  {
    var previous := Baseline(s);
    if previous.None? {
      FullFrameAgrees(view, rows);
      RecordCovers(map[], rows);
    } else if Frame(s, rows) == [] {
      NothingChanged(previous.value, rows);
    } else {
      DeltaAgrees(view, previous.value, rows);
      RecordCovers(previous.value, rows);
    }
  }

  lemma RecordCovers(m: map<Device, string>, rows: Snapshot)
    requires Functional(rows)
    ensures Recorded(Record(m, rows), rows)
  {
    forall i | 0 <= i < |rows|
      ensures rows[i].device in Record(m, rows) && Record(m, rows)[rows[i].device] == Fingerprint(rows[i])
    {
      SameDevice(rows, rows[i], m, rows[i].device);
    }
  }

  // --- Every step keeps the views in agreement -----------------------------

  lemma SettleFrame(s: JobState, now: int, debounce: nat)
    ensures var t := Settle(s, now, debounce);
            t.subscribers == s.subscribers && t.lastTargets == s.lastTargets && t.fullNext == s.fullNext
  {
  }

  lemma DeliverAgrees(w: World, rows: Snapshot, version: nat, debounce: nat)
    requires ViewsAgree(w) && GoodSnapshot(rows)
    ensures ViewsAgree(Deliver(w, rows, version, debounce)) && RecordCurrent(Deliver(w, rows, version, debounce))
  {
    var after := Deliver(w, rows, version, debounce);
    SettleFrame(Compare(w.hub, rows), w.now, debounce);
    assert Last(after.hub) == Last(Compare(w.hub, rows));
    assert Recorded(Last(after.hub), rows) by {
      CompareRecords(w.hub, rows);
    }
    forall ws | ws in Listening(after) && ws in after.views ensures Carries(after.views[ws], Last(after.hub)) {
      CompareAgrees(w.hub, rows, w.views[ws]);
    }
  }

  lemma CompareRecords(s: JobState, rows: Snapshot)
    requires GoodSnapshot(rows)
    ensures Recorded(Last(Compare(s, rows)), rows)
  {
    if Baseline(s).None? {
      RecordCovers(map[], rows);
    } else if Frame(s, rows) == [] {
      NothingChanged(Baseline(s).value, rows);
    } else {
      RecordCovers(Baseline(s).value, rows);
    }
  }

  lemma StepAgrees(w: World, e: Event, debounce: nat)
    requires ViewsAgree(w) && RecordCurrent(w) && GoodHistory(w) && Basics(w)
    ensures ViewsAgree(Step(w, e, debounce)) && RecordCurrent(Step(w, e, debounce))
  {
    if e.ReadReturns? && Enabled(w, e) && e.version > 0 {
      DeliverAgrees(w, w.history[e.version - 1], e.version, debounce);
    } else {
      KeepsAgrees(w, e, debounce);
    }
  }

  /** Every step that compares no snapshot leaves views and record alone, or forgets the record when nobody is left. */
  lemma KeepsAgrees(w: World, e: Event, debounce: nat)
    requires ViewsAgree(w) && RecordCurrent(w) && Basics(w) && !(e.ReadReturns? && Enabled(w, e) && e.version > 0)
    ensures ViewsAgree(Step(w, e, debounce)) && RecordCurrent(Step(w, e, debounce))
  {
    if e.ReadReturns? || e.ReadFails? {
      SettleFrame(w.hub, w.now, debounce);
    } else if e.TimerFires? {
      SettleFrame(w.hub.(timer := None, firstNotifyAt := None, pushing := true), w.now, debounce);
    }
  }

  lemma StepBasics(w: World, e: Event, debounce: nat)
    requires Basics(w)
    ensures Basics(Step(w, e, debounce))
  {
    if Enabled(w, e) && (e.ReadReturns? || e.ReadFails?) {
      ReadBasics(w, e, debounce);
    } else if e.TimerFires? && Enabled(w, e) {
      FireBasics(w, debounce);
    }
  }

  lemma FireBasics(w: World, debounce: nat)
    requires Basics(w) && Enabled(w, TimerFires)
    ensures Basics(Step(w, TimerFires, debounce))
  {
  }

  lemma ReadBasics(w: World, e: Event, debounce: nat)
    requires Basics(w) && Enabled(w, e) && (e.ReadReturns? || e.ReadFails?)
    ensures Basics(Step(w, e, debounce))
  {
    if e.ReadFails? || e.version == 0 {
      SettleBasics(w, w.hub, debounce);
    } else {
      SettleBasics(w, Compare(w.hub, w.history[e.version - 1]), debounce);
    }
  }

  lemma SettleBasics(w: World, s: JobState, debounce: nat)
    requires Basics(w)
    requires s == w.hub.(lastTargets := s.lastTargets, fullNext := s.fullNext)
    ensures var t := Settle(s, w.now, debounce);
            && t.subscribers == w.hub.subscribers && !t.pushing && !t.pushAgain
            && (t.timer.Some? <==> t.firstNotifyAt.Some?)
            && (t.firstNotifyAt.Some? ==> t.firstNotifyAt.value <= w.now)
  {
  }

  /** The snapshots that the database holds are all fit for deltas. */
  predicate GoodCommits(es: seq<Event>) {
    forall i :: 0 <= i < |es| && es[i].Commits? ==> GoodSnapshot(es[i].rows)
  }

  lemma {:induction false} RunAgrees(es: seq<Event>, debounce: nat)
    requires GoodCommits(es)
    ensures var w := Run(START, es, debounce);
            Basics(w) && GoodHistory(w) && ViewsAgree(w) && RecordCurrent(w)
  {
    if es != [] {
      var before := Run(START, es[..|es| - 1], debounce);
      RunAgrees(es[..|es| - 1], debounce);
      StepAgrees(before, es[|es| - 1], debounce);
      StepBasics(before, es[|es| - 1], debounce);
      StepHistory(before, es[|es| - 1], debounce);
    }
  }

  lemma StepHistory(w: World, e: Event, debounce: nat)
    requires GoodHistory(w) && (e.Commits? ==> GoodSnapshot(e.rows))
    ensures GoodHistory(Step(w, e, debounce))
  {
  }

  /**
   * In every interleaving, an open subscriber is either still owed a full frame
   * or its merged view shows, for every target of the last snapshot the hub
   * compared, that target's state, result code and firmware.
   */
  lemma SubscribersAgree(es: seq<Event>, debounce: nat, ws: Socket)
    requires GoodCommits(es) && ws in Listening(Run(START, es, debounce))
    ensures var w := Run(START, es, debounce);
            w.hub.fullNext
            || (ws in w.views && forall i :: 0 <= i < |w.compared| ==>
                  w.compared[i].device in w.views[ws] && SameColumns(w.views[ws][w.compared[i].device], w.compared[i]))
  {
    var w := Run(START, es, debounce);
    RunAgrees(es, debounce);
    if !w.hub.fullNext {
      forall i | 0 <= i < |w.compared|
        ensures w.compared[i].device in w.views[ws] && SameColumns(w.views[ws][w.compared[i].device], w.compared[i])
      {
        var d := w.compared[i].device;
        assert d in Last(w.hub);
        FingerprintMeaning(w.views[ws][d], w.compared[i]);
      }
    }
  }

  // --- The view holds these targets and no others --------------------------

  function Devices(rows: Snapshot): set<Device> { set i | 0 <= i < |rows| :: rows[i].device }

  lemma {:induction false} MergeKeys(view: View, frame: Snapshot)
    ensures Merge(view, frame).Keys == view.Keys + Devices(frame)
    decreases |frame|
  {
    if frame != [] {
      MergeKeys(view[frame[0].device := frame[0]], frame[1..]);
      DevicesUnfold(frame);
    }
  }

  lemma DevicesUnfold(rows: Snapshot)
    requires rows != []
    ensures Devices(rows) == {rows[0].device} + Devices(rows[1..])
  {
    forall d | d in Devices(rows) ensures d in {rows[0].device} + Devices(rows[1..]) {
      var i :| 0 <= i < |rows| && rows[i].device == d;
      if i > 0 { assert rows[1..][i - 1] == rows[i]; }
    }
    forall d | d in Devices(rows[1..]) ensures d in Devices(rows) {
      var i :| 0 <= i < |rows[1..]| && rows[1..][i].device == d;
      assert rows[i + 1].device == d;
    }
  }

  lemma FrameDevices(s: JobState, rows: Snapshot)
    ensures Devices(Frame(s, rows)) <= Devices(rows)
  {
    if Baseline(s).Some? {
      var changed := Changed(rows, Baseline(s).value);
      ChangedRows(rows, Baseline(s).value);
      forall d | d in Devices(changed) ensures d in Devices(rows) {
        var i :| 0 <= i < |changed| && changed[i].device == d;
        assert changed[i] in changed;
        var k :| 0 <= k < |rows| && rows[k] == changed[i];
      }
    }
  }

  /** Every content of the job is about the same devices, and so is what was compared and what the clients hold. */
  ghost predicate About(w: World, ds: set<Device>) {
    && (forall i :: 0 <= i < |w.history| ==> Devices(w.history[i]) == ds)
    && (forall ws {:trigger w.views[ws]} :: ws in w.views ==> w.views[ws].Keys <= ds)
    && (!w.hub.fullNext && w.hub.subscribers != {} ==> Devices(w.compared) == ds)
  }

  lemma DeliverAbout(w: World, version: nat, debounce: nat, ds: set<Device>)
    requires About(w, ds) && 0 < version <= |w.history|
    ensures About(Deliver(w, w.history[version - 1], version, debounce), ds)
  {
    var rows := w.history[version - 1];
    var n := Deliver(w, rows, version, debounce);
    FrameDevices(w.hub, rows);
    forall ws {:trigger n.views[ws]} | ws in n.views ensures n.views[ws].Keys <= ds {
      MergeKeys(w.views[ws], Frame(w.hub, rows));
    }
  }

  lemma StepAbout(w: World, e: Event, debounce: nat, ds: set<Device>)
    requires About(w, ds) && (e.Commits? ==> Devices(e.rows) == ds)
    ensures About(Step(w, e, debounce), ds)
  {
    if e.ReadReturns? && Enabled(w, e) && e.version > 0 {
      DeliverAbout(w, e.version, debounce, ds);
    }
  }

  ghost predicate CommitsAbout(es: seq<Event>, ds: set<Device>) {
    forall i :: 0 <= i < |es| && es[i].Commits? ==> Devices(es[i].rows) == ds
  }

  lemma {:induction false} RunAbout(es: seq<Event>, debounce: nat, ds: set<Device>)
    requires CommitsAbout(es, ds)
    ensures About(Run(START, es, debounce), ds)
  {
    if es != [] {
      RunAbout(es[..|es| - 1], debounce, ds);
      StepAbout(Run(START, es[..|es| - 1], debounce), es[|es| - 1], debounce, ds);
    }
  }

  /**
   * When every content of the job is about the same devices, a subscriber that is not owed a full frame holds
   * exactly those devices, each as the last compared snapshot shows it.
   */
  lemma {:induction false} SubscribersExact(es: seq<Event>, debounce: nat, ws: Socket, ds: set<Device>)
    requires GoodCommits(es) && CommitsAbout(es, ds) && ws in Listening(Run(START, es, debounce))
    ensures var w := Run(START, es, debounce);
      w.hub.fullNext || (
        && ws in w.views && w.views[ws].Keys == Devices(w.compared) == ds
        && forall i :: 0 <= i < |w.compared| ==> SameColumns(w.views[ws][w.compared[i].device], w.compared[i]))
  {
    SubscribersAgree(es, debounce, ws);
    RunAbout(es, debounce, ds);
    var w := Run(START, es, debounce);
    if !w.hub.fullNext {
      forall d | d in Devices(w.compared) ensures d in w.views[ws].Keys {
        var i :| 0 <= i < |w.compared| && w.compared[i].device == d;
      }
    }
  }

  // --- Exactly which snapshots the scheme can handle -----------------------

  /** Two rows of one device that differ: comparing them a second time leaves the record and the view at odds. */
  lemma {:induction false} ConflictBreaks(rows: Snapshot)
    requires !Functional(rows)
    ensures var view, last := Merge(map[], rows), Record(map[], rows);
      Changed(rows, last) != [] && !Carries(Merge(view, Changed(rows, last)), Record(last, rows))
  {
    var view, last := Merge(map[], rows), Record(map[], rows);
    var i, j :| 0 <= i < j < |rows| && rows[i].device == rows[j].device && Fingerprint(rows[i]) != Fingerprint(rows[j]);
    var d := rows[i].device;
    var changed := Changed(rows, last);
    assert Has(rows, d);
    RecordTwice(rows, d);
    var k := if last[d] == Fingerprint(rows[i]) then j else i;
    ChangedRows(rows, last);
    assert rows[k] in rows;
    assert rows[k] in changed;
    HasRow(changed, d);
    MergeAt(view, changed, d);
    var m :| 0 <= m < |changed| && changed[m].device == d && Merge(view, changed)[d] == changed[m];
    assert changed[m] in changed;
    assert d in Record(last, rows);
    assert Fingerprint(Merge(view, changed)[d]) != Record(last, rows)[d];
  }

  /** Recording the same rows again changes nothing for their devices. */
  lemma {:induction false} RecordAgain(m: map<Device, string>, n: map<Device, string>, rows: Snapshot, d: Device)
    requires Has(rows, d)
    ensures d in Record(m, rows) && d in Record(n, rows) && Record(m, rows)[d] == Record(n, rows)[d]
    decreases |rows|
  {
    var m1, n1 := m[rows[0].device := Fingerprint(rows[0])], n[rows[0].device := Fingerprint(rows[0])];
    HasUnfold(rows, d);
    if Has(rows[1..], d) {
      RecordAgain(m1, n1, rows[1..], d);
    } else {
      RecordAt(m1, rows[1..], d);
      RecordAt(n1, rows[1..], d);
    }
  }

  lemma RecordTwice(rows: Snapshot, d: Device)
    requires Has(rows, d)
    ensures var last := Record(map[], rows);
            d in last && d in Record(last, rows) && Record(last, rows)[d] == last[d]
  {
    RecordAgain(map[], Record(map[], rows), rows, d);
  }

  /** Nothing is scheduled or in flight, and someone is subscribed. */
  predicate Quiet(w: World) {
    && w.hub.subscribers != {} && w.hub.timer.None? && w.hub.firstNotifyAt.None?
    && !w.hub.pushing && !w.hub.pushAgain && w.reading.None?
  }

  lemma {:induction false} RunJoin(w: World, es: seq<Event>, fs: seq<Event>, debounce: nat)
    ensures Run(w, es + fs, debounce) == Run(Run(w, es, debounce), fs, debounce)
  {
    if fs == [] {
      assert es + fs == es;
    } else {
      var front := fs[..|fs| - 1];
      assert (es + fs)[..|es + fs| - 1] == es + front;
      RunJoin(w, es, front, debounce);
    }
  }

  lemma RunTwo(w: World, d: Event, e: Event, debounce: nat)
    ensures Run(w, [d], debounce) == Step(w, d, debounce)
    ensures Run(w, [d, e], debounce) == Step(Step(w, d, debounce), e, debounce)
  {
    assert [d][..0] == [] && [d, e][..1] == [d];
  }

  /** A notification, its timer and the read that follows. */
  function Push(version: nat): seq<Event> { [Notifies, TimerFires] + [ReadReturns(version)] }

  /** A push of the current content changes views, baseline and nothing else that lasts. */
  lemma Pushed(w: World)
    requires Quiet(w) && w.history != []
    ensures var n, rows := Run(w, Push(|w.history|), 0), w.history[|w.history| - 1];
      && Quiet(n) && n.history == w.history && n.open == w.open && n.hub == Compare(w.hub, rows)
      && n.views == map ws | ws in w.views ::
        if ws in Listening(w) then Merge(w.views[ws], Frame(w.hub, rows)) else w.views[ws]
  {
    var v := |w.history|;
    var begun := Step(Step(w, Notifies, 0), TimerFires, 0);
    Begun(w);
    RunTwo(w, Notifies, TimerFires, 0);
    RunJoin(w, [Notifies, TimerFires], [ReadReturns(v)], 0);
    RunTwo(begun, ReadReturns(v), Notifies, 0);
    assert Finish(begun.hub, w.history[v - 1], begun.now, 0) == Compare(w.hub, w.history[v - 1]);
  }

  lemma Begun(w: World)
    requires Quiet(w)
    ensures var n := Step(Step(w, Notifies, 0), TimerFires, 0);
      && n.hub == w.hub.(pushing := true) && n.reading == Some(|w.history|)
      && n.views == w.views && n.open == w.open && n.history == w.history
  {
  }

  /** One more socket subscribes. */
  lemma Subscribed(w: World, ws: Socket)
    requires ws !in w.views
    ensures var n := Run(w, [Opens(ws), Joins(ws)], 0);
      && n.hub == Subscribe(w.hub, ws) && n.open == w.open + {ws} && n.views == w.views[ws := map[]]
      && n.history == w.history && n.reading == w.reading
  {
    RunTwo(w, Opens(ws), Joins(ws), 0);
  }

  lemma Committed(w: World, rows: Snapshot)
    ensures Run(w, [Commits(rows)], 0) == w.(history := w.history + [rows])
  {
    RunTwo(w, Commits(rows), Notifies, 0);
  }

  /** A subscriber joins, `rows` are stored and pushed. */
  function FirstPush(rows: Snapshot): seq<Event> { [Opens(0), Joins(0)] + ([Commits(rows)] + Push(1)) }

  lemma FirstPushed(rows: Snapshot)
    requires rows != []
    ensures var n := Run(START, FirstPush(rows), 0);
      && Quiet(n) && n.history == [rows] && n.open == {0} && n.views == map[0 := Merge(map[], rows)]
      && n.hub.subscribers == {0} && !n.hub.fullNext && n.hub.lastTargets == Some(Record(map[], rows))
  {
    RunJoin(START, [Opens(0), Joins(0)], [Commits(rows)] + Push(1), 0);
    Subscribed(START, 0);
    var w := Run(START, [Opens(0), Joins(0)], 0);
    RunJoin(w, [Commits(rows)], Push(1), 0);
    Committed(w, rows);
    var x := w.(history := w.history + [rows]);
    Pushed(x);
  }

  /** The run that a device with two fingerprints breaks: the same content is pushed twice. */
  lemma ConflictRun(rows: Snapshot)
    requires !Functional(rows)
    ensures !ViewsAgree(Run(START, FirstPush(rows) + Push(1), 0))
  {
    FirstPushed(rows);
    var w := Run(START, FirstPush(rows), 0);
    RunJoin(START, FirstPush(rows), Push(1), 0);
    Pushed(w);
    ConflictBreaks(rows);
    var n := Run(w, Push(1), 0);
    assert 0 in Listening(n) && 0 in n.views;
  }

  const SOME_ROWS: Snapshot := [Row(0, "pending", None, None)]

  /** A second subscriber joins, and then the job has no targets. */
  const EMPTIED: seq<Event> := [Opens(1), Joins(1)] + ([Commits([])] + Push(2))

  /** The run that an empty snapshot breaks: the newcomer's full frame is skipped and counts as sent. */
  lemma EmptyRun()
    ensures !ViewsAgree(Run(START, FirstPush(SOME_ROWS) + EMPTIED, 0))
  {
    FirstPushed(SOME_ROWS);
    var w := Run(START, FirstPush(SOME_ROWS), 0);
    RunJoin(START, FirstPush(SOME_ROWS), EMPTIED, 0);
    RunJoin(w, [Opens(1), Joins(1)], [Commits([])] + Push(2), 0);
    Subscribed(w, 1);
    var x := Run(w, [Opens(1), Joins(1)], 0);
    NewcomerSkipped(x, 1);
    RecordAt(map[], SOME_ROWS, 0);
    assert Has(SOME_ROWS, 0) by { assert SOME_ROWS[0].device == 0; }
  }

  /** An empty content, pushed when a full frame is due and something is recorded, leaves a newcomer with nothing. */
  lemma NewcomerSkipped(x: World, ws: Socket)
    requires Quiet(x) && |x.history| == 1 && x.hub.fullNext && ws in Listening(x) && ws in x.views &&
      x.views[ws] == map[]
    requires 0 in Last(x.hub)
    ensures !ViewsAgree(Run(x, [Commits([])] + Push(2), 0))
  {
    RunJoin(x, [Commits([])], Push(2), 0);
    Committed(x, []);
    var y := x.(history := x.history + [[]]);
    Pushed(y);
    var n := Run(y, Push(2), 0);
    assert ws in Listening(n) && ws in n.views && n.views[ws] == map[] && 0 in Last(n.hub);
  }

  /** The job's contents are all fit for deltas, except perhaps for `rows`. */
  ghost predicate CommitsGoodOr(es: seq<Event>, rows: Snapshot) {
    forall i :: 0 <= i < |es| && es[i].Commits? ==> GoodSnapshot(es[i].rows) || es[i].rows == rows
  }

  /** In every run from the start whose other contents are fit for deltas, storing `rows` leaves views in agreement. */
  ghost predicate Safe(rows: Snapshot) {
    forall es: seq<Event>, debounce: nat :: CommitsGoodOr(es, rows) ==> ViewsAgree(Run(START, es, debounce))
  }

  /** A snapshot is safe exactly when it has a target and gives no device two different fingerprints. */
  lemma {:induction false} DeltaExact(rows: Snapshot)
    ensures Safe(rows) <==> GoodSnapshot(rows)
  {
    if GoodSnapshot(rows) {
      GoodIsSafe(rows);
    } else if rows == [] {
      EmptyRun();
      EmptyCommits();
      Breaks(rows, FirstPush(SOME_ROWS) + EMPTIED);
    } else {
      ConflictRun(rows);
      ConflictCommits(rows);
      Breaks(rows, FirstPush(rows) + Push(1));
    }
  }

  lemma {:induction false} GoodIsSafe(rows: Snapshot)
    requires GoodSnapshot(rows)
    ensures Safe(rows)
  {
    forall es: seq<Event>, debounce: nat | CommitsGoodOr(es, rows) ensures ViewsAgree(Run(START, es, debounce)) {
      RunAgrees(es, debounce);
    }
  }

  lemma Breaks(rows: Snapshot, es: seq<Event>)
    requires CommitsGoodOr(es, rows) && !ViewsAgree(Run(START, es, 0))
    ensures !Safe(rows)
  {
  }

  lemma EmptyCommits()
    ensures CommitsGoodOr(FirstPush(SOME_ROWS) + EMPTIED, [])
  {
    assert GoodSnapshot(SOME_ROWS);
  }

  lemma ConflictCommits(rows: Snapshot)
    ensures CommitsGoodOr(FirstPush(rows) + Push(1), rows)
  {
  }

  // --- No wake-up is lost --------------------------------------------------

  predicate Served(w: World, ws: Socket)
    requires ws in w.owed && ws in w.seen
  {
    || w.seen[ws] >= w.owed[ws]
    || w.hub.timer.Some?
    || w.hub.pushAgain
    || (w.reading.Some? && w.reading.value >= w.owed[ws])
  }

  predicate Woken(w: World) {
    && (forall ws :: ws in w.owed ==> w.owed[ws] <= |w.history|)
    && (forall ws :: ws in Listening(w) && ws in w.owed && ws in w.seen ==> Served(w, ws))
  }

  /** Content is compared in the order in which it was stored. */
  predicate InOrder(w: World) {
    && w.comparedAt <= |w.history|
    && (w.reading.Some? ==> w.comparedAt <= w.reading.value <= |w.history|)
    && (forall ws :: ws in w.seen ==> w.seen[ws] <= w.comparedAt)
  }

  lemma StepInOrder(w: World, e: Event, debounce: nat)
    requires InOrder(w)
    ensures InOrder(Step(w, e, debounce)) && w.comparedAt <= Step(w, e, debounce).comparedAt
  {
  }

  lemma ScheduleArms(s: JobState, now: int, debounce: nat)
    requires s.subscribers != {}
    ensures Schedule(s, now, debounce).timer.Some?
  {
  }

  lemma SettleServes(s: JobState, now: int, debounce: nat)
    requires s.subscribers != {} && (s.pushAgain || s.timer.Some?)
    ensures Settle(s, now, debounce).timer.Some?
  {
  }

  lemma DeliverWoken(w: World, rows: Snapshot, version: nat, debounce: nat)
    requires Basics(w) && Woken(w) && InOrder(w) && w.reading.Some? && w.reading.value <= version <= |w.history|
    ensures Woken(Deliver(w, rows, version, debounce))
  {
    var after := Deliver(w, rows, version, debounce);
    forall ws | ws in Listening(after) && ws in after.owed && ws in after.seen ensures Served(after, ws) {
      assert Served(w, ws);
      if w.hub.pushAgain || w.hub.timer.Some? {
        SettleServes(Compare(w.hub, rows), w.now, debounce);
      }
    }
  }

  lemma FireWoken(w: World, debounce: nat)
    requires Basics(w) && Woken(w) && Enabled(w, TimerFires)
    ensures Woken(Step(w, TimerFires, debounce))
  {
    var after := Step(w, TimerFires, debounce);
    forall ws | ws in Listening(after) && ws in after.owed && ws in after.seen ensures Served(after, ws) {
      assert ws in w.hub.subscribers;
    }
  }

  lemma StepWoken(w: World, e: Event, debounce: nat)
    requires Basics(w) && Woken(w) && InOrder(w) && !e.ReadFails?
    ensures Woken(Step(w, e, debounce))
  {
    if Enabled(w, e) {
      match e
      case TimerFires => FireWoken(w, debounce);
      case ReadReturns(v) =>
        if v > 0 {
          DeliverWoken(w, w.history[v - 1], v, debounce);
        } else {
          GoneWoken(w, debounce);
        }
      case Notifies =>
        if w.hub.subscribers != {} { ScheduleArms(w.hub, w.now, debounce); }
      case Opens(_) => QuietWoken(w, e, debounce);
      case Joins(_) => QuietWoken(w, e, debounce);
      case Leaves(_) => QuietWoken(w, e, debounce);
      case Closes(_) => QuietWoken(w, e, debounce);
      case Commits(_) => QuietWoken(w, e, debounce);
      case Waits(_) => QuietWoken(w, e, debounce);
    }
  }

  lemma GoneWoken(w: World, debounce: nat)
    requires Basics(w) && Woken(w) && Enabled(w, ReadReturns(0))
    ensures Woken(Step(w, ReadReturns(0), debounce))
  {
    var after := Step(w, ReadReturns(0), debounce);
    forall ws | ws in Listening(after) && ws in after.owed && ws in after.seen ensures Served(after, ws) {
      assert Served(w, ws);
      if w.hub.pushAgain || w.hub.timer.Some? { SettleServes(w.hub, w.now, debounce); }
    }
  }

  lemma QuietWoken(w: World, e: Event, debounce: nat)
    requires Basics(w) && Woken(w)
    requires e.Opens? || e.Joins? || e.Leaves? || e.Closes? || e.Commits? || e.Waits?
    ensures Woken(Step(w, e, debounce))
  {
    var after := Step(w, e, debounce);
    forall ws | ws in Listening(after) && ws in after.owed && ws in after.seen ensures Served(after, ws) {
      if ws in Listening(w) { assert Served(w, ws); }
    }
  }

  /**
   * No lost wake-up: as long as reads succeed, whatever was stored when an open
   * subscriber was last notified has been compared while it listened, or a timer
   * is armed, or another push is asked for, or a read that began later is in
   * flight; and content is compared in the order it was stored.
   */
  lemma {:induction false} NoLostWakeUp(es: seq<Event>, debounce: nat)
    requires forall i :: 0 <= i < |es| ==> !es[i].ReadFails?
    ensures var w := Run(START, es, debounce); Basics(w) && Woken(w) && InOrder(w)
  {
    if es != [] {
      var before := Run(START, es[..|es| - 1], debounce);
      NoLostWakeUp(es[..|es| - 1], debounce);
      StepBasics(before, es[|es| - 1], debounce);
      StepWoken(before, es[|es| - 1], debounce);
      StepInOrder(before, es[|es| - 1], debounce);
    }
  }

  // --- Bursts are bounded --------------------------------------------------

  /** No timer is overdue. */
  predicate Prompt(w: World) { w.hub.timer.Some? ==> w.now <= w.hub.timer.value }

  predicate Timely(s: JobState, debounce: nat) {
    s.timer.Some? ==> s.firstNotifyAt.Some? && s.timer.value <= s.firstNotifyAt.value + debounce * MAX_WAIT_FACTOR
  }

  /**
   * Arming puts the deadline one window ahead, or at the burst's limit of four windows from its first notification
   * if that is nearer, and at once if that is past; a first notification starts the burst now.
   */
  lemma ScheduleDue(s: JobState, now: int, debounce: nat)
    requires s.subscribers != {}
    ensures var t := Schedule(s, now, debounce);
            && t.timer.Some? && t.firstNotifyAt.Some?
            && t.firstNotifyAt.value == (if s.firstNotifyAt.Some? then s.firstNotifyAt.value else now)
            && var limit := t.firstNotifyAt.value + 4 * debounce;
               t.timer.value == if limit < now then now else if limit < now + debounce then limit else now + debounce
  {
  }

  lemma ScheduleTimely(s: JobState, now: int, debounce: nat)
    requires Timely(s, debounce) && (s.timer.Some? <==> s.firstNotifyAt.Some?)
    requires s.timer.Some? ==> now <= s.timer.value
    ensures Timely(Schedule(s, now, debounce), debounce)
  {
    if s.subscribers != {} { ScheduleDue(s, now, debounce); }
  }

  lemma SettleTimely(w: World, s: JobState, debounce: nat)
    requires Basics(w) && Prompt(w) && Timely(w.hub, debounce)
    requires s.timer == w.hub.timer && s.firstNotifyAt == w.hub.firstNotifyAt
    ensures Timely(Settle(s, w.now, debounce), debounce)
  {
    ScheduleTimely(s.(pushing := false, pushAgain := false), w.now, debounce);
  }

  lemma StepTimely(w: World, e: Event, debounce: nat)
    requires Basics(w) && Prompt(w) && Timely(w.hub, debounce)
    ensures Timely(Step(w, e, debounce).hub, debounce)
  {
    if Enabled(w, e) {
      match e
      case Notifies => ScheduleTimely(w.hub, w.now, debounce);
      case ReadReturns(v) =>
        SettleTimely(w, if v == 0 then w.hub else Compare(w.hub, w.history[v - 1]), debounce);
      case ReadFails => SettleTimely(w, w.hub, debounce);
      case _ =>
    }
  }

  /** When timers fire on time, no burst's timer is due later than its first notification plus four windows. */
  lemma {:induction false} BurstBounded(es: seq<Event>, debounce: nat)
    requires forall i :: 0 <= i < |es| ==> Prompt(Run(START, es[..i], debounce))
    ensures Basics(Run(START, es, debounce)) && Timely(Run(START, es, debounce).hub, debounce)
  {
    if es != [] {
      var init := es[..|es| - 1];
      forall i | 0 <= i < |init| ensures Prompt(Run(START, init[..i], debounce)) {
        assert init[..i] == es[..i];
      }
      BurstBounded(init, debounce);
      assert Prompt(Run(START, es[..|es| - 1], debounce));
      StepBasics(Run(START, init, debounce), es[|es| - 1], debounce);
      StepTimely(Run(START, init, debounce), es[|es| - 1], debounce);
    }
  }

  // --- The hub -------------------------------------------------------------

  method FilterChanged(rows: Snapshot, previous: map<Device, string>) returns (changed: Snapshot)
    ensures changed == Changed(rows, previous)
  {
    changed := [];
    var i := |rows|;
    while i > 0
      invariant 0 <= i <= |rows| && changed == Changed(rows[i..], previous)
    {
      i := i - 1;
      assert rows[i..][1..] == rows[i + 1..];
      var r := rows[i];
      if !(r.device in previous && previous[r.device] == Fingerprint(r)) { changed := [r] + changed; }
    }
    assert rows[0..] == rows;
  }

  method RecordRows(m: map<Device, string>, rows: Snapshot) returns (next: map<Device, string>)
    ensures next == Record(m, rows)
  {
    next := m;
    var i := 0;
    assert rows[0..] == rows;
    while i < |rows|
      invariant 0 <= i <= |rows| && Record(next, rows[i..]) == Record(m, rows)
    {
      assert rows[i..][1..] == rows[i + 1..];
      next := next[rows[i].device := Fingerprint(rows[i])];
      i := i + 1;
    }
  }

  /** The hub with its maps and sets; `Of(j)` is what they hold for job j. */
  class OtaStreamHub {
    const debounceMs: nat
    const maxConnections: nat
    var subscribers: map<Job, set<Socket>>
    var pendingTimers: map<Job, int>
    var firstNotifyAt: map<Job, int>
    var pushing: set<Job>
    var pushAgain: set<Job>
    var lastTargets: map<Job, map<Device, string>>
    var fullNext: set<Job>
    var connectionCount: nat

    ghost predicate Valid()
      reads this
    {
      forall j :: j in subscribers ==> subscribers[j] != {}
    }

    ghost function Of(j: Job): JobState
      reads this
    {
      JobState(
        if j in subscribers then subscribers[j] else {},
        if j in pendingTimers then Some(pendingTimers[j]) else None,
        if j in firstNotifyAt then Some(firstNotifyAt[j]) else None,
        j in pushing,
        j in pushAgain,
        if j in lastTargets then Some(lastTargets[j]) else None,
        j in fullNext)
    }

    constructor (debounceMs: nat, maxConnections: nat)
      ensures Valid() && (forall j :: Of(j) == IDLE) && connectionCount == 0
      ensures this.debounceMs == debounceMs && this.maxConnections == maxConnections
    {
      this.debounceMs := debounceMs;
      this.maxConnections := maxConnections;
      subscribers, pendingTimers, firstNotifyAt := map[], map[], map[];
      pushing, pushAgain, lastTargets, fullNext, connectionCount := {}, {}, map[], {}, 0;
    }

    /** A socket over the connection cap is refused and nothing changes. */
    method Join(j: Job, ws: Socket) returns (accepted: bool)
      requires Valid()
      modifies this
      ensures Valid() && forall k :: k != j ==> Of(k) == old(Of(k))
      ensures accepted <==> old(connectionCount) < maxConnections
      ensures Of(j) == if accepted then Subscribe(old(Of(j)), ws) else old(Of(j))
      ensures accepted ==> Of(j).subscribers == old(Of(j)).subscribers + {ws} && Of(j).fullNext
      ensures connectionCount == old(connectionCount) + if accepted then 1 else 0
    {
      if connectionCount >= maxConnections { return false; }
      connectionCount := connectionCount + 1;
      var sockets := {};
      if j in subscribers { sockets := subscribers[j]; }
      subscribers := subscribers[j := sockets + {ws}];
      fullNext := fullNext + {j};
      accepted := true;
    }

    method Leave(j: Job, ws: Socket)
      requires Valid()
      modifies this
      ensures Valid() && forall k :: k != j ==> Of(k) == old(Of(k))
      ensures Of(j) == Unsubscribe(old(Of(j)), ws)
      ensures Of(j).subscribers == old(Of(j)).subscribers - {ws}
      ensures Of(j).lastTargets == if old(Of(j)).subscribers == {ws} then None else old(Of(j)).lastTargets
      ensures connectionCount == if ws in old(Of(j)).subscribers then Max(0, old(connectionCount) - 1)
        else old(connectionCount)
    {
      if j !in subscribers { return; }
      var sockets := subscribers[j];
      if ws in sockets {
        connectionCount := if connectionCount == 0 then 0 else connectionCount - 1;
      }
      sockets := sockets - {ws};
      subscribers := subscribers[j := sockets];
      if sockets == {} {
        subscribers := subscribers - {j};
        lastTargets := lastTargets - {j};
      }
    }

    method SchedulePush(j: Job, now: int)
      requires Valid()
      modifies this
      ensures Valid() && forall k :: k != j ==> Of(k) == old(Of(k))
      ensures Of(j) == Schedule(old(Of(j)), now, debounceMs)
      ensures connectionCount == old(connectionCount)
    {
      if j !in subscribers { return; }
      var first := now;
      if j in firstNotifyAt { first := firstNotifyAt[j]; }
      firstNotifyAt := firstNotifyAt[j := first];
      var elapsed := now - first;
      var delay := Max(0, Min(debounceMs, debounceMs * MAX_WAIT_FACTOR - elapsed));
      pendingTimers := pendingTimers[j := now + delay];
    }

    /** The timer callback; says whether it began to read the job. */
    method TimerFired(j: Job, now: int) returns (begins: bool)
      requires Valid() && j in pendingTimers
      modifies this
      ensures Valid() && forall k :: k != j ==> Of(k) == old(Of(k))
      ensures Of(j) == Fire(old(Of(j)), now, debounceMs)
      ensures begins <==> StartsRead(old(Of(j)))
    {
      pendingTimers := pendingTimers - {j};
      firstNotifyAt := firstNotifyAt - {j};
      if j in pushing {
        pushAgain := pushAgain + {j};
        return false;
      }
      pushing := pushing + {j};
      if j !in subscribers {
        PushSettled(j, now);
        return false;
      }
      begins := true;
    }

    /** What runs when a push is over, however it ended. */
    method PushSettled(j: Job, now: int)
      requires Valid()
      modifies this
      ensures Valid() && forall k :: k != j ==> Of(k) == old(Of(k))
      ensures Of(j) == Settle(old(Of(j)), now, debounceMs)
    {
      pushing := pushing - {j};
      if j in pushAgain {
        pushAgain := pushAgain - {j};
        SchedulePush(j, now);
      }
    }

    /** A read came back: the frame to send, if any, and the sockets it goes to. */
    method PushReturned(j: Job, rows: Snapshot, now: int) returns (frame: Snapshot, receivers: set<Socket>)
      requires Valid()
      modifies this
      ensures Valid() && forall k :: k != j ==> Of(k) == old(Of(k))
      ensures Of(j) == Finish(old(Of(j)), rows, now, debounceMs)
      ensures frame == Frame(old(Of(j)), rows)
      ensures receivers == if frame == [] then {} else old(Of(j)).subscribers
    {
      var forceFull := j in fullNext;
      fullNext := fullNext - {j};
      receivers := {};
      if forceFull || j !in lastTargets {
        frame := rows;
        if |frame| > 0 {
          var next := RecordRows(map[], rows);
          lastTargets := lastTargets[j := next];
        }
      } else {
        frame := FilterChanged(rows, lastTargets[j]);
        if |frame| > 0 {
          var next := RecordRows(lastTargets[j], rows);
          lastTargets := lastTargets[j := next];
        }
      }
      assert Of(j) == Compare(old(Of(j)), rows);
      if |frame| > 0 && j in subscribers { receivers := subscribers[j]; }
      PushSettled(j, now);
    }
  }
}
