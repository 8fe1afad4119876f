/** The broker's bounded, per-device-ordered uplink executor. */
module UplinkQueue {
  import opened Bytes
  import opened MapTotals

  /** A device UID; the queue only ever compares them. */
  datatype Device = Device(uid: string)

  /** One accepted uplink; `handler` stands for the closure the queue runs. */
  datatype Work = Work(device: Device, byteSize: nat, handler: int)

  datatype Limits = Limits(concurrency: nat, capacity: nat, maxBytes: nat) {
    predicate Valid() { 0 < concurrency <= capacity && 0 < maxBytes }
  }

  /**
   * `inFlight` holds the work captured by each running handler's completion
   * callback. `accepted`, `started` and `finished` are histories: the orders in
   * which work was admitted, handlers were started, and handlers completed.
   */
  datatype State = State(
    byDevice: map<Device, seq<Work>>,
    activeDevices: set<Device>,
    readyDevices: seq<Device>,
    running: int,
    outstanding: int,
    outstandingBytes: int,
    inFlight: map<Device, Work>,
    accepted: seq<Work>,
    started: seq<Work>,
    finished: seq<Work>
  )

  const EMPTY := State(map[], {}, [], 0, 0, 0, map[], [], [], [])

  function Queue(s: State, d: Device): seq<Work> {
    if d in s.byDevice then s.byDevice[d] else []
  }

  function RunningOf(s: State, d: Device): seq<Work> {
    if d in s.inFlight then [s.inFlight[d]] else []
  }

  // --- Steps ---------------------------------------------------------------

  /** One iteration of the drain loop, with both of its `continue` guards. */
  function DrainOne(s: State): State
    requires s.readyDevices != []
  {
    var d := s.readyDevices[0];
    var shifted := s.(readyDevices := s.readyDevices[1..]);
    if d in s.activeDevices || Queue(s, d) == [] then shifted
    else
      var work := s.byDevice[d][0];
      shifted.(
        byDevice := s.byDevice[d := s.byDevice[d][1..]],
        activeDevices := s.activeDevices + {d},
        running := s.running + 1,
        inFlight := s.inFlight[d := work],
        started := s.started + [work])
  }

  function Drain(l: Limits, s: State): State
    decreases |s.readyDevices|
  {
    if s.running < l.concurrency && s.readyDevices != [] then Drain(l, DrainOne(s)) else s
  }

  predicate Admits(l: Limits, s: State, w: Work) {
    s.outstanding < l.capacity && s.outstandingBytes + w.byteSize <= l.maxBytes
  }

  /** Admission without the drain that follows it. */
  function Admit(s: State, w: Work): State {
    var q := Queue(s, w.device);
    s.(
      byDevice := s.byDevice[w.device := q + [w]],
      outstanding := s.outstanding + 1,
      outstandingBytes := s.outstandingBytes + w.byteSize,
      readyDevices := if q == [] && w.device !in s.activeDevices
                      then s.readyDevices + [w.device] else s.readyDevices,
      accepted := s.accepted + [w])
  }

  function Enqueue(l: Limits, s: State, w: Work): State {
    if Admits(l, s, w) then Drain(l, Admit(s, w)) else s
  }

  /** A handler's completion callback without the drain that follows it. */
  function Retire(s: State, d: Device): State
    requires d in s.inFlight
  {
    var freed := s.(
      running := s.running - 1,
      outstanding := s.outstanding - 1,
      outstandingBytes := s.outstandingBytes - s.inFlight[d].byteSize,
      activeDevices := s.activeDevices - {d},
      inFlight := s.inFlight - {d},
      finished := s.finished + [s.inFlight[d]]);
    if Queue(s, d) != [] then freed.(readyDevices := s.readyDevices + [d])
    else freed.(byDevice := s.byDevice - {d})
  }

  function Complete(l: Limits, s: State, d: Device): State
    requires d in s.inFlight
  {
    Drain(l, Retire(s, d))
  }

  /** Everything that can happen to the queue, in any order. */
  datatype Event = Offered(work: Work) | Finished(device: Device)

  /** A handler that is not running cannot finish; such an event is no event. */
  predicate Completes(s: State, e: Event) {
    e.Finished? && e.device in s.inFlight
  }

  function Step(l: Limits, s: State, e: Event): State {
    match e
    case Offered(w) => Enqueue(l, s, w)
    case Finished(d) => if d in s.inFlight then Complete(l, s, d) else s
  }

  function Run(l: Limits, s: State, es: seq<Event>): State
    decreases |es|
  {
    if es == [] then s else Step(l, Run(l, s, es[..|es| - 1]), es[|es| - 1])
  }

  /** How many handlers complete along the run. */
  function Completions(l: Limits, s: State, es: seq<Event>): nat
    decreases |es|
  {
    if es == [] then 0
    else
      var before := es[..|es| - 1];
      Completions(l, s, before) + (if Completes(Run(l, s, before), es[|es| - 1]) then 1 else 0)
  }

  // --- Invariants ----------------------------------------------------------

  function QueueLength(q: seq<Work>): nat { |q| }

  function WorkBytes(w: Work): nat { w.byteSize }

  function QueueBytes(q: seq<Work>): nat {
    if q == [] then 0 else QueueBytes(q[..|q| - 1]) + q[|q| - 1].byteSize
  }

  /** The items of one device, in order. */
  function Of(d: Device, ws: seq<Work>): seq<Work> {
    if ws == [] then []
    else
      var last := ws[|ws| - 1];
      Of(d, ws[..|ws| - 1]) + (if last.device == d then [last] else [])
  }

  ghost predicate Accounted(l: Limits, s: State) {
    && s.activeDevices == s.inFlight.Keys
    && s.running == |s.activeDevices| <= l.concurrency
    && s.outstanding == s.running + Total(s.byDevice, QueueLength) <= l.capacity
    && s.outstandingBytes == Total(s.inFlight, WorkBytes) + Total(s.byDevice, QueueBytes) <= l.maxBytes
  }

  ghost predicate Listed(s: State) {
    && (forall i, j :: 0 <= i < j < |s.readyDevices| ==> s.readyDevices[i] != s.readyDevices[j])
    && (forall d {:trigger d in s.readyDevices} :: d in s.readyDevices <==> d !in s.activeDevices && Queue(s, d) != [])
    && (forall d :: d in s.activeDevices ==> d in s.byDevice)
    && (forall d :: d in s.byDevice && s.byDevice[d] == [] ==> d in s.activeDevices)
  }

  ghost predicate Ordered(s: State) {
    && (forall d {:trigger Of(d, s.accepted)} :: Of(d, s.accepted) == Of(d, s.started) + Queue(s, d))
    && (forall d, i :: d in s.byDevice && 0 <= i < |s.byDevice[d]| ==> s.byDevice[d][i].device == d)
    && (forall d {:trigger Of(d, s.finished)} :: Of(d, s.started) == Of(d, s.finished) + RunningOf(s, d))
    && (forall d :: d in s.inFlight ==> s.inFlight[d].device == d)
  }

  ghost predicate Inv(l: Limits, s: State) {
    l.Valid() && Accounted(l, s) && Listed(s) && Ordered(s)
  }

  /** No slot is left idle while a device is ready. */
  ghost predicate WorkConserving(l: Limits, s: State) {
    s.running == l.concurrency || s.readyDevices == []
  }

  // --- Each step keeps the invariants --------------------------------------

  lemma OfAppend(d: Device, ws: seq<Work>, w: Work)
    ensures Of(d, ws + [w]) == Of(d, ws) + (if w.device == d then [w] else [])
  {
    assert (ws + [w])[..|ws|] == ws;
  }

  lemma QueueBytesAppend(q: seq<Work>, w: Work)
    ensures QueueBytes(q + [w]) == QueueBytes(q) + w.byteSize
  {
    assert (q + [w])[..|q|] == q;
  }

  lemma {:induction false} QueueBytesTail(q: seq<Work>)
    requires q != []
    ensures QueueBytes(q) == q[0].byteSize + QueueBytes(q[1..])
  {
    if |q| == 1 {
      assert q[..0] == [] == q[1..];
    } else {
      QueueBytesTail(q[..|q| - 1]);
      assert q[..|q| - 1][1..] == q[1..][..|q| - 2];
    }
  }

  /** Neither guard of the drain loop fires on a listed state. */
  lemma HeadIsReady(s: State)
    requires Listed(s) && s.readyDevices != []
    ensures Queue(s, s.readyDevices[0]) != [] && s.readyDevices[0] !in s.activeDevices
  {
    assert s.readyDevices[0] in s.readyDevices;
  }

  lemma {:induction false} DrainOneAccounted(l: Limits, s: State)
    requires Accounted(l, s) && s.running < l.concurrency && s.readyDevices != []
    requires Queue(s, s.readyDevices[0]) != [] && s.readyDevices[0] !in s.activeDevices
    ensures Accounted(l, DrainOne(s))
  {
    var d := s.readyDevices[0];
    var q := s.byDevice[d];
    assert DrainOne(s).activeDevices == DrainOne(s).inFlight.Keys;
    TotalUpdate(s.byDevice, QueueLength, d, q[1..]);
    TotalUpdate(s.byDevice, QueueBytes, d, q[1..]);
    TotalUpdate(s.inFlight, WorkBytes, d, q[0]);
    QueueBytesTail(q);
  }

  lemma DrainOneListed(s: State)
    requires Listed(s) && s.readyDevices != []
    requires Queue(s, s.readyDevices[0]) != [] && s.readyDevices[0] !in s.activeDevices
    ensures Listed(DrainOne(s))
  {
    var d := s.readyDevices[0];
    var t := DrainOne(s);
    assert s.readyDevices == [d] + t.readyDevices;
    forall e ensures e in t.readyDevices <==> e !in t.activeDevices && Queue(t, e) != [] {
      if e == d {
        assert d !in t.readyDevices;
      } else {
        assert e in s.readyDevices <==> e in t.readyDevices;
      }
    }
  }

  lemma {:induction false} DrainOneOrdered(s: State)
    requires Ordered(s) && s.readyDevices != [] && s.activeDevices == s.inFlight.Keys
    requires Queue(s, s.readyDevices[0]) != [] && s.readyDevices[0] !in s.activeDevices
    ensures Ordered(DrainOne(s))
  {
    var d := s.readyDevices[0];
    var q := s.byDevice[d];
    var t := DrainOne(s);
    forall e ensures Of(e, t.accepted) == Of(e, t.started) + Queue(t, e) {
      DrainOneOrderedOne(s, e);
    }
    forall e ensures Of(e, t.started) == Of(e, t.finished) + RunningOf(t, e) {
      assert Of(e, s.started) == Of(e, s.finished) + RunningOf(s, e);
      OfAppend(e, s.started, q[0]);
    }
  }

  lemma DrainOneOrderedOne(s: State, e: Device)
    requires s.readyDevices != []
    requires Queue(s, s.readyDevices[0]) != [] && s.readyDevices[0] !in s.activeDevices
    requires Queue(s, s.readyDevices[0])[0].device == s.readyDevices[0]
    requires Of(e, s.accepted) == Of(e, s.started) + Queue(s, e)
    ensures Of(e, s.accepted) == Of(e, DrainOne(s).started) + Queue(DrainOne(s), e)
  {
    var d := s.readyDevices[0];
    var q := s.byDevice[d];
    OfAppend(e, s.started, q[0]);
    if e == d {
      HeadTail(q);
      Assoc(Of(d, s.started), [q[0]], q[1..]);
    }
  }

  lemma DrainOneInv(l: Limits, s: State)
    requires Inv(l, s) && s.running < l.concurrency && s.readyDevices != []
    ensures Inv(l, DrainOne(s))
  {
    HeadIsReady(s);
    DrainOneAccounted(l, s);
    DrainOneListed(s);
    DrainOneOrdered(s);
  }

  lemma {:induction false} DrainInv(l: Limits, s: State)
    requires Inv(l, s)
    ensures Inv(l, Drain(l, s)) && WorkConserving(l, Drain(l, s))
    decreases |s.readyDevices|
  {
    if s.running < l.concurrency && s.readyDevices != [] {
      DrainOneInv(l, s);
      DrainInv(l, DrainOne(s));
    }
  }

  /** How many ready devices a drain starts: one per free slot, as far as they go. */
  function Startable(l: Limits, s: State): nat
    requires s.running <= l.concurrency
  {
    if l.concurrency - s.running < |s.readyDevices| then l.concurrency - s.running else |s.readyDevices|
  }

  /** The items that head the queues of the given devices. */
  function Heads(s: State, ds: seq<Device>): seq<Work> {
    if ds == [] then [] else Queue(s, ds[0])[..if Queue(s, ds[0]) == [] then 0 else 1] + Heads(s, ds[1..])
  }

  lemma {:induction false} HeadsFrame(s: State, t: State, ds: seq<Device>)
    requires forall d :: d in ds ==> Queue(s, d) == Queue(t, d)
    ensures Heads(s, ds) == Heads(t, ds)
  {
    if ds != [] {
      assert ds[0] in ds;
      HeadsFrame(s, t, ds[1..]);
    }
  }

  lemma HeadsShift(s: State, k: nat)
    requires Listed(s) && 0 < k <= |s.readyDevices|
    requires Queue(s, s.readyDevices[0]) != [] && s.readyDevices[0] !in s.activeDevices
    ensures Heads(s, s.readyDevices[..k])
         == [Queue(s, s.readyDevices[0])[0]] + Heads(DrainOne(s), DrainOne(s).readyDevices[..k - 1])
  {
    var d, t := s.readyDevices[0], DrainOne(s);
    var front := s.readyDevices[..k];
    assert front[1..] == t.readyDevices[..k - 1];
    assert d !in front[1..];
    HeadsFrame(s, t, front[1..]);
    assert Queue(s, d)[..1] == [Queue(s, d)[0]];
  }

  lemma {:induction false} DrainShifts(l: Limits, s: State)
    requires s.running <= l.concurrency && Listed(s)
    ensures Drain(l, s).readyDevices == s.readyDevices[Startable(l, s)..]
    ensures Drain(l, s).running == s.running + Startable(l, s)
    decreases |s.readyDevices|
  {
    if s.running < l.concurrency && s.readyDevices != [] {
      HeadIsReady(s);
      DrainOneListed(s);
      DrainShifts(l, DrainOne(s));
    }
  }

  /** Draining starts the heads of the first ready devices, in list order, and skips none. */
  lemma {:induction false} DrainStartsHeads(l: Limits, s: State)
    requires s.running <= l.concurrency && Listed(s)
    ensures Drain(l, s).started == s.started + Heads(s, s.readyDevices[..Startable(l, s)])
    decreases |s.readyDevices|
  {
    if s.running < l.concurrency && s.readyDevices != [] {
      HeadIsReady(s);
      DrainOneListed(s);
      var t := DrainOne(s);
      DrainStartsHeads(l, t);
      HeadsShift(s, Startable(l, s));
      assert Startable(l, t) == Startable(l, s) - 1;
    }
  }

  lemma AdmitAccounted(l: Limits, s: State, w: Work)
    requires Accounted(l, s) && Admits(l, s, w)
    ensures Accounted(l, Admit(s, w))
  {
    var q := Queue(s, w.device);
    TotalUpdate(s.byDevice, QueueLength, w.device, q + [w]);
    TotalUpdate(s.byDevice, QueueBytes, w.device, q + [w]);
    QueueBytesAppend(q, w);
  }

  lemma AdmitListed(s: State, w: Work)
    requires Listed(s)
    ensures Listed(Admit(s, w))
  {
    if Queue(s, w.device) == [] && w.device !in s.activeDevices {
      assert w.device !in s.readyDevices;
    }
  }

  lemma AdmitOrdered(s: State, w: Work)
    requires Ordered(s)
    ensures Ordered(Admit(s, w))
  {
    var t := Admit(s, w);
    forall e ensures Of(e, t.accepted) == Of(e, t.started) + Queue(t, e) {
      OfAppend(e, s.accepted, w);
    }
  }

  lemma AdmitInv(l: Limits, s: State, w: Work)
    requires Inv(l, s) && Admits(l, s, w)
    ensures Inv(l, Admit(s, w))
  {
    AdmitAccounted(l, s, w);
    AdmitListed(s, w);
    AdmitOrdered(s, w);
  }

  lemma RetireAccounted(l: Limits, s: State, d: Device)
    requires Accounted(l, s) && d in s.inFlight && d in s.byDevice
    ensures Accounted(l, Retire(s, d))
  {
    assert Retire(s, d).activeDevices == Retire(s, d).inFlight.Keys;
    TotalRemove(s.inFlight, WorkBytes, d);
    TotalRemove(s.byDevice, QueueLength, d);
    TotalRemove(s.byDevice, QueueBytes, d);
  }

  lemma RetireListed(s: State, d: Device)
    requires Listed(s) && d in s.inFlight && d in s.activeDevices
    ensures Listed(Retire(s, d))
  {
    assert d !in s.readyDevices;
  }

  lemma RetireOrdered(s: State, d: Device)
    requires Ordered(s) && d in s.inFlight
    ensures Ordered(Retire(s, d))
  {
    var t := Retire(s, d);
    forall e ensures Of(e, t.accepted) == Of(e, t.started) + Queue(t, e) {
      assert Of(e, s.accepted) == Of(e, s.started) + Queue(s, e);
    }
    forall e ensures Of(e, t.started) == Of(e, t.finished) + RunningOf(t, e) {
      assert Of(e, s.started) == Of(e, s.finished) + RunningOf(s, e);
      OfAppend(e, s.finished, s.inFlight[d]);
    }
  }

  lemma RetireInv(l: Limits, s: State, d: Device)
    requires Inv(l, s) && d in s.inFlight
    ensures Inv(l, Retire(s, d))
  {
    RetireAccounted(l, s, d);
    RetireListed(s, d);
    RetireOrdered(s, d);
  }

  lemma StepInv(l: Limits, s: State, e: Event)
    requires Inv(l, s) && WorkConserving(l, s)
    ensures Inv(l, Step(l, s, e)) && WorkConserving(l, Step(l, s, e))
  {
    match e
    case Offered(w) =>
      if Admits(l, s, w) {
        AdmitInv(l, s, w);
        DrainInv(l, Admit(s, w));
      }
    case Finished(d) =>
      if d in s.inFlight {
        RetireInv(l, s, d);
        DrainInv(l, Retire(s, d));
      }
  }

  lemma {:induction false} RunInvFrom(l: Limits, s: State, es: seq<Event>)
    requires Inv(l, s) && WorkConserving(l, s)
    ensures Inv(l, Run(l, s, es)) && WorkConserving(l, Run(l, s, es))
    decreases |es|
  {
    if es != [] {
      RunInvFrom(l, s, es[..|es| - 1]);
      StepInv(l, Run(l, s, es[..|es| - 1]), es[|es| - 1]);
    }
  }

  lemma EmptyInv(l: Limits)
    requires l.Valid()
    ensures Inv(l, EMPTY) && WorkConserving(l, EMPTY)
  {
  }

  // --- Main results --------------------------------------------------------

  /** Accounting and work conservation over every sequence of offers and completions. */
  lemma SchedulerAccounting(l: Limits, es: seq<Event>)
    requires l.Valid()
    ensures var s := Run(l, EMPTY, es);
            && Accounted(l, s)
            && Listed(s)
            && WorkConserving(l, s)
  {
    EmptyInv(l);
    RunInvFrom(l, EMPTY, es);
  }

  /**
   * One device's uplinks, in acceptance order, are first those whose handlers
   * have completed, then at most one whose handler is running, then those still
   * queued: none is lost, repeated, overtaken or run beside another.
   */
  lemma PerDeviceOrder(l: Limits, es: seq<Event>, d: Device)
    requires l.Valid()
    ensures var s := Run(l, EMPTY, es);
            && Of(d, s.accepted) == Of(d, s.finished) + RunningOf(s, d) + Queue(s, d)
            && Of(d, s.started) == Of(d, s.finished) + RunningOf(s, d)
  {
    EmptyInv(l);
    RunInvFrom(l, EMPTY, es);
  }

  /** With every slot taken, an offer only appends to the ready list. */
  lemma OfferKeepsPlace(l: Limits, s: State, w: Work, p: nat)
    requires Inv(l, s) && WorkConserving(l, s) && p < |s.readyDevices|
    ensures var t := Enqueue(l, s, w);
            && p < |t.readyDevices| && t.readyDevices[p] == s.readyDevices[p]
            && t.started == s.started
            && Queue(s, s.readyDevices[p]) <= Queue(t, s.readyDevices[p])
  {
    if Admits(l, s, w) {
      assert Drain(l, Admit(s, w)) == Admit(s, w);
    }
  }

  /** With every slot taken, a completion starts exactly the head of the ready list. */
  lemma CompletionAdvances(l: Limits, s: State, d: Device, p: nat)
    requires Inv(l, s) && WorkConserving(l, s) && p < |s.readyDevices| && d in s.inFlight
    ensures var t := Complete(l, s, d);
            && Queue(s, s.readyDevices[0]) != []
            && t.started == s.started + [Queue(s, s.readyDevices[0])[0]]
            && s.readyDevices[0] in t.inFlight
            && (p > 0 ==> p - 1 < |t.readyDevices| && t.readyDevices[p - 1] == s.readyDevices[p]
                          && Queue(t, s.readyDevices[p]) == Queue(s, s.readyDevices[p]))
  {
    HeadIsReady(s);
    assert s.readyDevices[p] in s.readyDevices;
    var r := Retire(s, d);
    assert Queue(r, s.readyDevices[0]) == Queue(s, s.readyDevices[0]);
    assert Drain(l, r) == DrainOne(r);
  }

  /**
   * Fairness, first half: while at most p handlers have completed, a device at
   * place p only moves forward one place per completion, and does not start.
   */
  lemma {:induction false} WaitsItsTurn(l: Limits, s: State, es: seq<Event>, p: nat)
    requires Inv(l, s) && WorkConserving(l, s) && p < |s.readyDevices|
    requires Completions(l, s, es) <= p
    ensures Waits(s, Run(l, s, es), p, Completions(l, s, es))
    decreases |es|
  {
    if es != [] {
      var before := es[..|es| - 1];
      var t, k := Run(l, s, before), Completions(l, s, before);
      WaitsItsTurn(l, s, before, p);
      RunInvFrom(l, s, before);
      TurnStep(l, t, es[|es| - 1], p - k);
      WaitsCompose(s, t, Step(l, t, es[|es| - 1]), p, k, Completions(l, s, es) - k);
    }
  }

  lemma WaitsCompose(s: State, t: State, u: State, p: nat, j: nat, k: nat)
    requires j + k <= p < |s.readyDevices|
    requires Waits(s, t, p, j) && Waits(t, u, p - j, k)
    ensures Waits(s, u, p, j + k)
  {
  }

  /** From s to t, the device at place p moved k places forward and started nothing. */
  ghost predicate Waits(s: State, t: State, p: nat, k: nat)
    requires k <= p < |s.readyDevices|
  {
    var d := s.readyDevices[p];
    && p - k < |t.readyDevices| && t.readyDevices[p - k] == d
    && Of(d, t.started) == Of(d, s.started)
    && Queue(s, d) <= Queue(t, d)
  }

  lemma TurnStep(l: Limits, s: State, e: Event, p: nat)
    requires Inv(l, s) && WorkConserving(l, s) && p < |s.readyDevices|
    requires Completes(s, e) ==> p > 0
    ensures Waits(s, Step(l, s, e), p, if Completes(s, e) then 1 else 0)
  {
    match e
    case Offered(w) =>
      OfferKeepsPlace(l, s, w, p);
    case Finished(f) =>
      if f in s.inFlight {
        CompletionAdvances(l, s, f, p);
        HeadIsReady(s);
        OfAppend(s.readyDevices[p], s.started, Queue(s, s.readyDevices[0])[0]);
      }
  }

  /**
   * Fairness, second half: the (p+1)-th completion starts the device that was
   * at place p, with the item that headed its queue all along, whatever was
   * offered in between.
   */
  lemma StartsAtItsTurn(l: Limits, s: State, es: seq<Event>, last: Event, p: nat)
    requires Inv(l, s) && WorkConserving(l, s) && p < |s.readyDevices|
    requires Completions(l, s, es) == p
    requires Completes(Run(l, s, es), last)
    ensures var d := s.readyDevices[p];
            var before := Run(l, s, es);
            var after := Run(l, s, es + [last]);
            && Queue(s, d) != []
            && after.started == before.started + [Queue(s, d)[0]]
            && d in after.inFlight
  {
    var d := s.readyDevices[p];
    assert d in s.readyDevices;
    WaitsItsTurn(l, s, es, p);
    RunInvFrom(l, s, es);
    var before := Run(l, s, es);
    CompletionAdvances(l, before, last.device, 0);
    assert (es + [last])[..|es|] == es;
  }

  // --- The executor itself -------------------------------------------------

  /** The queue object; `Model()` is its state in the terms above. */
  class UplinkWorkQueue {
    const limits: Limits
    var byDevice: map<Device, seq<Work>>
    var activeDevices: set<Device>
    var readyDevices: seq<Device>
    var running: int
    var outstanding: int
    var outstandingBytes: int
    var inFlight: map<Device, Work>
    ghost var accepted: seq<Work>
    ghost var started: seq<Work>
    ghost var finished: seq<Work>

    ghost function Model(): State
      reads this
    {
      State(byDevice, activeDevices, readyDevices, running, outstanding, outstandingBytes,
            inFlight, accepted, started, finished)
    }

    /** A caller's limits must pass the range checks that the constructor makes. */
    constructor (limits: Limits)
      requires limits.Valid()
      ensures Model() == EMPTY && this.limits == limits
      ensures Inv(limits, Model()) && WorkConserving(limits, Model())
    {
      this.limits := limits;
      byDevice, activeDevices, readyDevices := map[], {}, [];
      running, outstanding, outstandingBytes := 0, 0, 0;
      inFlight, accepted, started, finished := map[], [], [], [];
      new;
      EmptyInv(limits);
    }

    method Offer(work: Work) returns (ok: bool)
      modifies this
      ensures ok <==> old(outstanding) < limits.capacity && old(outstandingBytes) + work.byteSize <= limits.maxBytes
      ensures Model() == Step(limits, old(Model()), Offered(work))
      ensures accepted == if ok then old(accepted) + [work] else old(accepted)
    {
      if outstanding >= limits.capacity { return false; }
      if outstandingBytes + work.byteSize > limits.maxBytes { return false; }
      var queue := [];
      if work.device in byDevice { queue := byDevice[work.device]; }
      var wasEmpty := |queue| == 0;
      byDevice := byDevice[work.device := queue + [work]];
      outstanding := outstanding + 1;
      outstandingBytes := outstandingBytes + work.byteSize;
      accepted := accepted + [work];
      if wasEmpty && work.device !in activeDevices {
        readyDevices := readyDevices + [work.device];
      }
      assert Model() == Admit(old(Model()), work);
      DrainReady();
      ok := true;
    }

    method DrainReady()
      modifies this
      ensures Model() == Drain(limits, old(Model()))
      ensures accepted == old(accepted)
    {
      while running < limits.concurrency && |readyDevices| > 0
        invariant Drain(limits, Model()) == Drain(limits, old(Model()))
        invariant accepted == old(accepted)
        decreases |readyDevices|
      {
        StartNext();
      }
    }

    /** Takes the head of the ready list; its handler starts unless one is running or it has nothing queued. */
    method StartNext()
      requires |readyDevices| > 0
      modifies this
      ensures Model() == DrainOne(old(Model()))
      ensures accepted == old(accepted) && |readyDevices| < |old(readyDevices)|
    {
      var d := readyDevices[0];
      readyDevices := readyDevices[1..];
      if d in activeDevices || d !in byDevice || |byDevice[d]| == 0 { return; }
      var work := byDevice[d][0];
      byDevice := byDevice[d := byDevice[d][1..]];
      activeDevices := activeDevices + {d};
      running := running + 1;
      inFlight := inFlight[d := work];
      started := started + [work];
    }

    /** The completion callback of the handler running for `d`. */
    method Finish(d: Device)
      requires d in inFlight
      modifies this
      ensures Model() == Step(limits, old(Model()), Finished(d))
    {
      running := running - 1;
      outstanding := outstanding - 1;
      outstandingBytes := outstandingBytes - inFlight[d].byteSize;
      activeDevices := activeDevices - {d};
      finished := finished + [inFlight[d]];
      inFlight := inFlight - {d};
      if d in byDevice && |byDevice[d]| > 0 {
        readyDevices := readyDevices + [d];
      } else {
        byDevice := byDevice - {d};
      }
      assert Model() == Retire(old(Model()), d);
      DrainReady();
    }
  }
}
