/**
 * The OTA job stream as its clients see it, told from the events alone: who is
 * subscribed, what a subscriber holds, and what becomes of a notification.
 */
module OtaListeners {
  import opened Bytes
  import opened Histories
  import opened OtaHub

  // --- Who listens, told from the events -----------------------------------

  /** The socket joined after it was opened, and has not left since. */
  predicate Subscribed(es: seq<Event>, ws: Socket) { JoinedSince(es, Opens(ws), Joins(ws), Leaves(ws)) }

  /** The socket was opened, and has not closed since. */
  predicate StillOpen(es: seq<Event>, ws: Socket) { OpenSince(es, Opens(ws), Closes(ws)) }

  /** Over every run, the hub's subscribers and open sockets are those that the events tell. */
  lemma {:induction false} ListenersAsTold(es: seq<Event>, debounce: nat, ws: Socket)
    ensures var w := Run(START, es, debounce);
      && (ws in w.views <==> Opens(ws) in es)
      && (ws in w.hub.subscribers <==> Subscribed(es, ws))
      && (ws in w.open <==> StillOpen(es, ws))
  {
    if es != [] {
      var front, e := es[..|es| - 1], es[|es| - 1];
      ListenersAsTold(front, debounce, ws);
      assert front + [e] == es;
      JoinedStep(front, e, Opens(ws), Joins(ws), Leaves(ws));
      OpenStep(front, e, Opens(ws), Closes(ws));
      ListenersStep(Run(START, front, debounce), e, debounce, ws);
    }
  }

  lemma ListenersStep(w: World, e: Event, debounce: nat, ws: Socket)
    ensures var n := Step(w, e, debounce);
      && (ws in n.views <==> ws in w.views || e == Opens(ws))
      && (ws in n.hub.subscribers <==>
        e != Leaves(ws) && (ws in w.hub.subscribers || (e == Joins(ws) && ws in w.views)))
      && (ws in n.open <==>
            if e == Opens(ws) && ws !in w.views then true else e != Closes(ws) && ws in w.open)
  {
    if e.ReadReturns? && Enabled(w, e) && e.version > 0 {
      SettleFrame(Compare(w.hub, w.history[e.version - 1]), w.now, debounce);
    } else if e.ReadReturns? || e.ReadFails? {
      SettleFrame(w.hub, w.now, debounce);
    } else if e.TimerFires? {
      SettleFrame(w.hub.(timer := None, firstNotifyAt := None, pushing := true), w.now, debounce);
    }
  }

  // --- Contents ------------------------------------------------------------

  /** The successive contents of the job. */
  function Contents(es: seq<Event>): seq<Snapshot> {
    if es == [] then []
    else
      var front, e := Contents(es[..|es| - 1]), es[|es| - 1];
      if e.Commits? then front + [e.rows] else front
  }

  lemma {:induction false} ContentsAsTold(es: seq<Event>, debounce: nat)
    ensures var w := Run(START, es, debounce);
      && w.history == Contents(es) && w.comparedAt <= |w.history|
      && (w.comparedAt > 0 ==> w.compared == w.history[w.comparedAt - 1])
  {
    if es != [] { ContentsAsTold(es[..|es| - 1], debounce); }
  }

  // --- Notifications -------------------------------------------------------

  lemma OwedStep(w: World, e: Event, debounce: nat, ws: Socket, c: nat)
    requires Basics(w) && ws in w.hub.subscribers && ws in w.owed && e != Leaves(ws)
    requires |w.history| >= c && (w.owed[ws] >= c || e.Notifies?)
    ensures var n := Step(w, e, debounce); ws in n.owed && n.owed[ws] >= c && |n.history| >= c
  {
  }

  /** After a notification, a socket that stays subscribed is owed at least what was stored then. */
  lemma {:induction false} OwedSince(es: seq<Event>, debounce: nat, i: nat, j: nat, ws: Socket)
    requires j < i < |es| && es[j] == Joins(ws) && Opens(ws) in es[..j] && Leaves(ws) !in es[j..] && es[i] == Notifies
    ensures var w := Run(START, es, debounce); ws in w.owed && w.owed[ws] >= |Contents(es[..i])|
    decreases |es|
  {
    var front, e := es[..|es| - 1], es[|es| - 1];
    var before := Run(START, front, debounce);
    assert front + [e] == es && es[j..] == front[j..] + [e] && front[..j] == es[..j] && front[j] == es[j];
    assert Subscribed(front, ws);
    ListenersAsTold(front, debounce, ws);
    ContentsAsTold(front, debounce);
    OwedKeys(front, debounce);
    if i == |es| - 1 {
      assert es[..i] == front;
    } else {
      assert front[..i] == es[..i] && front[i] == es[i];
      OwedSince(front, debounce, i, j, ws);
      ContentsGrow(front, i);
    }
    OwedStep(before, e, debounce, ws, |Contents(es[..i])|);
  }

  lemma {:induction false} OwedKeys(es: seq<Event>, debounce: nat)
    ensures Basics(Run(START, es, debounce))
  {
    if es != [] {
      OwedKeys(es[..|es| - 1], debounce);
      StepBasics(Run(START, es[..|es| - 1], debounce), es[|es| - 1], debounce);
    }
  }

  lemma {:induction false} ContentsGrow(es: seq<Event>, i: nat)
    requires i <= |es|
    ensures |Contents(es[..i])| <= |Contents(es)|
    decreases |es|
  {
    if i == |es| {
      assert es[..i] == es;
    } else {
      assert es[..|es| - 1][..i] == es[..i];
      ContentsGrow(es[..|es| - 1], i);
    }
  }

  /** Something will still be pushed that is at least as new as content number `c`. */
  predicate OnItsWay(w: World, c: nat) {
    w.hub.timer.Some? || w.hub.pushAgain || (w.reading.Some? && w.reading.value >= c)
  }

  /**
   * As long as reads succeed, a notification that reaches a socket which joined before it, has not left since and is
   * open has been answered with a comparison of what was stored then or of something newer, or is on its way.
   */
  lemma {:induction false} NotificationAnswered(es: seq<Event>, debounce: nat, i: nat, j: nat, ws: Socket)
    requires forall k :: 0 <= k < |es| ==> !es[k].ReadFails?
    requires j < i < |es| && es[j] == Joins(ws) && Opens(ws) in es[..j] && Leaves(ws) !in es[j..] && es[i] == Notifies
    requires StillOpen(es, ws)
    ensures var w, c := Run(START, es, debounce), |Contents(es[..i])|;
      OnItsWay(w, c) ||
        (c <= w.comparedAt <= |Contents(es)| && (c > 0 ==> w.compared == Contents(es)[w.comparedAt - 1]))
  {
    NoLostWakeUp(es, debounce);
    OwedSince(es, debounce, i, j, ws);
    ContentsAsTold(es, debounce);
    ListenersAsTold(es, debounce, ws);
    assert Subscribed(es, ws);
    var w := Run(START, es, debounce);
    assert ws in Listening(w);
    assert Served(w, ws);
  }

  /**
   * A socket that joined, has not left and is open is owed a full frame or holds exactly the job's devices, each as
   * the content last compared shows it.
   */
  lemma {:induction false} SubscriberHolds(es: seq<Event>, debounce: nat, ws: Socket, ds: set<Device>)
    requires GoodCommits(es) && CommitsAbout(es, ds) && Subscribed(es, ws) && StillOpen(es, ws)
    ensures var w := Run(START, es, debounce);
      w.hub.fullNext || (
        && ws in w.views && w.views[ws].Keys == Devices(w.compared) == ds
        && 0 < w.comparedAt <= |Contents(es)| && w.compared == Contents(es)[w.comparedAt - 1]
        && forall i :: 0 <= i < |w.compared| ==> SameColumns(w.views[ws][w.compared[i].device], w.compared[i]))
  {
    ListenersAsTold(es, debounce, ws);
    ContentsAsTold(es, debounce);
    ComparedOnce(es, debounce);
    SubscribersExact(es, debounce, ws, ds);
  }

  /** While someone is subscribed and no full frame is due, something has been compared. */
  lemma {:induction false} ComparedOnce(es: seq<Event>, debounce: nat)
    ensures var w := Run(START, es, debounce); w.hub.subscribers != {} && !w.hub.fullNext ==> w.comparedAt > 0
  {
    if es != [] {
      ComparedOnce(es[..|es| - 1], debounce);
      ComparedStep(Run(START, es[..|es| - 1], debounce), es[|es| - 1], debounce);
    }
  }

  lemma ComparedStep(w: World, e: Event, debounce: nat)
    requires w.hub.subscribers != {} && !w.hub.fullNext ==> w.comparedAt > 0
    ensures var n := Step(w, e, debounce); n.hub.subscribers != {} && !n.hub.fullNext ==> n.comparedAt > 0
  {
  }

  /** Both together: a notified subscriber that is owed nothing holds a content at least as new as the notified one. */
  lemma {:induction false} NotifiedHolds(es: seq<Event>, debounce: nat, i: nat, j: nat, ws: Socket, ds: set<Device>)
    requires GoodCommits(es) && CommitsAbout(es, ds) && forall k :: 0 <= k < |es| ==> !es[k].ReadFails?
    requires j < i < |es| && es[j] == Joins(ws) && Opens(ws) in es[..j] && Leaves(ws) !in es[j..] && es[i] == Notifies
    requires StillOpen(es, ws)
    ensures var w, c := Run(START, es, debounce), |Contents(es[..i])|;
      OnItsWay(w, c) || w.hub.fullNext || (
        && ws in w.views && w.views[ws].Keys == ds
        && c <= w.comparedAt && 0 < w.comparedAt <= |Contents(es)|
        && var rows := Contents(es)[w.comparedAt - 1];
           Devices(rows) == ds
           && forall k :: 0 <= k < |rows| ==> rows[k].device in ds && SameColumns(w.views[ws][rows[k].device], rows[k]))
  {
    NotificationAnswered(es, debounce, i, j, ws);
    assert Subscribed(es, ws);
    SubscriberHolds(es, debounce, ws, ds);
    var w := Run(START, es, debounce);
    forall k | 0 <= k < |w.compared| ensures w.compared[k].device in Devices(w.compared) {
    }
  }
}
