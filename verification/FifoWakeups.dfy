/** Whether a consumer of the monitor FIFO that polls until it gets nothing, and then waits for an
    event, misses anything. */
module FifoWakeups {
  import opened Updates
  import opened FifoModel

  lemma {:induction false} NextIsStep(r: Run, e: Event)
    requires Possible(r.f, e)
    ensures Step(r, e).f == Next(r.f, e)
  {
  }

  /** The consumer is about to poll, or waits for an event since a poll that gave it nothing;
      `withheld` if the FIFO had something then. */
  datatype Wait = Awake | Waiting(withheld: bool)

  datatype Watch = Watch(f: Fifo, wait: Wait)

  /** The call tells the consumer that there is something to poll. */
  predicate Signals(f: Fifo, e: Event)
  {
    (e.Notified? && f.needEvent) || (e.Started? && !f.running && f.inuse != [])
  }

  function Observe(w: Watch, e: Event): Watch
    requires Possible(w.f, e)
  {
    Watch(Next(w.f, e),
          if e.Polled? then (if CanPoll(w.f) then Awake else Waiting(w.f.inuse != []))
          else if Signals(w.f, e) then Awake
          else w.wait)
  }

  predicate Watches(w: Watch, es: seq<Event>, v: Watch)
    decreases |es|
  {
    if es == [] then w == v else Possible(w.f, es[0]) && Watches(Observe(w, es[0]), es[1..], v)
  }

  /** Every run of the FIFO has its consumer. */
  lemma {:induction false} RunWatched(r: Run, es: seq<Event>, t: Run, wait: Wait) returns (w: Watch)
    requires Leads(r, es, t)
    ensures Watches(Watch(r.f, wait), es, w) && w.f == t.f
    decreases |es|
  {
    w := Watch(r.f, wait);
    if es != [] {
      NextIsStep(r, es[0]);
      w := RunWatched(Step(r, es[0]), es[1..], t, Observe(w, es[0]).wait);
    }
  }

  /** There is something to poll, no event is due, and the consumer waits for one. */
  predicate Stuck(w: Watch)
  {
    w.wait.Waiting? && w.f.running && !w.f.needEvent && CanPoll(w.f)
  }

  ghost predicate Inv(w: Watch)
  {
    && Pool(w.f) && (!w.f.pipeline ==> w.f.returned == 0)
    && (w.wait == Waiting(false) && w.f.running && !w.f.needEvent ==> w.f.inuse == [])
    && (w.wait == Waiting(true) ==> w.f.inuse != [])
  }

  /** What a post does to the pool, and whether it raises an event. */
  predicate Grown(f: Fifo, g: Fifo)
  {
    && g.actualCount == f.actualCount && g.pipeline == f.pipeline && g.returned == f.returned && g.out == f.out
    && g.running == f.running && |f.inuse| <= |g.inuse| && |f.inuse| + f.empty <= |g.inuse| + g.empty
    && g.empty <= f.empty && (f.needEvent ==> g.needEvent)
    && (f.inuse == [] && g.inuse != [] && f.running ==> g.needEvent)
  }

  lemma {:induction false} TryPostGrows(f: Fifo, u: Update, force: bool)
    ensures Grown(f, TryPost(f, u, force))
  {
  }

  lemma {:induction false} PostGrows(f: Fifo, u: Update)
    requires HasPlace(f)
    ensures Grown(f, Post(f, u))
  {
  }

  lemma {:induction false} GrownKeeps(w: Watch, g: Fifo)
    requires Inv(w) && Grown(w.f, g)
    ensures Inv(Watch(g, w.wait))
  {
  }

  lemma {:induction false} PollKeeps(w: Watch)
    requires Inv(w)
    ensures Inv(Observe(w, Polled))
  {
  }

  lemma {:induction false} ReleaseKeeps(w: Watch)
    requires Inv(w) && w.f.out > 0
    ensures Inv(Observe(w, Released))
  {
    ReleasePool(w.f);
  }

  lemma {:induction false} AckKeeps(w: Watch, n: int)
    requires Inv(w)
    ensures Inv(Observe(w, Acked(n)))
  {
  }

  lemma {:induction false} OtherKeeps(w: Watch, e: Event)
    requires Inv(w) && Possible(w.f, e)
    requires e.Finished? || e.Started? || e.Stopped? || e.Notified? || e.Closed?
    ensures Inv(Observe(w, e))
  {
  }

  lemma {:induction false} ObserveInv(w: Watch, e: Event)
    requires Inv(w) && Possible(w.f, e)
    ensures Inv(Observe(w, e))
  {
    match e
    case TryPosted(u, force) =>
      TryPostGrows(w.f, u, force);
      GrownKeeps(w, TryPost(w.f, u, force));
    case Posted(u) =>
      PostGrows(w.f, u);
      GrownKeeps(w, Post(w.f, u));
    case Polled => PollKeeps(w);
    case Released => ReleaseKeeps(w);
    case Acked(n) => AckKeeps(w, n);
    case _ => OtherKeeps(w, e);
  }

  lemma {:induction false} WatchInv(w: Watch, es: seq<Event>, v: Watch)
    requires Inv(w) && Watches(w, es, v)
    ensures Inv(v)
    decreases |es|
  {
    if es != [] {
      ObserveInv(w, es[0]);
      WatchInv(Observe(w, es[0]), es[1..], v);
    }
  }

  predicate NoPolls(es: seq<Event>)
  {
    forall i :: 0 <= i < |es| ==> !es[i].Polled?
  }

  /** Until the next poll what the last one withheld does not change. */
  lemma {:induction false} StillWaits(w: Watch, es: seq<Event>, v: Watch)
    requires Watches(w, es, v) && NoPolls(es)
    ensures v.wait == w.wait || v.wait == Awake
    decreases |es|
  {
    if es != [] {
      assert !es[0].Polled?;
      forall i | 0 <= i < |es[1..]|
        ensures !es[1..][i].Polled?
      {
        assert es[1..][i] == es[i + 1];
      }
      StillWaits(Observe(w, es[0]), es[1..], v);
    }
  }

  lemma {:induction false} WatchFirst(w: Watch, e: Event, es: seq<Event>, v: Watch)
    requires Possible(w.f, e) && Watches(Observe(w, e), es, v)
    ensures Watches(w, [e] + es, v)
  {
    assert ([e] + es)[1..] == es;
  }

  /** Credit for a returned element makes something pollable. */
  lemma {:induction false} AckSticks(w: Watch) returns (es: seq<Event>, v: Watch)
    requires Inv(w) && w.wait == Waiting(true) && w.f.running && !w.f.needEvent && w.f.pipeline && w.f.returned > 0
    ensures Watches(w, es, v) && NoPolls(es) && Stuck(v)
  {
    v := Observe(w, Acked(1));
    es := [Acked(1)];
    assert es[1..] == [] && Watches(v, [], v);
  }

  /** What the consumer has yet to release or the client yet to ack makes something pollable. */
  lemma {:induction false} Sticks(w: Watch) returns (es: seq<Event>, v: Watch)
    requires Inv(w) && w.wait == Waiting(true) && w.f.running && !w.f.needEvent
    ensures Watches(w, es, v) && NoPolls(es) && Stuck(v)
  {
    if CanPoll(w.f) {
      es, v := [], w;
    } else if w.f.pipeline && w.f.returned > 0 {
      es, v := AckSticks(w);
    } else {
      var m := Observe(w, Released);
      ObserveInv(w, Released);
      ReleasePool(w.f);
      if w.f.pipeline {
        es, v := AckSticks(m);
      } else {
        es, v := [], m;
      }
      WatchFirst(w, Released, es, v);
      es := [Released] + es;
    }
  }

  /** A FIFO opened by now, with a consumer that waits. */
  predicate Watched(n: nat, pipeline: bool, ignoreMask: bool, mask: set<Field>, level: nat, es: seq<Event>, w: Watch)
  {
    n >= 1 && Watches(Watch(Opened(n, pipeline, ignoreMask, mask, level), Waiting(false)), es, w)
  }

  /** Over every run: a consumer that waits, with no event due, can oversleep before it polls again
      exactly if the poll it waits since gave it nothing although something was queued. */
  lemma {:induction false} OversleepsExactly(n: nat, pipeline: bool, ignoreMask: bool, mask: set<Field>, level: nat,
                                             es: seq<Event>, w: Watch)
    requires Watched(n, pipeline, ignoreMask, mask, level, es, w)
    requires w.wait.Waiting? && w.f.running && !w.f.needEvent
    ensures (exists more, v :: Watches(w, more, v) && NoPolls(more) && Stuck(v)) <==> w.wait.withheld
  {
    WatchInv(Watch(Opened(n, pipeline, ignoreMask, mask, level), Waiting(false)), es, w);
    if w.wait.withheld {
      var more, v := Sticks(w);
    } else {
      forall more, v | Watches(w, more, v) && NoPolls(more)
        ensures !Stuck(v)
      {
        WatchInv(w, more, v);
        StillWaits(w, more, v);
      }
    }
  }

  /** So does one of them: two posts fill the FIFO, the second poll gets nothing though one element is
      queued, and what is released and acked then makes that one pollable without an event. */
  lemma {:induction false} Oversleeps(u: Update, mask: set<Field>, level: nat) returns (w: Watch, es: seq<Event>, v: Watch)
    ensures Watched(1, true, true, mask, level,
                    [Started, Acked(1), Posted(u), Posted(u), Notified, Polled, Polled], w)
    ensures Watches(w, es, v) && NoPolls(es) && Stuck(v)
  {
    var w0 := Watch(Opened(1, true, true, mask, level), Waiting(false));
    var w4 := FilledUp(u, mask, level);
    w := Withheld(w4);
    var a, b := [Started, Acked(1), Posted(u), Posted(u)], [Notified, Polled, Polled];
    WatchJoin(w0, a, w4, b, w);
    assert a + b == [Started, Acked(1), Posted(u), Posted(u), Notified, Polled, Polled];
    WatchInv(w0, a + b, w);
    es, v := Sticks(w);
  }

  lemma {:induction false} WatchJoin(w: Watch, a: seq<Event>, m: Watch, b: seq<Event>, v: Watch)
    requires Watches(w, a, m) && Watches(m, b, v)
    ensures Watches(w, a + b, v)
    decreases |a|
  {
    if a == [] {
      assert a + b == b;
    } else {
      WatchJoin(Observe(w, a[0]), a[1..], m, b, v);
      assert (a + b)[1..] == a[1..] + b;
    }
  }

  lemma {:induction false} FilledUp(u: Update, mask: set<Field>, level: nat) returns (w: Watch)
    ensures Watches(Watch(Opened(1, true, true, mask, level), Waiting(false)),
                    [Started, Acked(1), Posted(u), Posted(u)], w)
    ensures w.f.running && w.f.needEvent && w.f.empty == 0 && |w.f.inuse| == 2
  {
    var w0 := Watch(Opened(1, true, true, mask, level), Waiting(false));
    var w1 := Observe(w0, Started);
    var w2 := Observe(w1, Acked(1));
    var w3 := Observe(w2, Posted(u));
    w := Observe(w3, Posted(u));
    assert Watches(w, [], w);
    WatchFirst(w3, Posted(u), [], w);
    WatchFirst(w2, Posted(u), [Posted(u)], w);
    WatchFirst(w1, Acked(1), [Posted(u), Posted(u)], w);
    WatchFirst(w0, Started, [Acked(1), Posted(u), Posted(u)], w);
  }

  lemma {:induction false} Withheld(w: Watch) returns (v: Watch)
    requires w.f.running && w.f.needEvent && w.f.empty == 0 && |w.f.inuse| == 2
    ensures Watches(w, [Notified, Polled, Polled], v) && v.wait == Waiting(true) && v.f.running && !v.f.needEvent
  {
    var w1 := Observe(w, Notified);
    var w2 := Observe(w1, Polled);
    v := Observe(w2, Polled);
    assert Watches(v, [], v);
    WatchFirst(w2, Polled, [], v);
    WatchFirst(w1, Polled, [Polled], v);
    WatchFirst(w, Notified, [Polled, Polled], v);
  }

  // ----- the source -----

  /** When a source is told that there is room: exactly when the number of free slots rises above the
      mark, unless an ack did it and left just one empty element. */
  lemma {:induction false} RoomSignalled(f: Fifo, e: Event)
    requires Possible(f, e)
    ensures Marks(f, e)
            <==> FreeCount(f) <= f.freeHighLevel < FreeCount(Next(f, e)) && !(e.Acked? && Next(f, e).empty == 1)
  {
    match e
    case TryPosted(u, force) => TryPostGrows(f, u, force);
    case Posted(u) => PostGrows(f, u);
    case _ =>
  }

  /** A source that is not told: two posts fill the FIFO, and what is released and acked then makes
      room for one more. */
  lemma {:induction false} RoomMissed(u: Update, mask: set<Field>) returns (f: Fifo)
    ensures exists wait :: Watched(1, true, true, mask, 0,
                                   [Acked(2), TryPosted(u, false), TryPosted(u, false), Polled, Released], Watch(f, wait))
    ensures FreeCount(f) == 0 && FreeCount(Next(f, Acked(1))) == 1 && !Marks(f, Acked(1))
  {
    var w0 := Watch(Opened(1, true, true, mask, 0), Waiting(false));
    var m := FullUp(u, mask);
    var w := OneReleased(m);
    var a, b := [Acked(2), TryPosted(u, false), TryPosted(u, false)], [Polled, Released];
    WatchJoin(w0, a, m, b, w);
    assert a + b == [Acked(2), TryPosted(u, false), TryPosted(u, false), Polled, Released];
    f := w.f;
    assert w == Watch(f, w.wait);
  }

  lemma {:induction false} FullUp(u: Update, mask: set<Field>) returns (w: Watch)
    ensures Watches(Watch(Opened(1, true, true, mask, 0), Waiting(false)),
                    [Acked(2), TryPosted(u, false), TryPosted(u, false)], w)
    ensures w.f.empty == w.f.returned == w.f.freeHighLevel == 0 && |w.f.inuse| == 2 && w.f.flowCount == 0
    ensures w.f.pipeline && w.f.actualCount == 1
  {
    var w0 := Watch(Opened(1, true, true, mask, 0), Waiting(false));
    var w1 := Observe(w0, Acked(2));
    var w2 := Observe(w1, TryPosted(u, false));
    w := Observe(w2, TryPosted(u, false));
    assert Watches(w, [], w);
    WatchFirst(w2, TryPosted(u, false), [], w);
    WatchFirst(w1, TryPosted(u, false), [TryPosted(u, false)], w);
    WatchFirst(w0, Acked(2), [TryPosted(u, false), TryPosted(u, false)], w);
  }

  lemma {:induction false} OneReleased(w: Watch) returns (v: Watch)
    requires w.f.empty == w.f.returned == w.f.freeHighLevel == 0 && |w.f.inuse| == 2 && w.f.flowCount == 0
    requires w.f.pipeline && w.f.actualCount == 1
    ensures Watches(w, [Polled, Released], v)
    ensures FreeCount(v.f) == 0 && FreeCount(Next(v.f, Acked(1))) == 1 && !Marks(v.f, Acked(1))
  {
    var m := Observe(w, Polled);
    v := Observe(m, Released);
    assert v.f.returned == 1 && v.f.empty == 0 && v.f.flowCount == 0;
    assert Watches(v, [], v);
    WatchFirst(m, Released, [], v);
    WatchFirst(w, Polled, [Released], v);
  }

  // ----- what notifications report -----

  /** When an event becomes due: exactly with a post that has to be told while the FIFO runs with
      nothing queued. */
  lemma {:induction false} EventRaised(f: Fifo, e: Event)
    requires Possible(f, e) && !f.needEvent
    ensures Next(f, e).needEvent <==> f.running && f.inuse == [] && Wanted(f, e)
  {
    match e
    case TryPosted(u, force) => SpeaksOrDropped(f, u);
    case Posted(u) => SpeaksOrDropped(f, u);
    case _ =>
  }

  /** While it is stopped a FIFO raises no event. */
  lemma {:induction false} QuietWhileStopped(w: Watch, es: seq<Event>, v: Watch)
    requires !w.f.needEvent && Watches(w, [Stopped] + es, v) && forall i :: 0 <= i < |es| ==> !es[i].Started?
    ensures !v.f.needEvent
  {
    assert ([Stopped] + es)[1..] == es;
    StoppedQuiet(Observe(w, Stopped), es, v);
  }

  lemma {:induction false} StoppedQuiet(w: Watch, es: seq<Event>, v: Watch)
    requires !w.f.needEvent && !w.f.running && Watches(w, es, v) && forall i :: 0 <= i < |es| ==> !es[i].Started?
    ensures !v.f.needEvent && !v.f.running
    decreases |es|
  {
    if es != [] {
      forall i | 0 <= i < |es[1..]|
        ensures !es[1..][i].Started?
      {
        assert es[1..][i] == es[i + 1];
      }
      if es[0].Released? {
        assert Release(w.f).needEvent == w.f.needEvent && Release(w.f).running == w.f.running;
      }
      StoppedQuiet(Observe(w, es[0]), es[1..], v);
    }
  }

  /** How often a run reports that the FIFO is connected, and that it is closed. */
  function Connects(w: Watch, es: seq<Event>, v: Watch): nat
    requires Watches(w, es, v)
    decreases |es|
  {
    if es == [] then 0
    else One(es[0].Notified? && w.f.link.needConnected) + Connects(Observe(w, es[0]), es[1..], v)
  }

  function Closes(w: Watch, es: seq<Event>, v: Watch): nat
    requires Watches(w, es, v)
    decreases |es|
  {
    if es == [] then 0
    else One(es[0].Notified? && w.f.link.needClosed) + Closes(Observe(w, es[0]), es[1..], v)
  }

  function One(b: bool): nat
  {
    if b then 1 else 0
  }

  function Count(es: seq<Event>, e: Event): nat
  {
    if es == [] then 0 else One(es[0] == e) + Count(es[1..], e)
  }

  lemma {:induction false} LinkStep(f: Fifo, e: Event)
    requires Possible(f, e)
    ensures var l, m := f.link, Next(f, e).link;
            && m.isOpen == (l.isOpen && !e.Closed?)
            && m.needConnected == (l.needConnected && !e.Notified?)
            && m.needClosed == ((l.needClosed && !e.Notified?) || (l.isOpen && e.Closed?))
  {
    match e
    case TryPosted(u, force) => assert TryPost(f, u, force).link == f.link;
    case Posted(u) => assert Post(f, u).link == f.link;
    case Released => assert Release(f).link == f.link;
    case _ =>
  }

  /** Opening and closing are reported once each, by the first notification that follows. */
  lemma {:induction false} LinkReported(w: Watch, es: seq<Event>, v: Watch)
    requires Watches(w, es, v) && (w.f.link.needClosed ==> !w.f.link.isOpen)
    ensures Connects(w, es, v) + One(v.f.link.needConnected) == One(w.f.link.needConnected)
    ensures v.f.link.needConnected <==> w.f.link.needConnected && Count(es, Notified) == 0
    ensures v.f.link.isOpen <==> w.f.link.isOpen && Count(es, Closed) == 0
    ensures Closes(w, es, v) + One(v.f.link.needClosed)
         == One(w.f.link.needClosed) + One(w.f.link.isOpen && !v.f.link.isOpen)
    decreases |es|
  {
    if es != [] {
      LinkStep(w.f, es[0]);
      LinkReported(Observe(w, es[0]), es[1..], v);
    }
  }

  /** A FIFO just opened: no event is raised before it is started, the first notification reports that
      it is connected, none after it does, and closing is reported once. */
  lemma {:induction false} OpenedReports(n: nat, pipeline: bool, ignoreMask: bool, mask: set<Field>, level: nat,
                                         es: seq<Event>, w: Watch)
    requires Watched(n, pipeline, ignoreMask, mask, level, es, w)
    ensures (forall i :: 0 <= i < |es| ==> !es[i].Started?) ==> !w.f.needEvent
    ensures var start := Watch(Opened(n, pipeline, ignoreMask, mask, level), Waiting(false));
            && Connects(start, es, w) == One(Count(es, Notified) > 0)
            && Closes(start, es, w) + One(w.f.link.needClosed) == One(Count(es, Closed) > 0)
  {
    var start := Watch(Opened(n, pipeline, ignoreMask, mask, level), Waiting(false));
    LinkReported(start, es, w);
    if forall i :: 0 <= i < |es| ==> !es[i].Started? {
      StoppedQuiet(start, es, w);
    }
  }
}
