/** The client's monitor queue as a state machine over values: what is free, queued,
    parked as overrun element or held by the user, and what each element tells. */
module ClientModel {
  import opened Updates

  datatype Client = Client(
    queueSize: nat, pipeline: bool, ackAny: int, blank: Record,
    free: nat, queue: seq<Slot>, parked: Option<Slot>, held: nat,
    latest: Option<Record>, released: nat, reporting: bool, ending: bool)

  function Fresh(queueSize: nat, pipeline: bool, ackAny: int, blank: Record): Client
  {
    Client(queueSize, pipeline, ackAny, blank, queueSize, [], None, 0, None, 0, false, false)
  }

  function Squash(s: Slot, u: Update): Slot
  {
    Slot(s.value + u.values, s.changed + u.values.Keys, s.overrun + s.changed * u.values.Keys + u.overrun)
  }

  /** There is an element to put a response into. */
  predicate HasPlace(c: Client)
  {
    c.parked.Some? || c.free > 0
  }

  function Respond(c: Client, u: Update): Client
    requires HasPlace(c)
  {
    if c.parked.Some? then
      var s := Squash(c.parked.value, u);
      c.(parked := Some(s), latest := Some(s.value))
    else
      var base := if c.latest.Some? then c.latest.value else c.blank;
      var s := Slot(base + u.values, u.values.Keys, u.overrun);
      var c := c.(free := c.free - 1, latest := Some(s.value));
      if c.free == 0 then c.(parked := Some(s)) else c.(queue := c.queue + [s])
  }

  /** An empty queue ends a stream that is waiting for its end. */
  function Poll(c: Client): Client
  {
    if c.queue == [] then c.(ending := false) else c.(queue := c.queue[1..], held := c.held + 1)
  }

  /** The server has closed the stream: the end waits for the queue to be empty. */
  function Unlisten(c: Client): Client
  {
    c.(ending := c.queue != [])
  }

  /** An ack becomes due with this release. */
  predicate AckDue(c: Client)
  {
    c.pipeline && !c.reporting && c.released + 1 >= c.ackAny
  }

  /** The element goes back to the pool, and a parked one gets queued. */
  function PutBack(c: Client): Client
    requires c.held > 0
  {
    c.(free := c.free + 1, held := c.held - 1, queue := c.queue + Waiting(c), parked := None)
  }

  function Waiting(c: Client): seq<Slot>
  {
    if c.parked.Some? then [c.parked.value] else []
  }

  function Release(c: Client, connected: bool): Client
    requires c.held > 0
  {
    PutBack(c).(released := if c.pipeline then c.released + 1 else c.released,
                reporting := if AckDue(c) then connected else c.reporting)
  }

  function AckSent(c: Client): Client
  {
    c.(released := 0, reporting := false)
  }

  /** `start` recycles everything that was not polled. */
  function Restart(c: Client): Client
  {
    c.(free := c.free + |c.queue| + Parked(c), queue := [], parked := None)
  }

  function Parked(c: Client): nat
  {
    if c.parked.Some? then 1 else 0
  }

  function InCirculation(c: Client): nat
  {
    c.free + |c.queue| + Parked(c) + c.held
  }

  /** No element is lost or made up, and an element is parked exactly while none is free. */
  predicate Conserved(c: Client)
  {
    && InCirculation(c) == c.queueSize
    && (c.parked.Some? <==> c.free == 0)
  }

  lemma {:induction false} ReleaseConserved(c: Client, connected: bool)
    requires Conserved(c) && c.held > 0
    ensures Conserved(Release(c, connected))
  {
  }

  // ----- what elements tell -----

  /** The slot tells the updates `lo` to `hi` of the history: its value is the structure
      after all updates up to `hi`, its bits are those of the merged updates. */
  ghost predicate Tells(s: Slot, blank: Record, history: seq<Update>, lo: nat, hi: nat)
  {
    && lo < hi <= |history|
    && s.value == Fold(blank, history[..hi])
    && s.changed == MergeAll(history[lo..hi]).values.Keys
    && s.overrun == MergeAll(history[lo..hi]).overrun
  }

  /** A run of the queue since `init`: all updates received, and at `marks` the borders
      between the queued slots; `marks[0]` updates have left the queue. */
  datatype Run = Run(c: Client, history: seq<Update>, marks: seq<nat>)

  /** Between its marks each slot tells its part of the history. */
  ghost predicate QueueTells(queue: seq<Slot>, blank: Record, history: seq<Update>, marks: seq<nat>)
  {
    && |marks| == |queue| + 1
    && forall i :: 0 <= i < |queue| ==> Tells(queue[i], blank, history, marks[i], marks[i + 1])
  }

  /** What comes behind the queue: the parked slot, if any, tells the rest of the history, and the
      newest structure is the one after all of it. */
  ghost predicate RestTells(c: Client, history: seq<Update>, from: nat)
  {
    && (if c.parked.Some? then Tells(c.parked.value, c.blank, history, from, |history|) else from == |history|)
    && c.latest == if history == [] then None else Some(Fold(c.blank, history))
  }

  ghost predicate Faithful(r: Run)
  {
    && Conserved(r.c) && r.c.queueSize >= 2 && QueueTells(r.c.queue, r.c.blank, r.history, r.marks)
    && RestTells(r.c, r.history, r.marks[|r.c.queue|])
  }

  datatype Event = Response(u: Update) | Polled | Released(connected: bool) | AckWritten | Restarted | Unlistened

  predicate Enabled(c: Client, e: Event)
  {
    match e
    case Released(_) => c.held > 0
    case AckWritten => c.reporting
    case _ => true
  }

  /** The event may happen, and what it does is defined. */
  predicate Possible(c: Client, e: Event)
  {
    Enabled(c, e) && (e.Response? ==> HasPlace(c))
  }

  function Step(r: Run, e: Event): Run
    requires Possible(r.c, e)
  {
    match e
    case Response(u) =>
      var c := Respond(r.c, u);
      var h := r.history + [u];
      Run(c, h, if c.parked.Some? then r.marks else r.marks + [|h|])
    case Polled =>
      Run(Poll(r.c), r.history, if r.c.queue == [] || r.marks == [] then r.marks else r.marks[1..])
    case Released(connected) =>
      Run(Release(r.c, connected), r.history, if r.c.parked.Some? then r.marks + [|r.history|] else r.marks)
    case AckWritten => Run(AckSent(r.c), r.history, r.marks)
    case Restarted => Run(Restart(r.c), r.history, [|r.history|])
    case Unlistened => Run(Unlisten(r.c), r.history, r.marks)
  }

  lemma {:induction false} TellsStays(s: Slot, blank: Record, history: seq<Update>, u: Update, lo: nat, hi: nat)
    requires Tells(s, blank, history, lo, hi)
    ensures Tells(s, blank, history + [u], lo, hi)
  {
    assert (history + [u])[..hi] == history[..hi];
    assert (history + [u])[lo..hi] == history[lo..hi];
  }

  lemma {:induction false} TellsSquashed(s: Slot, blank: Record, history: seq<Update>, u: Update, lo: nat)
    requires Tells(s, blank, history, lo, |history|)
    ensures Tells(Squash(s, u), blank, history + [u], lo, |history| + 1)
  {
    var h := history + [u];
    assert h[..|h|] == h && history[..|history|] == history;
    assert h[lo..|h|] == history[lo..] + [u] && history[lo..|history|] == history[lo..];
    FoldMore(blank, history, u);
    MergeMore(history[lo..], u);
  }

  lemma {:induction false} TellsFirst(blank: Record, history: seq<Update>, u: Update)
    ensures var v := Fold(blank, history) + u.values;
            Tells(Slot(v, u.values.Keys, u.overrun), blank, history + [u], |history|, |history| + 1)
  {
    var h := history + [u];
    assert h[..|h|] == h && h[|history|..|h|] == [u];
    FoldMore(blank, history, u);
  }

  lemma {:induction false} QueueStays(queue: seq<Slot>, blank: Record, history: seq<Update>, marks: seq<nat>, u: Update)
    requires QueueTells(queue, blank, history, marks)
    ensures QueueTells(queue, blank, history + [u], marks)
  {
    forall i | 0 <= i < |queue|
      ensures Tells(queue[i], blank, history + [u], marks[i], marks[i + 1])
    {
      TellsStays(queue[i], blank, history, u, marks[i], marks[i + 1]);
    }
  }

  lemma {:induction false} QueueMore(queue: seq<Slot>, blank: Record, history: seq<Update>, marks: seq<nat>, s: Slot, hi: nat)
    requires QueueTells(queue, blank, history, marks) && Tells(s, blank, history, marks[|queue|], hi)
    ensures QueueTells(queue + [s], blank, history, marks + [hi])
  {
  }

  lemma {:induction false} QueueLess(queue: seq<Slot>, blank: Record, history: seq<Update>, marks: seq<nat>)
    requires QueueTells(queue, blank, history, marks) && queue != []
    ensures QueueTells(queue[1..], blank, history, marks[1..])
  {
    forall i | 0 <= i < |queue[1..]|
      ensures Tells(queue[1..][i], blank, history, marks[1..][i], marks[1..][i + 1])
    {
      assert Tells(queue[i + 1], blank, history, marks[i + 1], marks[i + 2]);
    }
  }

  lemma {:induction false} SquashRest(c: Client, history: seq<Update>, from: nat, u: Update)
    requires RestTells(c, history, from) && c.parked.Some?
    ensures RestTells(Respond(c, u), history + [u], from)
  {
    FoldMore(c.blank, history, u);
    assert history[..|history|] == history;
    TellsSquashed(c.parked.value, c.blank, history, u, from);
  }

  /** The slot that a response fills tells just that response. */
  lemma {:induction false} PlaceRest(c: Client, history: seq<Update>, u: Update)
    requires RestTells(c, history, |history|) && c.parked.None? && c.free > 0
    ensures var d, n := Respond(c, u), |history|;
            && d.blank == c.blank && d.latest == Some(Fold(c.blank, history + [u]))
            && (c.free == 1 ==> d.parked.Some? && d.queue == c.queue && Tells(d.parked.value, c.blank, history + [u], n, n + 1))
            && (c.free > 1 ==> d.parked.None? && |d.queue| == |c.queue| + 1 && d.queue[..|c.queue|] == c.queue
                               && Tells(d.queue[|c.queue|], c.blank, history + [u], n, n + 1))
  {
    FoldMore(c.blank, history, u);
    TellsFirst(c.blank, history, u);
    assert history == [] ==> Fold(c.blank, history) == c.blank;
  }

  lemma {:induction false} ResponseConserved(c: Client, u: Update)
    requires Conserved(c) && c.queueSize >= 2
    ensures Conserved(Respond(c, u)) && Respond(c, u).queueSize == c.queueSize
  {
  }

  lemma {:induction false} SquashFaithful(r: Run, u: Update)
    requires Faithful(r) && r.c.parked.Some?
    ensures Faithful(Step(r, Response(u)))
  {
    ResponseConserved(r.c, u);
    QueueStays(r.c.queue, r.c.blank, r.history, r.marks, u);
    SquashRest(r.c, r.history, r.marks[|r.c.queue|], u);
  }

  lemma {:induction false} PlaceFaithful(r: Run, u: Update)
    requires Faithful(r) && r.c.parked.None?
    ensures Faithful(Step(r, Response(u)))
  {
    var d, n := Respond(r.c, u), |r.c.queue|;
    ResponseConserved(r.c, u);
    QueueStays(r.c.queue, r.c.blank, r.history, r.marks, u);
    PlaceRest(r.c, r.history, u);
    if r.c.free > 1 {
      assert d.queue == r.c.queue + [d.queue[n]];
      QueueMore(r.c.queue, r.c.blank, r.history + [u], r.marks, d.queue[n], |r.history| + 1);
    }
  }

  lemma {:induction false} ResponseFaithful(r: Run, u: Update)
    requires Faithful(r)
    ensures Faithful(Step(r, Response(u)))
  {
    if r.c.parked.Some? {
      SquashFaithful(r, u);
    } else {
      PlaceFaithful(r, u);
    }
  }

  lemma {:induction false} PollFaithful(r: Run)
    requires Faithful(r)
    ensures Faithful(Step(r, Polled))
  {
    if r.c.queue != [] {
      QueueLess(r.c.queue, r.c.blank, r.history, r.marks);
    }
  }

  lemma {:induction false} ReleaseFaithful(r: Run, connected: bool)
    requires Faithful(r) && r.c.held > 0
    ensures Faithful(Step(r, Released(connected)))
  {
    if r.c.parked.Some? {
      QueueMore(r.c.queue, r.c.blank, r.history, r.marks, r.c.parked.value, |r.history|);
    } else {
      assert r.c.queue + [] == r.c.queue;
    }
  }

  /** Every step of the queue, in every order, keeps the pool and the meaning of each element. */
  lemma {:induction false} StepFaithful(r: Run, e: Event)
    requires Faithful(r) && Enabled(r.c, e)
    ensures Faithful(Step(r, e))
  {
    match e
    case Response(u) => ResponseFaithful(r, u);
    case Polled => PollFaithful(r);
    case Released(connected) => ReleaseFaithful(r, connected);
    case AckWritten =>
    case Restarted =>
    case Unlistened =>
  }

  /** The events lead from one state to the other. */
  predicate Reaches(r: Run, es: seq<Event>, t: Run)
    decreases |es|
  {
    if es == [] then r == t
    else Possible(r.c, es[0]) && Reaches(Step(r, es[0]), es[1..], t)
  }

  lemma {:induction false} TwoSteps(r: Run, e: Event, f: Event)
    requires Possible(r.c, e) && Possible(Step(r, e).c, f)
    ensures Reaches(r, [e, f], Step(Step(r, e), f))
  {
    var m, t := Step(r, e), Step(Step(r, e), f);
    assert [f][1..] == [] && Reaches(t, [], t);
    assert Reaches(m, [f], t) && [e, f][1..] == [f];
  }

  function Opened(queueSize: nat, pipeline: bool, ackAny: int, blank: Record): Run
  {
    Run(Fresh(queueSize, pipeline, ackAny, blank), [], [0])
  }

  lemma {:induction false} StepSetup(r: Run, e: Event)
    requires Possible(r.c, e)
    ensures var t := Step(r, e); t.c.queueSize == r.c.queueSize && t.c.blank == r.c.blank && r.history <= t.history
  {
    if e.Response? {
      assert Respond(r.c, e.u).queueSize == r.c.queueSize && Respond(r.c, e.u).blank == r.c.blank;
    }
  }

  lemma {:induction false} RunFaithful(r: Run, es: seq<Event>, t: Run)
    requires Faithful(r) && Reaches(r, es, t)
    ensures Faithful(t) && t.c.queueSize == r.c.queueSize && t.c.blank == r.c.blank && r.history <= t.history
    decreases |es|
  {
    if es != [] {
      StepFaithful(r, es[0]);
      StepSetup(r, es[0]);
      RunFaithful(Step(r, es[0]), es[1..], t);
    }
  }

  /** In every reachable state of a queue of two or more elements: elements are conserved, a
      response always finds a place, and the element polled next tells exactly the updates
      after those that have left the queue, with a polled element or recycled by a restart. */
  lemma {:induction false} EveryRun(queueSize: nat, pipeline: bool, ackAny: int, blank: Record, es: seq<Event>, t: Run)
    requires queueSize >= 2 && Reaches(Opened(queueSize, pipeline, ackAny, blank), es, t)
    ensures Conserved(t.c) && t.c.queueSize == queueSize && HasPlace(t.c)
    ensures forall e :: Enabled(t.c, e) ==> Possible(t.c, e)
    ensures |t.marks| == |t.c.queue| + 1
    ensures t.c.queue != [] ==> Tells(t.c.queue[0], blank, t.history, t.marks[0], t.marks[1])
    ensures t.c.queue != [] ==> Step(t, Polled).marks[0] == t.marks[1]
  {
    RunFaithful(Opened(queueSize, pipeline, ackAny, blank), es, t);
  }

  // ----- acks -----

  /** Releases since the last ack was written, and whether the next one is scheduled: by the first
      release on a live connection that makes them enough. */
  datatype Acking = Acking(count: nat, scheduled: bool)

  function Ack(a: Acking, ackAny: int, e: Event): Acking
  {
    match e
    case Released(connected) => Acking(a.count + 1, a.scheduled || (connected && a.count + 1 >= ackAny))
    case AckWritten => Acking(0, false)
    case _ => a
  }

  function Acks(a: Acking, ackAny: int, es: seq<Event>): Acking
    decreases |es|
  {
    if es == [] then a else Acks(Ack(a, ackAny, es[0]), ackAny, es[1..])
  }

  lemma {:induction false} AckStep(r: Run, e: Event)
    requires r.c.pipeline && Possible(r.c, e)
    ensures var c, a := Step(r, e).c, Ack(Acking(r.c.released, r.c.reporting), r.c.ackAny, e);
            c.pipeline && c.ackAny == r.c.ackAny && c.released == a.count && c.reporting == a.scheduled
  {
    if e.Response? {
      var c := Respond(r.c, e.u);
      assert c.pipeline && c.ackAny == r.c.ackAny && c.released == r.c.released && c.reporting == r.c.reporting;
    }
  }

  /** Over every run with pipelining the count and the scheduled ack are what the calls say; a release
      that finds no connection leaves the ack to a later one. */
  lemma {:induction false} AcksScheduled(r: Run, es: seq<Event>, t: Run)
    requires r.c.pipeline && Reaches(r, es, t)
    ensures Acking(t.c.released, t.c.reporting) == Acks(Acking(r.c.released, r.c.reporting), r.c.ackAny, es)
    decreases |es|
  {
    if es != [] {
      AckStep(r, es[0]);
      AcksScheduled(Step(r, es[0]), es[1..], t);
    }
  }

  // ----- the end of the stream -----

  /** The event reports the end of the stream to the user. */
  predicate Ends(c: Client, e: Event)
  {
    c.queue == [] && (e.Unlistened? || (e.Polled? && c.ending))
  }

  function EndsOf(r: Run, es: seq<Event>, t: Run): nat
    requires Reaches(r, es, t)
    decreases |es|
  {
    if es == [] then 0 else (if Ends(r.c, es[0]) then 1 else 0) + EndsOf(Step(r, es[0]), es[1..], t)
  }

  function Closings(es: seq<Event>): nat
  {
    if es == [] then 0 else (if es[0].Unlistened? then 1 else 0) + Closings(es[1..])
  }

  function Due(c: Client): nat
  {
    if c.ending then 1 else 0
  }

  /** A stream that the server closes once ends once: the end is reported or still due. */
  lemma {:induction false} EndsOnce(r: Run, es: seq<Event>, t: Run)
    requires Reaches(r, es, t)
    ensures EndsOf(r, es, t) + Due(t.c) <= Due(r.c) + Closings(es)
    ensures Due(r.c) + Closings(es) <= 1 ==> EndsOf(r, es, t) + Due(t.c) == Due(r.c) + Closings(es)
    decreases |es|
  {
    if es != [] {
      EndsOnce(Step(r, es[0]), es[1..], t);
    }
  }

  /** An end that comes too early: a queue of two, one update polled, one parked, and after the
      end the parked one is handed out. */
  lemma {:induction false} EarlyEnd(ackAny: int, blank: Record, u: Update) returns (r: Run, t: Run)
    ensures Reaches(Opened(2, false, ackAny, blank), [Response(u), Response(u), Polled], r)
    ensures Ends(r.c, Unlistened) && r.marks == [1] && |r.history| == 2
    ensures Reaches(Step(r, Unlistened), [Released(true), Polled], t) && t.marks == [2]
  {
    var r0 := Opened(2, false, ackAny, blank);
    var r1 := Step(r0, Response(u));
    r := Step(Step(r1, Response(u)), Polled);
    TwoSteps(r1, Response(u), Polled);
    assert [Response(u), Response(u), Polled][1..] == [Response(u), Polled];
    var s := Step(r, Unlistened);
    t := Step(Step(s, Released(true)), Polled);
    TwoSteps(s, Released(true), Polled);
  }

  /** A user that polls nothing: the response that takes the last free element parks it, so that
      a reconnect finds an overrun pending. */
  lemma {:induction false} OverrunReached(r: Run, u: Update) returns (es: seq<Event>, t: Run)
    requires r.c.parked.None? && r.c.free > 0
    ensures |es| == r.c.free && forall e :: e in es ==> e == Response(u)
    ensures Reaches(r, es, t) && t.c.parked.Some? && t.c.free == 0
    decreases r.c.free
  {
    var m := Step(r, Response(u));
    if r.c.free == 1 {
      es, t := [Response(u)], m;
      assert es[1..] == [] && Reaches(m, [], m);
    } else {
      var rest;
      rest, t := OverrunReached(m, u);
      es := [Response(u)] + rest;
      assert es[1..] == rest;
    }
  }

  /** Read bit by bit: a polled element shows in every field what the updates so far left
      there, and its overrun bits are the fields changed twice or flagged by the server. */
  lemma {:induction false} TellsBits(s: Slot, blank: Record, history: seq<Update>, lo: nat, hi: nat, f: Field)
    requires Tells(s, blank, history, lo, hi)
    ensures f in s.changed <==> ChangedBy(f, history[lo..hi])
    ensures f in s.overrun <==> ChangedTwice(f, history[lo..hi]) || FlaggedBy(f, history[lo..hi])
  {
    MergedBits(f, history[lo..hi]);
  }
}
