/** A pipelined monitor end to end: server queue, send window, two FIFO wires and the
    client queue, as one state machine. */
module Credit {
  import opened Bytes
  import opened Updates
  import C = ClientModel
  import P = PipelineModel

  /** The server's end of the connection, between its queue and the wires. */
  datatype Requester = Requester(
    open: nat,                    // how many more updates may be sent
    closed: nat,                  // elements sent and kept until they are acked
    acking: nat,                  // elements acked and not yet released to the server queue
    sending: Option<Update>,      // polled from the server queue, not yet written
    report: Option<nat>,          // an ack the window has seen and the queue has not
    awake: bool,                  // due to poll
    unlisten: bool,               // the queue has reported the end of the stream
    ended: bool,                  // that has been sent on to the client
    destroyed: bool)

  datatype System = System(
    server: P.Server,
    put: seq<Update>,             // everything the session has put so far
    req: Requester,
    down: seq<Update>,            // updates on the wire to the client
    client: C.Run,
    up: seq<nat>,                 // acks on the wire to the server
    leaked: nat,                  // elements recycled unread by restarts, which are never acked
    told: bool)                   // the end of the stream has arrived at the client

  /** The client has subscribed: its queue size is on its way as the first credit. */
  function Subscribed(serverSize: nat, queueSize: nat, ackAny: int, blank: Record): System
  {
    System(P.Fresh(serverSize), [], Requester(0, 0, 0, None, None, false, false, false, false), [],
           C.Opened(queueSize, true, ackAny, blank), [queueSize], 0, false)
  }

  datatype Event =
    | Session(e: P.Event)         // whatever the server side does, short of what is listed below
    | ServerPoll | ServerWrite | Deliver | DeliverEnd
    | UserPoll | UserRelease | UserRestart | AckWrite
    | AckArrive | AckRelease | AckReport

  predicate Enabled(s: System, e: Event)
  {
    match e
    case Session(e) => !e.Polling? && !e.Reporting? && !e.Releasing? && P.Enabled(s.server, e)
    case ServerPoll => s.req.awake && s.req.sending.None?
    case ServerWrite => s.req.sending.Some?
    case Deliver => s.down != []
    case DeliverEnd => s.req.ended && s.down == [] && !s.told
    case UserPoll => true
    case UserRelease => s.client.c.held > 0
    case UserRestart => true
    case AckWrite => s.client.c.reporting
    case AckArrive => s.up != [] && s.req.report.None?
    case AckRelease => s.req.acking > 0
    case AckReport => s.req.report.Some? && s.req.acking == 0
  }

  /** The event may happen, and what it does is defined: an update that arrives has a place,
      and what is released was handed out. */
  predicate Possible(s: System, e: Event)
  {
    && Enabled(s, e) && (e.Deliver? ==> C.HasPlace(s.client.c))
    && (e.AckRelease? || (e.ServerWrite? && s.req.open == 0) ==> s.server.out > 0)
    && (e.ServerPoll? ==> s.req.closed <= s.server.out)
  }

  /** Releases that many elements. */
  function ReleaseAll(s: P.Server, n: nat): P.Server
    requires n <= s.out
  {
    s.(free := s.free + n, out := s.out - n)
  }

  function Act(s: System, e: P.Event): System
    requires Enabled(s, Session(e))
  {
    var seen := P.Step(s.server, e);
    s.(server := seen.server, put := s.put + P.AcceptedBy(s.server, e),
       req := s.req.(awake := s.req.awake || P.Notifies(s.server, e) || seen.unlisten,
                     unlisten := s.req.unlisten || seen.unlisten,
                     destroyed := s.req.destroyed || e.Destroying?))
  }

  /** Polls the queue. With nothing to send, an end of the stream that was reported is told to the
      client and the window is emptied. */
  function PollServer(s: System): System
    requires s.req.closed <= s.server.out
  {
    var p := P.Poll(s.server);
    if p.element.Some? then s.(server := p.server, req := s.req.(sending := p.element))
    else if s.req.unlisten || p.unlisten then
      s.(server := ReleaseAll(p.server, s.req.closed),
         req := s.req.(open := 0, closed := 0, awake := p.unlisten, unlisten := false, ended := true))
    else s.(server := p.server, req := s.req.(awake := false))
  }

  function Write(s: System): System
    requires s.req.sending.Some? && (s.req.open == 0 ==> s.server.out > 0)
  {
    var req := s.req.(sending := None);
    var s' := s.(down := s.down + [s.req.sending.value]);
    if s.req.open == 0 then s'.(server := P.Release(s.server), req := req)
    else s'.(req := req.(open := s.req.open - 1, closed := s.req.closed + 1))
  }

  function Acked(r: Requester, count: nat): Requester
  {
    var nack := if count <= r.closed then count else r.closed;
    r.(open := r.open + count, report := Some(count), closed := r.closed - nack, acking := r.acking + nack)
  }

  function Step(s: System, e: Event): System
    requires Possible(s, e)
  {
    match e
    case Session(e) => Act(s, e)
    case ServerPoll => PollServer(s)
    case ServerWrite => Write(s)
    case Deliver => s.(down := s.down[1..], client := C.Step(s.client, C.Response(s.down[0])))
    case DeliverEnd => s.(client := C.Step(s.client, C.Unlistened), told := true)
    case UserPoll => s.(client := C.Step(s.client, C.Polled))
    case UserRelease => s.(client := C.Step(s.client, C.Released(true)))
    case UserRestart =>
      s.(client := C.Step(s.client, C.Restarted), leaked := s.leaked + |s.client.c.queue| + C.Parked(s.client.c))
    case AckWrite => s.(client := C.Step(s.client, C.AckWritten), up := s.up + [s.client.c.released])
    case AckArrive => s.(up := s.up[1..], req := Acked(s.req, s.up[0]))
    case AckRelease => s.(server := P.Release(s.server), req := s.req.(acking := s.req.acking - 1))
    case AckReport =>
      var n := s.req.report.value;
      s.(server := P.Report(s.server, n),
         req := s.req.(report := None, awake := s.req.awake || P.Notifies(s.server, P.Reporting(n))))
  }

  function Sum(ns: seq<nat>): nat
  {
    if ns == [] then 0 else ns[0] + Sum(ns[1..])
  }

  lemma {:induction false} SumMore(ns: seq<nat>, n: nat)
    ensures Sum(ns + [n]) == Sum(ns) + n
  {
    if ns == [] {
      assert [n][1..] == [];
    } else {
      SumMore(ns[1..], n);
      assert (ns + [n])[1..] == ns[1..] + [n];
    }
  }

  function OnItsWay(r: Requester): seq<Update>
  {
    if r.sending.Some? then [r.sending.value] else []
  }

  function Reported(r: Requester): nat
  {
    if r.report.Some? then r.report.value else 0
  }

  /** Elements on the client's side. */
  function ClientHeld(c: C.Client): nat
  {
    |c.queue| + C.Parked(c) + c.held
  }

  /** What the client has got and not acked, or the ack is on its way back. */
  function Unacked(s: System): nat
  {
    |s.down| + ClientHeld(s.client.c) + s.client.c.released + Sum(s.up) + s.leaked
  }

  /** Credit is neither lost nor made up, but for what restarts leak. */
  predicate Balanced(s: System)
  {
    s.server.requested + Reported(s.req) + |OnItsWay(s.req)| + Unacked(s) == s.client.c.queueSize
  }

  /** Nothing is lost, duplicated or reordered between the session and the client. */
  predicate Ordered(s: System)
  {
    s.client.history + s.down + OnItsWay(s.req) + s.server.filled == s.put
  }

  /** Every element on the client's side tells one update. */
  predicate Unmerged(r: C.Run)
  {
    && |r.marks| == |r.c.queue| + 1
    && (forall i :: 0 <= i < |r.c.queue| ==> r.marks[i + 1] == r.marks[i] + 1)
    && (r.c.parked.Some? ==> r.marks[|r.c.queue|] + 1 == |r.history|)
  }

  /** The first credit is still on its way, so nothing has been sent. */
  predicate Unopened(s: System)
  {
    s.up == [s.client.c.queueSize] && s.req.closed == 0 && !s.client.c.reporting
  }

  /** The server's elements: none is lost, and those handed out are accounted for. */
  predicate Kept(s: P.Server, r: Requester)
  {
    && P.Conserved(s) && s.out == r.closed + |OnItsWay(r)| + r.acking
    && (r.report.None? ==> r.acking == 0)
  }

  /** Until the stream has ended the window keeps an element for every update not acked, and is as
      wide as the credit the queue has or is about to get. */
  predicate Windowed(s: System)
  {
    if s.req.ended then s.req.closed == 0 && s.req.sending.None?
    else
      && (Unopened(s) || s.req.closed == Unacked(s))
      && s.req.open == s.server.requested + Reported(s.req) + |OnItsWay(s.req)|
  }

  /** The end of the stream is reported when it is due, and nobody sleeps over an element. */
  predicate Attentive(s: P.Server, r: Requester)
  {
    && P.Ended(s) && (r.unlisten || r.ended ==> s.unlistened)
    && (s.unlistened && !r.ended ==> r.unlisten && r.awake)
    && (s.done && s.filled == [] && !r.ended ==> r.awake || r.destroyed)
    && (P.CanPoll(s) ==> r.awake)
  }

  ghost predicate ClientInv(r: C.Run)
  {
    && C.Faithful(r) && r.c.pipeline && Unmerged(r)
    && (r.c.released < r.c.ackAny || r.c.reporting || r.c.released == 0)
  }

  ghost predicate Inv(s: System)
  {
    && ClientInv(s.client) && Balanced(s) && Ordered(s) && Kept(s.server, s.req) && Windowed(s)
    && Attentive(s.server, s.req) && (s.told ==> s.req.ended && s.down == [])
  }

  lemma {:induction false} InitInv(serverSize: nat, queueSize: nat, ackAny: int, blank: Record)
    requires queueSize >= 2
    ensures Inv(Subscribed(serverSize, queueSize, ackAny, blank))
  {
    SumMore([], queueSize);
    assert [] + [queueSize] == [queueSize];
  }

  /** An update on the wire always finds a free element, so none is ever merged. */
  lemma {:induction false} NeverMerges(s: System)
    requires Inv(s) && s.down != []
    ensures s.client.c.free > 0 && s.client.c.parked.None?
  {
  }

  // ----- the server's steps -----

  lemma {:induction false} SessionInv(s: System, e: P.Event)
    requires Inv(s) && Enabled(s, Session(e))
    ensures Inv(Step(s, Session(e)))
  {
    var before := s.client.history + s.down + OnItsWay(s.req);
    P.EveryStep(s.server, e);
    P.StaysAlert(s.server, s.req.awake, e);
    if P.AcceptedBy(s.server, e) == [] {
      assert s.put + [] == s.put;
    } else {
      ConcatAssociative(before, s.server.filled, [e.u]);
    }
  }

  lemma {:induction false} PollSends(s: System)
    requires Inv(s) && Enabled(s, ServerPoll) && P.Poll(s.server).element.Some?
    ensures Inv(Step(s, ServerPoll))
  {
    var before, f := s.client.history + s.down, s.server.filled;
    P.EveryStep(s.server, P.Polling);
    assert f == [f[0]] + f[1..] && before + [] == before;
    ConcatAssociative(before, [f[0]], f[1..]);
  }

  lemma {:induction false} PollSleeps(s: System)
    requires Inv(s) && Enabled(s, ServerPoll) && P.Poll(s.server).element.None?
    ensures Inv(Step(s, ServerPoll))
  {
    P.EveryStep(s.server, P.Polling);
  }

  lemma {:induction false} ServerWriteInv(s: System)
    requires Inv(s) && Enabled(s, ServerWrite)
    ensures Inv(Step(s, ServerWrite))
  {
    var u, h := s.req.sending.value, s.client.history;
    assert s.req.open > 0;
    ConcatAssociative(h, s.down, [u]);
    assert h + (s.down + [u]) + [] == h + (s.down + [u]);
  }

  lemma {:induction false} AckArriveInv(s: System)
    requires Inv(s) && Enabled(s, AckArrive)
    ensures Inv(Step(s, AckArrive))
  {
    assert Unopened(s) ==> s.up[1..] == [];
  }

  lemma {:induction false} AckReleaseInv(s: System)
    requires Inv(s) && Enabled(s, AckRelease)
    ensures Inv(Step(s, AckRelease))
  {
  }

  lemma {:induction false} AckReportInv(s: System)
    requires Inv(s) && Enabled(s, AckReport)
    ensures Inv(Step(s, AckReport))
  {
    P.StaysAlert(s.server, s.req.awake, P.Reporting(s.req.report.value));
  }

  // ----- the client's steps -----

  /** The client takes an update in. */
  lemma {:induction false} TakenIn(r: C.Run, u: Update)
    requires ClientInv(r) && r.c.parked.None? && r.c.free > 0
    ensures var t := C.Step(r, C.Response(u));
            && ClientInv(t) && t.history == r.history + [u]
            && ClientHeld(t.c) == ClientHeld(r.c) + 1
            && t.c == r.c.(free := t.c.free, queue := t.c.queue, parked := t.c.parked, latest := t.c.latest)
  {
    C.StepFaithful(r, C.Response(u));
  }

  lemma {:induction false} Polled(r: C.Run)
    requires ClientInv(r)
    ensures var t := C.Step(r, C.Polled);
            && ClientInv(t) && t.history == r.history && ClientHeld(t.c) == ClientHeld(r.c)
            && t.c == r.c.(queue := t.c.queue, held := t.c.held, ending := t.c.ending)
  {
    C.StepFaithful(r, C.Polled);
  }

  lemma {:induction false} ReleaseUnmerged(r: C.Run)
    requires r.c.held > 0 && Unmerged(r)
    ensures Unmerged(C.Step(r, C.Released(true)))
  {
    var t := C.Step(r, C.Released(true));
    forall i | 0 <= i < |t.c.queue|
      ensures t.marks[i + 1] == t.marks[i] + 1
    {
    }
  }

  /** A released element is owed to the server, and makes an ack due in time. */
  lemma {:induction false} Released(r: C.Run)
    requires ClientInv(r) && r.c.held > 0
    ensures var t := C.Step(r, C.Released(true));
            && ClientInv(t) && t.history == r.history
            && ClientHeld(t.c) + t.c.released == ClientHeld(r.c) + r.c.released
            && t.c.queueSize == r.c.queueSize
  {
    C.StepFaithful(r, C.Released(true));
    ReleaseUnmerged(r);
  }

  lemma {:induction false} RestartedInv(r: C.Run)
    requires ClientInv(r)
    ensures var t := C.Step(r, C.Restarted);
            && ClientInv(t) && t.history == r.history
            && ClientHeld(t.c) + |r.c.queue| + C.Parked(r.c) == ClientHeld(r.c)
            && t.c == r.c.(free := t.c.free, queue := [], parked := None)
  {
    C.StepFaithful(r, C.Restarted);
  }

  lemma {:induction false} DeliverInv(s: System)
    requires Inv(s) && s.down != []
    ensures Inv(Step(s, Deliver))
  {
    NeverMerges(s);
    TakenIn(s.client, s.down[0]);
    assert s.down == [s.down[0]] + s.down[1..];
    ConcatAssociative(s.client.history, [s.down[0]], s.down[1..]);
  }

  lemma {:induction false} DeliverEndInv(s: System)
    requires Inv(s) && Enabled(s, DeliverEnd)
    ensures Inv(Step(s, DeliverEnd))
  {
    C.StepFaithful(s.client, C.Unlistened);
  }

  lemma {:induction false} UserPollInv(s: System)
    requires Inv(s)
    ensures Inv(Step(s, UserPoll))
  {
    Polled(s.client);
  }

  lemma {:induction false} UserReleaseInv(s: System)
    requires Inv(s) && Enabled(s, UserRelease)
    ensures Inv(Step(s, UserRelease))
  {
    Released(s.client);
  }

  lemma {:induction false} UserRestartInv(s: System)
    requires Inv(s)
    ensures Inv(Step(s, UserRestart))
  {
    RestartedInv(s.client);
  }

  lemma {:induction false} AckWriteInv(s: System)
    requires Inv(s) && Enabled(s, AckWrite)
    ensures Inv(Step(s, AckWrite))
  {
    C.StepFaithful(s.client, C.AckWritten);
    SumMore(s.up, s.client.c.released);
  }

  /** Every step of either party or a wire keeps the invariant. */
  lemma {:induction false} StepInv(s: System, e: Event)
    requires Inv(s) && Enabled(s, e)
    ensures Possible(s, e) && Inv(Step(s, e))
  {
    match e
    case Session(e) => SessionInv(s, e);
    case ServerPoll =>
      if P.Poll(s.server).element.Some? {
        PollSends(s);
      } else {
        PollSleeps(s);
      }
    case ServerWrite => ServerWriteInv(s);
    case Deliver => DeliverInv(s);
    case DeliverEnd => DeliverEndInv(s);
    case UserPoll => UserPollInv(s);
    case UserRelease => UserReleaseInv(s);
    case UserRestart => UserRestartInv(s);
    case AckWrite => AckWriteInv(s);
    case AckArrive => AckArriveInv(s);
    case AckRelease => AckReleaseInv(s);
    case AckReport => AckReportInv(s);
  }

  /** The events lead from `s` to `t`, each possible where it happens. */
  predicate Leads(s: System, es: seq<Event>, t: System)
    decreases |es|
  {
    if es == [] then s == t
    else Possible(s, es[0]) && Leads(Step(s, es[0]), es[1..], t)
  }

  predicate SameSetup(s: System, t: System)
  {
    && t.client.c.queueSize == s.client.c.queueSize && t.client.c.ackAny == s.client.c.ackAny
    && t.client.c.blank == s.client.c.blank && t.server.queueSize == s.server.queueSize
  }

  lemma {:induction false} ClientSetup(r: C.Run, e: C.Event)
    requires C.Possible(r.c, e)
    ensures var c := C.Step(r, e).c;
            c.queueSize == r.c.queueSize && c.ackAny == r.c.ackAny && c.blank == r.c.blank
  {
  }

  lemma {:induction false} StepSetup(s: System, e: Event)
    requires Possible(s, e)
    ensures SameSetup(s, Step(s, e))
  {
    match e
    case Deliver => ClientSetup(s.client, C.Response(s.down[0]));
    case DeliverEnd => ClientSetup(s.client, C.Unlistened);
    case UserPoll => ClientSetup(s.client, C.Polled);
    case UserRelease => ClientSetup(s.client, C.Released(true));
    case UserRestart => ClientSetup(s.client, C.Restarted);
    case AckWrite => ClientSetup(s.client, C.AckWritten);
    case _ =>
  }

  lemma {:induction false} RunInv(s: System, es: seq<Event>, t: System)
    requires Inv(s) && Leads(s, es, t)
    ensures Inv(t) && SameSetup(s, t)
    decreases |es|
  {
    if es != [] {
      StepInv(s, es[0]);
      StepSetup(s, es[0]);
      RunInv(Step(s, es[0]), es[1..], t);
    }
  }

  /** In every reachable state of a pipelined connection: every step is defined; credit adds up to
      the client's queue, what restarts leaked included, and elements to the server's; an arriving
      update finds a free element; the next element polled tells exactly one update, the next one
      put that has not left the client's queue; nothing is sent outside the window, and nobody
      sleeps while there is something to send. */
  lemma {:induction false} EveryRun(serverSize: nat, queueSize: nat, ackAny: int, blank: Record, es: seq<Event>, t: System)
    requires queueSize >= 2 && Leads(Subscribed(serverSize, queueSize, ackAny, blank), es, t)
    ensures t.client.c.queueSize == queueSize && Balanced(t) && Ordered(t)
    ensures t.server.queueSize == serverSize && Kept(t.server, t.req) && Windowed(t)
    ensures t.down != [] ==> t.client.c.free > 0 && t.client.c.parked.None?
    ensures forall e :: Enabled(t, e) ==> Possible(t, e)
    ensures t.req.sending.Some? ==> t.req.open > 0
    ensures P.CanPoll(t.server) ==> t.req.awake
    ensures C.Conserved(t.client.c) && |t.client.marks| == |t.client.c.queue| + 1
    ensures t.client.c.queue != [] ==>
              var k := t.client.marks[0];
              && k < |t.put|
              && t.client.c.queue[0] == Slot(Fold(blank, t.put[..k + 1]), t.put[k].values.Keys, t.put[k].overrun)
              && Step(t, UserPoll).client.marks[0] == k + 1
  {
    InitInv(serverSize, queueSize, ackAny, blank);
    RunInv(Subscribed(serverSize, queueSize, ackAny, blank), es, t);
    if t.down != [] {
      NeverMerges(t);
    }
    if t.client.c.queue != [] {
      NextElement(t);
    }
    forall e | Enabled(t, e)
      ensures Possible(t, e)
    {
      StepInv(t, e);
    }
  }

  /** The element polled next tells one update: the one put after those that left the queue before. */
  lemma {:induction false} NextElement(t: System)
    requires Inv(t) && t.client.c.queue != []
    ensures var k := t.client.marks[0];
            && k < |t.put| && t.client.marks[1] == k + 1
            && t.client.c.queue[0]
               == Slot(Fold(t.client.c.blank, t.put[..k + 1]), t.put[k].values.Keys, t.put[k].overrun)
  {
    var k, h := t.client.marks[0], t.client.history;
    assert C.Tells(t.client.c.queue[0], t.client.c.blank, h, k, t.client.marks[1]);
    assert h <= t.put;
    assert h[..k + 1] == t.put[..k + 1] && h[k..k + 1] == [t.put[k]];
  }

  // ----- acks -----

  /** How many releases there are since the last ack was written, `k` of them before these events. */
  function Since(k: nat, es: seq<Event>): nat
    decreases |es|
  {
    if es == [] then k
    else Since(if es[0].UserRelease? then k + 1 else if es[0].AckWrite? then 0 else k, es[1..])
  }

  predicate Counting(c: C.Client, k: nat)
  {
    c.pipeline && c.released == k && (c.reporting <==> k >= c.ackAny)
  }

  lemma {:induction false} CountingStep(s: System, k: nat, e: Event)
    requires Possible(s, e) && Counting(s.client.c, k) && s.client.c.ackAny >= 1
    ensures Counting(Step(s, e).client.c, Since(k, [e]))
  {
    assert [e][1..] == [];
  }

  lemma {:induction false} CountingRun(s: System, k: nat, es: seq<Event>, t: System)
    requires Leads(s, es, t) && Counting(s.client.c, k) && s.client.c.ackAny >= 1
    ensures Counting(t.client.c, Since(k, es)) && t.client.c.ackAny == s.client.c.ackAny
    decreases |es|
  {
    if es != [] {
      CountingStep(s, k, es[0]);
      StepSetup(s, es[0]);
      assert [es[0]][1..] == [];
      CountingRun(Step(s, es[0]), Since(k, [es[0]]), es[1..], t);
    }
  }

  // ----- standstills -----

  /** Nothing is on its way in either direction, and the client has nothing to release. */
  predicate Silent(s: System)
  {
    && s.req.report.None? && s.req.sending.None? && s.down == [] && s.up == []
    && !s.client.c.reporting && ClientHeld(s.client.c) == 0
  }

  /** The server may send nothing, or has nothing to send and no element left to fill. */
  predicate Spent(s: P.Server)
  {
    s.requested == 0 || (s.filled == [] && s.free == 0 && s.session == 0)
  }

  /** The stream is at a standstill: the server cannot go on, or nobody tells it to. */
  predicate Deadlocked(s: System)
  {
    Silent(s) && (Spent(s.server) || (P.CanPoll(s.server) && !s.req.awake))
  }

  /** A run of a fresh subscription that ends in a standstill, having leaked that much credit. */
  predicate Starves(serverSize: nat, queueSize: nat, ackAny: int, blank: Record, leaked: nat, es: seq<Event>, t: System)
  {
    Leads(Subscribed(serverSize, queueSize, ackAny, blank), es, t) && Deadlocked(t) && t.leaked == leaked
  }

  /** No update will reach the client any more: a standstill, or a stream that is over. */
  predicate Over(s: System)
  {
    Silent(s) && (Spent(s.server) || (s.server.done && s.server.filled == []))
  }

  lemma {:induction false} OverKept(s: System, e: Event)
    requires Inv(s) && Over(s) && Possible(s, e)
    ensures Over(Step(s, e)) && Step(s, e).client.history == s.client.history
  {
  }

  /** A standstill is for good: whatever happens, the client gets no further update. */
  lemma {:induction false} DeadlockStays(s: System, es: seq<Event>, t: System)
    requires Inv(s) && (Deadlocked(s) || Over(s)) && Leads(s, es, t)
    ensures Over(t) && t.client.history == s.client.history
    decreases |es|
  {
    if es != [] {
      OverKept(s, es[0]);
      StepInv(s, es[0]);
      DeadlockStays(Step(s, es[0]), es[1..], t);
    }
  }

  /** The smaller one of the two queues. */
  function Slots(serverSize: nat, queueSize: nat): nat
  {
    if serverSize <= queueSize then serverSize else queueSize
  }

  lemma {:induction false} DeadlockNeeds(t: System)
    requires Inv(t) && Deadlocked(t) && t.server.queueSize >= 1 && t.client.c.ackAny >= 1
    ensures t.client.c.ackAny + t.leaked > Slots(t.server.queueSize, t.client.c.queueSize)
  {
  }

  lemma {:induction false} NoDeadlock(serverSize: nat, queueSize: nat, ackAny: int, blank: Record, leaked: nat,
                                      es: seq<Event>, t: System)
    requires 2 <= queueSize && 1 <= serverSize && 1 <= ackAny && ackAny + leaked <= Slots(serverSize, queueSize)
    ensures !Starves(serverSize, queueSize, ackAny, blank, leaked, es, t)
  {
    var s := Subscribed(serverSize, queueSize, ackAny, blank);
    if Starves(serverSize, queueSize, ackAny, blank, leaked, es, t) {
      InitInv(serverSize, queueSize, ackAny, blank);
      RunInv(s, es, t);
      DeadlockNeeds(t);
    }
  }

  lemma {:induction false} LeadsMore(s: System, es: seq<Event>, m: System, e: Event)
    requires Leads(s, es, m) && Possible(m, e)
    ensures Leads(s, es + [e], Step(m, e))
    decreases |es|
  {
    var all, t := es + [e], Step(m, e);
    if es == [] {
      assert all[1..] == [] && Leads(t, [], t);
    } else {
      LeadsMore(Step(s, es[0]), es[1..], m, e);
      assert all[1..] == es[1..] + [e];
    }
  }

  lemma {:induction false} Extend(s: System, es: seq<Event>, m: System, e: Event) returns (es': seq<Event>, t: System)
    requires Leads(s, es, m) && Inv(m) && Enabled(m, e)
    ensures Possible(m, e) && es' == es + [e] && t == Step(m, e) && Leads(s, es', t) && Inv(t)
  {
    StepInv(m, e);
    es', t := es + [e], Step(m, e);
    LeadsMore(s, es, m, e);
  }

  /** `k` elements have gone round without an ack, and `leaked` were recycled. */
  predicate Idle(s: System, k: nat, leaked: nat)
  {
    && Silent(s) && Serving(s.server) && !s.req.ended
    && s.client.c.queueSize >= 2 && s.client.c.released == k && s.leaked == leaked && k + leaked <= Limit(s)
  }

  /** Started, and with nothing filled or being filled. */
  predicate Serving(s: P.Server)
  {
    s.active && !s.done && s.filled == [] && s.session == 0
  }

  function Limit(s: System): nat
  {
    Slots(s.server.queueSize, s.client.c.queueSize)
  }

  lemma {:induction false} IdleCounts(s: System, k: nat, leaked: nat)
    requires Inv(s) && Idle(s, k, leaked)
    ensures s.server.free == s.server.queueSize - k - leaked
    ensures s.server.requested == s.client.c.queueSize - k - leaked
  {
  }

  /** The session puts an update. */
  lemma {:induction false} PutOne(s: System, es: seq<Event>, m: System, k: nat, leaked: nat)
    returns (es': seq<Event>, t: System)
    requires Leads(s, es, m) && Inv(m) && Idle(m, k, leaked) && k + leaked < Limit(m)
    ensures Leads(s, es', t) && Inv(t)
    ensures t == m.(server := t.server, put := t.put, req := m.req.(awake := true))
    ensures t.server == m.server.(free := t.server.free, filled := [Update(map[], {})]) && t.server.requested > 0
  {
    IdleCounts(m, k, leaked);
    es', t := Extend(s, es, m, Session(P.Getting));
    es', t := Extend(s, es', t, Session(P.Putting(Update(map[], {}))));
  }

  lemma {:induction false} ExtendPoll(s: System, es: seq<Event>, m: System) returns (es': seq<Event>, t: System)
    requires Leads(s, es, m) && Inv(m) && m.req.sending.None? && m.req.awake
    requires |m.server.filled| == 1 && m.server.requested > 0 && m.server.active
    ensures Leads(s, es', t) && Inv(t)
    ensures t == m.(server := t.server, req := m.req.(sending := Some(m.server.filled[0])))
    ensures t.server == m.server.(filled := [], requested := m.server.requested - 1, out := m.server.out + 1)
  {
    assert m.server.filled[1..] == [];
    es', t := Extend(s, es, m, ServerPoll);
  }

  lemma {:induction false} ExtendWrite(s: System, es: seq<Event>, m: System) returns (es': seq<Event>, t: System)
    requires Leads(s, es, m) && Inv(m) && m.req.sending.Some?
    ensures Leads(s, es', t) && Inv(t)
    ensures t == m.(down := m.down + [m.req.sending.value], req := t.req)
    ensures t.req == m.req.(sending := None, open := t.req.open, closed := t.req.closed)
  {
    es', t := Extend(s, es, m, ServerWrite);
  }

  /** One update is put and sent. */
  lemma {:induction false} SendOne(s: System, es: seq<Event>, m: System, k: nat, leaked: nat)
    returns (es': seq<Event>, t: System)
    requires Leads(s, es, m) && Inv(m) && Idle(m, k, leaked) && k + leaked < Limit(m)
    ensures Leads(s, es', t) && Inv(t) && Underway(m, t)
  {
    es', t := PutOne(s, es, m, k, leaked);
    es', t := ExtendPoll(s, es', t);
    es', t := ExtendWrite(s, es', t);
  }

  /** The same with one update on its way to the client. */
  predicate Underway(m: System, t: System)
  {
    && t.client == m.client && |t.down| == 1 && t.up == m.up && t.leaked == m.leaked
    && t.req.report.None? && t.req.sending.None? && t.req.ended == m.req.ended
    && t.server.queueSize == m.server.queueSize && Serving(t.server)
  }

  lemma {:induction false} ExtendClient(s: System, es: seq<Event>, m: System, e: Event) returns (es': seq<Event>, t: System)
    requires Leads(s, es, m) && Inv(m) && Enabled(m, e)
    requires e.Deliver? || e.UserPoll? || e.UserRelease? || e.UserRestart?
    ensures Leads(s, es', t) && Inv(t) && C.HasPlace(m.client.c)
    ensures t == m.(down := if e.Deliver? then m.down[1..] else m.down, client := t.client, leaked := t.leaked)
    ensures t.leaked == m.leaked + if e.UserRestart? then |m.client.c.queue| + C.Parked(m.client.c) else 0
    ensures t.client.c == if e.Deliver? then C.Respond(m.client.c, m.down[0])
                          else if e.UserPoll? then C.Poll(m.client.c)
                          else if e.UserRelease? then C.Release(m.client.c, true)
                          else C.Restart(m.client.c)
  {
    es', t := Extend(s, es, m, e);
  }

  /** The client alone: an update comes in, and is polled and released before an ack is due, or
      recycled by a restart. */
  lemma {:induction false} ClientRound(c: C.Client, u: Update)
    requires C.Conserved(c) && c.queueSize >= 2 && c.pipeline && !c.reporting && ClientHeld(c) == 0
    ensures var c1 := C.Respond(c, u);
            var c2 := C.Poll(c1);
            && C.Conserved(c1) && |c1.queue| == 1 && c1.parked.None? && c2.held == 1
            && (c.released + 1 < c.ackAny ==> C.Release(c2, true) == c.(latest := c1.latest, released := c.released + 1))
            && C.Restart(c1) == c.(latest := c1.latest)
  {
    var c1 := C.Respond(c, u);
    assert c.queue == [] && |c1.queue| == 1 && c1.queue[1..] == [] && [] + C.Waiting(C.Poll(c1)) == [];
  }

  /** One more element goes round. */
  lemma {:induction false} OneRound(s: System, es: seq<Event>, m: System, k: nat, leaked: nat)
    returns (es': seq<Event>, t: System)
    requires Leads(s, es, m) && Inv(m) && Idle(m, k, leaked) && k + leaked < Limit(m) && k + 1 < m.client.c.ackAny
    ensures Leads(s, es', t) && Inv(t) && Idle(t, k + 1, leaked) && SameSetup(m, t)
  {
    es', t := SendOne(s, es, m, k, leaked);
    ClientRound(t.client.c, t.down[0]);
    assert t.down[1..] == [];
    es', t := ExtendClient(s, es', t, Deliver);
    es', t := ExtendClient(s, es', t, UserPoll);
    es', t := ExtendClient(s, es', t, UserRelease);
  }

  /** One more element is leaked. */
  lemma {:induction false} OneLeak(s: System, es: seq<Event>, m: System, leaked: nat)
    returns (es': seq<Event>, t: System)
    requires Leads(s, es, m) && Inv(m) && Idle(m, 0, leaked) && leaked < Limit(m)
    ensures Leads(s, es', t) && Inv(t) && Idle(t, 0, leaked + 1) && SameSetup(m, t)
  {
    es', t := SendOne(s, es, m, 0, leaked);
    ClientRound(t.client.c, t.down[0]);
    assert t.down[1..] == [];
    es', t := ExtendClient(s, es', t, Deliver);
    es', t := ExtendClient(s, es', t, UserRestart);
  }

  lemma {:induction false} Leak(s: System, es: seq<Event>, m: System, leaked: nat, n: nat)
    returns (es': seq<Event>, t: System)
    requires Leads(s, es, m) && Inv(m) && Idle(m, 0, leaked) && leaked <= n <= Limit(m)
    ensures Leads(s, es', t) && Inv(t) && Idle(t, 0, n) && SameSetup(m, t)
    decreases n - leaked
  {
    es', t := es, m;
    if leaked < n {
      es', t := OneLeak(s, es, m, leaked);
      es', t := Leak(s, es', t, leaked + 1, n);
    }
  }

  lemma {:induction false} UseUp(s: System, es: seq<Event>, m: System, k: nat, leaked: nat)
    returns (es': seq<Event>, t: System)
    requires Leads(s, es, m) && Inv(m) && Idle(m, k, leaked) && Limit(m) < m.client.c.ackAny + leaked
    ensures Leads(s, es', t) && Inv(t) && leaked <= Limit(t) && Idle(t, Limit(t) - leaked, leaked)
    decreases Limit(m) - k
  {
    es', t := es, m;
    if k + leaked < Limit(m) {
      es', t := OneRound(s, es, m, k, leaked);
      es', t := UseUp(s, es', t, k + 1, leaked);
    }
  }

  /** The subscription is started and its first credit has arrived. */
  lemma {:induction false} Begin(serverSize: nat, queueSize: nat, ackAny: int, blank: Record)
    returns (es: seq<Event>, t: System)
    requires 2 <= queueSize
    ensures var s := Subscribed(serverSize, queueSize, ackAny, blank);
            Leads(s, es, t) && Inv(t) && Idle(t, 0, 0) && SameSetup(s, t)
  {
    var s := Subscribed(serverSize, queueSize, ackAny, blank);
    InitInv(serverSize, queueSize, ackAny, blank);
    assert Leads(s, [], s) && [queueSize][1..] == [];
    es, t := Extend(s, [], s, Session(P.Start));
    es, t := Extend(s, es, t, AckArrive);
    es, t := Extend(s, es, t, AckReport);
  }

  lemma {:induction false} DeadlockReachable(serverSize: nat, queueSize: nat, ackAny: int, blank: Record, leaked: nat)
    returns (es: seq<Event>, t: System)
    requires 2 <= queueSize && leaked <= Slots(serverSize, queueSize) < ackAny + leaked
    ensures Starves(serverSize, queueSize, ackAny, blank, leaked, es, t)
  {
    var s := Subscribed(serverSize, queueSize, ackAny, blank);
    es, t := Begin(serverSize, queueSize, ackAny, blank);
    es, t := Leak(s, es, t, 0, leaked);
    es, t := UseUp(s, es, t, 0, leaked);
    IdleCounts(t, Limit(t) - leaked, leaked);
  }

  /** Runs that leak a given amount of credit can come to a standstill exactly if the ack threshold
      exceeds what is left of the smaller queue. */
  lemma {:induction false} DeadlockExactly(serverSize: nat, queueSize: nat, ackAny: int, blank: Record, leaked: nat)
    requires 2 <= queueSize && 1 <= serverSize && 1 <= ackAny && leaked <= Slots(serverSize, queueSize)
    ensures (exists es, t :: Starves(serverSize, queueSize, ackAny, blank, leaked, es, t))
            <==> ackAny + leaked > Slots(serverSize, queueSize)
  {
    if ackAny + leaked > Slots(serverSize, queueSize) {
      var es, t := DeadlockReachable(serverSize, queueSize, ackAny, blank, leaked);
    } else {
      forall es, t
        ensures !Starves(serverSize, queueSize, ackAny, blank, leaked, es, t)
      {
        NoDeadlock(serverSize, queueSize, ackAny, blank, leaked, es, t);
      }
    }
  }

  // ----- the end of the stream -----

  /** Over every run: the end arrives at the client only after everything that was put. While everything
      has been polled from an ended queue, and nobody destroyed it, the server is awake, and with nothing
      to write its next poll sends the end. */
  lemma {:induction false} EndInOrder(serverSize: nat, queueSize: nat, ackAny: int, blank: Record, es: seq<Event>, t: System)
    requires queueSize >= 2 && Leads(Subscribed(serverSize, queueSize, ackAny, blank), es, t)
    ensures t.told ==> t.client.history == t.put
    ensures t.server.done && t.server.filled == [] && !t.req.destroyed && !t.req.ended ==>
              t.req.awake && (t.req.sending.None? ==> Possible(t, ServerPoll) && Step(t, ServerPoll).req.ended)
  {
    InitInv(serverSize, queueSize, ackAny, blank);
    RunInv(Subscribed(serverSize, queueSize, ackAny, blank), es, t);
    if Enabled(t, ServerPoll) {
      StepInv(t, ServerPoll);
    }
    var h := t.client.history;
    assert t.told ==> h + [] + [] + [] == h;
  }

  lemma {:induction false} DeliverAll(s: System, es: seq<Event>, m: System) returns (es': seq<Event>, t: System)
    requires Leads(s, es, m) && Inv(m) && m.req.ended && !m.told
    ensures Leads(s, es', t) && Inv(t) && t.told
    decreases |m.down|
  {
    if m.down == [] {
      es', t := Extend(s, es, m, DeliverEnd);
    } else {
      es', t := Extend(s, es, m, Deliver);
      es', t := DeliverAll(s, es', t);
    }
  }

  /** A session that ends the stream is heard: once everything is polled, the requester and the wire
      alone bring the end to the client. */
  lemma {:induction false} EndArrives(s: System, es: seq<Event>, m: System) returns (es': seq<Event>, t: System)
    requires Leads(s, es, m) && Inv(m) && m.server.done && m.server.filled == [] && !m.req.destroyed
    ensures Leads(s, es', t) && Inv(t) && t.told
  {
    es', t := WriteOut(s, es, m);
    if !t.req.ended {
      es', t := PollEnd(s, es', t);
    }
    if !t.told {
      es', t := DeliverAll(s, es', t);
    }
  }

  lemma {:induction false} WriteOut(s: System, es: seq<Event>, m: System) returns (es': seq<Event>, t: System)
    requires Leads(s, es, m) && Inv(m)
    ensures Leads(s, es', t) && Inv(t) && t.req.sending.None? && t.req.ended == m.req.ended
    ensures t.req.destroyed == m.req.destroyed && t.server.done == m.server.done && t.server.filled == m.server.filled
  {
    es', t := es, m;
    if t.req.sending.Some? {
      es', t := Extend(s, es', t, ServerWrite);
    }
  }

  lemma {:induction false} PollEnd(s: System, es: seq<Event>, m: System) returns (es': seq<Event>, t: System)
    requires Leads(s, es, m) && Inv(m) && m.req.sending.None? && !m.req.ended
    requires m.server.done && m.server.filled == [] && !m.req.destroyed
    ensures Leads(s, es', t) && Inv(t) && t.req.ended
  {
    es', t := Extend(s, es, m, ServerPoll);
  }

  /** The monitor is destroyed with nothing queued, and nobody is awake to see it. */
  predicate Abandoned(s: System)
  {
    s.server.done && s.server.filled == [] && !s.req.awake && !s.req.ended
  }

  lemma {:induction false} AbandonedStep(s: System, e: Event)
    requires Inv(s) && Abandoned(s) && Possible(s, e) && e != Session(P.Ending)
    ensures Abandoned(Step(s, e)) && s.req.destroyed
  {
  }

  /** Then the client is told nothing, unless the session still ends the stream. */
  lemma {:induction false} AbandonedStays(s: System, es: seq<Event>, t: System)
    requires Inv(s) && Abandoned(s) && Leads(s, es, t) && forall i :: 0 <= i < |es| ==> es[i] != Session(P.Ending)
    ensures Abandoned(t) && !t.told
    decreases |es|
  {
    if es != [] {
      AbandonedStep(s, es[0]);
      StepInv(s, es[0]);
      forall i | 0 <= i < |es[1..]|
        ensures es[1..][i] != Session(P.Ending)
      {
        assert es[1..][i] == es[i + 1];
      }
      AbandonedStays(Step(s, es[0]), es[1..], t);
    }
  }

  // ----- options -----

  /** The `queueSize` of a request. Client and server read a text in different ways; the server
      reads nothing but texts. */
  datatype SizeOption = Absent | Text(client: Option<int>, server: int) | Number(n: int)

  /** The `pipeline` of a request, a text with what the client reads in it, or a flag. */
  datatype PipelineOption = Unset | Word(text: string, client: Option<bool>) | Flag(on: bool)

  predicate ClientAsks(o: PipelineOption)
  {
    (o.Word? && o.client == Some(true)) || (o.Flag? && o.on)
  }

  /** The server serves no request but those that say so in a text. */
  predicate ServerGrants(o: PipelineOption)
  {
    o.Word? && o.text == "true"
  }

  /** The ack threshold the client uses. The clamp tests the default against the queue size
      instead of the request, so it never applies. */
  function AckAny(queueSize: int, request: Option<int>): int
  {
    var default := queueSize / 2;
    if request.None? then default
    else if request.value <= 0 then 1
    else if default <= queueSize then request.value else queueSize
  }

  function QueueSize(request: Option<int>): (n: nat)
    ensures n >= 2
  {
    if request.None? || request.value < 2 then 2 else request.value
  }

  function ClientSize(o: SizeOption): nat
  {
    match o
    case Absent => QueueSize(None)
    case Text(n, _) => QueueSize(n)
    case Number(n) => QueueSize(Some(n))
  }

  /** The server's queue size, given the least one its session asks for. */
  function ServerSize(o: SizeOption, least: nat): nat
  {
    Max(least, if o.Text? && o.server > 1 then o.server else 2)
  }

  /** Both sides get it. */
  predicate Readable(o: SizeOption)
  {
    o.Text? ==> o.client == Some(o.server)
  }

  /** The server's queue is as long as the client's exactly if the size is asked for in a text that
      the server reads as no less, or is no more than the session or the default provide anyway. */
  lemma {:induction false} ServerLongEnough(o: SizeOption, least: nat)
    ensures ServerSize(o, least) >= ClientSize(o) <==>
              match o {
                case Absent => true
                case Text(n, m) => n.None? || n.value <= m || n.value <= Max(2, least)
                case Number(n) => n <= Max(2, least)
              }
    ensures Readable(o) && !o.Number? ==> ServerSize(o, least) >= ClientSize(o)
  {
    assert ServerSize(o, least) >= 2;
  }

  /** A request whose size is a number above what the session provides makes the queues differ. */
  lemma {:induction false} ShortServer(n: int, least: nat)
    requires n > 2 && n > least
    ensures ServerSize(Number(n), least) < ClientSize(Number(n))
    ensures ServerSize(Text(Some(n), n), least) == ClientSize(Text(Some(n), n)) == n
  {
  }

  /** When acks are sent, for every request and over every run: one is on its way out exactly from the
      release on that makes it as many releases since the last ack as were asked for, the first one if
      fewer than one was, and half the queue size if nothing was asked for; and it carries them all. */
  lemma {:induction false} AcksOnTime(o: SizeOption, least: nat, ackOption: Option<int>, blank: Record,
                                      es: seq<Event>, t: System)
    requires var q := ClientSize(o); Leads(Subscribed(ServerSize(o, least), q, AckAny(q, ackOption), blank), es, t)
    ensures Enabled(t, AckWrite) <==>
              match ackOption {
                case None => Since(0, es) >= ClientSize(o) / 2
                case Some(v) => if v <= 0 then Since(0, es) >= 1 else Since(0, es) >= v
              }
    ensures Enabled(t, AckWrite) ==> Step(t, AckWrite).up == t.up + [Since(0, es)]
  {
    var q := ClientSize(o);
    CountingRun(Subscribed(ServerSize(o, least), q, AckAny(q, ackOption), blank), 0, es, t);
  }

  /** For every request: the stream can come to a standstill, without restarts, exactly if acks are
      rarer than the smaller one of the two queues is long, both sizes read from that request. */
  lemma {:induction false} OptionsAndDeadlock(o: SizeOption, least: nat, ackOption: Option<int>, blank: Record)
    ensures var q, p := ClientSize(o), ServerSize(o, least);
            var a := AckAny(q, ackOption);
            && ((exists es, t :: Starves(p, q, a, blank, 0, es, t)) <==> a > Slots(p, q))
            && (p >= q ==> (a > Slots(p, q) <==> ackOption.Some? && ackOption.value > q))
            && (ackOption.None? ==> (a > Slots(p, q) <==> q >= 2 * p + 2))
  {
    var q := ClientSize(o);
    assert AckAny(q, ackOption) >= 1;
    DeadlockExactly(ServerSize(o, least), q, AckAny(q, ackOption), blank, 0);
  }

  /** With restarts it always can. */
  lemma {:induction false} RestartsStarve(o: SizeOption, least: nat, ackOption: Option<int>, blank: Record)
    returns (es: seq<Event>, t: System)
    ensures var q, p := ClientSize(o), ServerSize(o, least);
            Starves(p, q, AckAny(q, ackOption), blank, Slots(p, q), es, t)
  {
    var q, p := ClientSize(o), ServerSize(o, least);
    assert AckAny(q, ackOption) >= 1;
    es, t := DeadlockReachable(p, q, AckAny(q, ackOption), blank, Slots(p, q));
  }

  /** A request that is served and stalls by default: pipelining asked for in a text, a size of six
      in a number, and a session that asks for no size. */
  lemma {:induction false} DefaultStalls(blank: Record) returns (pipeline: PipelineOption, es: seq<Event>, t: System)
    ensures ClientAsks(pipeline) && ServerGrants(pipeline)
    ensures ClientSize(Number(6)) == 6 && ServerSize(Number(6), 0) == 2 && AckAny(6, None) == 3
    ensures Starves(2, 6, 3, blank, 0, es, t)
  {
    pipeline := Word("true", Some(true));
    es, t := DeadlockReachable(2, 6, 3, blank, 0);
  }
}
