/** The server end of a pipelined monitor: a queue that hands out no more elements than
    the client has asked for, and reports the end of the stream once. */
module PipelineModel {
  import opened Updates

  datatype Server = Server(
    queueSize: nat, free: nat, filled: seq<Update>, session: nat, out: nat,
    requested: nat, active: bool, done: bool, unlistened: bool)

  function Fresh(queueSize: nat): Server
  {
    Server(queueSize, queueSize, [], 0, 0, 0, false, false, false)
  }

  datatype Polled = Polled(server: Server, element: Option<Update>, unlisten: bool)

  function Poll(s: Server): Polled
  {
    if s.filled == [] || s.requested == 0 || !s.active then
      var unlisten := !s.unlistened && s.done && s.filled == [];
      Polled(s.(unlistened := s.unlistened || unlisten), None, unlisten)
    else
      Polled(s.(filled := s.filled[1..], requested := s.requested - 1, out := s.out + 1), Some(s.filled[0]), false)
  }

  function Release(s: Server): Server
    requires s.out > 0
  {
    s.(free := s.free + 1, out := s.out - 1)
  }

  function Report(s: Server, count: nat): Server
  {
    s.(requested := s.requested + count)
  }

  function GetFree(s: Server): Server
  {
    if s.free == 0 then s else s.(free := s.free - 1, session := s.session + 1)
  }

  /** After the end an element is refused, and stays with the session. */
  function Put(s: Server, u: Update): Server
    requires s.session > 0
  {
    if s.done then s else s.(filled := s.filled + [u], session := s.session - 1)
  }

  /** Whether `done` reports the end of the stream right away. */
  predicate EndsNow(s: Server)
  {
    !s.unlistened && s.filled == []
  }

  function Done(s: Server): Server
  {
    s.(done := true, unlistened := s.unlistened || EndsNow(s))
  }

  function Destroy(s: Server): Server
  {
    s.(active := false, done := true)
  }

  datatype Event =
    | Start | Stop | Polling | Releasing | Reporting(count: nat) | Getting | Putting(u: Update) | Ending | Destroying

  predicate Enabled(s: Server, e: Event)
  {
    match e
    case Releasing => s.out > 0
    case Putting(_) => s.session > 0
    case _ => true
  }

  /** What an observer sees of a step. */
  datatype Seen = Seen(server: Server, element: Option<Update>, unlisten: bool)

  function Step(s: Server, e: Event): Seen
    requires Enabled(s, e)
  {
    match e
    case Start => Seen(s.(active := true), None, false)
    case Stop => Seen(s.(active := false), None, false)
    case Polling => var p := Poll(s); Seen(p.server, p.element, p.unlisten)
    case Releasing => Seen(Release(s), None, false)
    case Reporting(count) => Seen(Report(s, count), None, false)
    case Getting => Seen(GetFree(s), None, false)
    case Putting(u) => Seen(Put(s, u), None, false)
    case Ending => Seen(Done(s), None, EndsNow(s))
    case Destroying => Seen(Destroy(s), None, false)
  }

  /** A finite run: every event is possible where it happens. */
  predicate Possible(s: Server, es: seq<Event>)
    decreases |es|
  {
    es == [] || (Enabled(s, es[0]) && Possible(Step(s, es[0]).server, es[1..]))
  }

  function After(s: Server, es: seq<Event>): Server
    requires Possible(s, es)
    decreases |es|
  {
    if es == [] then s else After(Step(s, es[0]).server, es[1..])
  }

  /** How often a run reports the end of the stream. */
  function Ends(s: Server, es: seq<Event>): nat
    requires Possible(s, es)
    decreases |es|
  {
    if es == [] then 0
    else (if Step(s, es[0]).unlisten then 1 else 0) + Ends(Step(s, es[0]).server, es[1..])
  }

  /** The elements a run hands out. */
  function Handed(s: Server, es: seq<Event>): seq<Update>
    requires Possible(s, es)
    decreases |es|
  {
    if es == [] then []
    else HandedBy(s, es[0]) + Handed(Step(s, es[0]).server, es[1..])
  }

  function HandedBy(s: Server, e: Event): seq<Update>
    requires Enabled(s, e)
  {
    if Step(s, e).element.Some? then [Step(s, e).element.value] else []
  }

  function AcceptedBy(s: Server, e: Event): seq<Update>
  {
    if e.Putting? && !s.done then [e.u] else []
  }

  /** The elements a run accepts. */
  function Accepted(s: Server, es: seq<Event>): seq<Update>
    requires Possible(s, es)
    decreases |es|
  {
    if es == [] then []
    else AcceptedBy(s, es[0]) + Accepted(Step(s, es[0]).server, es[1..])
  }

  predicate Conserved(s: Server)
  {
    s.free + |s.filled| + s.session + s.out == s.queueSize
  }

  predicate Ended(s: Server)
  {
    s.unlistened ==> s.done && s.filled == []
  }

  function Count(b: bool): nat
  {
    if b then 1 else 0
  }

  lemma {:induction false} EveryStep(s: Server, e: Event)
    requires Enabled(s, e) && Conserved(s) && Ended(s)
    ensures var m := Step(s, e);
            && Conserved(m.server) && Ended(m.server) && m.server.queueSize == s.queueSize
            && s.filled + AcceptedBy(s, e) == HandedBy(s, e) + m.server.filled
            && Count(m.unlisten) + Count(s.unlistened) == Count(m.server.unlistened)
    ensures s.unlistened ==> HandedBy(s, e) == []
  {
    assert s.filled + [] == [] + s.filled;
    if e.Polling? && Step(s, e).element.Some? {
      assert s.filled + [] == [s.filled[0]] + s.filled[1..];
    }
  }

  lemma {:induction false} Chain<T>(f: seq<T>, a: seq<T>, b: seq<T>, h: seq<T>, k: seq<T>, g: seq<T>, t: seq<T>)
    requires f + a == h + g && g + b == k + t
    ensures f + (a + b) == (h + k) + t
  {
    assert f + (a + b) == (f + a) + b == h + (g + b) == (h + k) + t;
  }

  /** Over every run: elements are conserved, every element accepted is handed out once and
      in order or still filled, the end is reported at most once and only when nothing is
      filled, and nothing is handed out after it. */
  lemma {:induction false} EveryRun(s: Server, es: seq<Event>)
    requires Possible(s, es) && Conserved(s) && Ended(s)
    ensures var t := After(s, es);
            && Conserved(t) && Ended(t) && t.queueSize == s.queueSize
            && s.filled + Accepted(s, es) == Handed(s, es) + t.filled
            && Ends(s, es) + Count(s.unlistened) == Count(t.unlistened)
    ensures s.unlistened ==> Handed(s, es) == []
    decreases |es|
  {
    if es == [] {
      assert s.filled + [] == [] + s.filled;
    } else {
      var m, rest := Step(s, es[0]).server, es[1..];
      EveryStep(s, es[0]);
      EveryRun(m, rest);
      Chain(s.filled, AcceptedBy(s, es[0]), Accepted(m, rest), HandedBy(s, es[0]), Handed(m, rest),
            m.filled, After(m, rest).filled);
    }
  }

  /** Flow control: a run hands out exactly as many elements as it uses up credit. */
  lemma {:induction false} CreditSpent(s: Server, es: seq<Event>)
    requires Possible(s, es)
    ensures s.requested + Granted(es) == After(s, es).requested + |Handed(s, es)|
    decreases |es|
  {
    if es != [] {
      CreditSpent(Step(s, es[0]).server, es[1..]);
    }
  }

  function Granted(es: seq<Event>): nat
  {
    if es == [] then 0 else (if es[0].Reporting? then es[0].count else 0) + Granted(es[1..])
  }

  // ----- notifications -----

  /** A poll would hand out an element. */
  predicate CanPoll(s: Server)
  {
    s.filled != [] && s.requested > 0 && s.active
  }

  /** The call tells the listener that there is something to poll. */
  predicate Notifies(s: Server, e: Event)
  {
    match e
    case Start => !s.active && s.filled != []
    case Reporting(_) => s.active && s.filled != []
    case Putting(_) => !s.done && s.requested != 0
    case _ => false
  }

  /** A listener polls until it gets nothing, and then sleeps until it is notified. */
  predicate AwakeAfter(s: Server, awake: bool, e: Event)
    requires Enabled(s, e)
  {
    if e.Polling? then Step(s, e).element.Some? else awake || Notifies(s, e)
  }

  lemma {:induction false} StaysAlert(s: Server, awake: bool, e: Event)
    requires Enabled(s, e) && (CanPoll(s) ==> awake)
    ensures CanPoll(Step(s, e).server) ==> AwakeAfter(s, awake, e)
  {
  }

  predicate AwakeIn(s: Server, awake: bool, es: seq<Event>)
    requires Possible(s, es)
    decreases |es|
  {
    if es == [] then awake else AwakeIn(Step(s, es[0]).server, AwakeAfter(s, awake, es[0]), es[1..])
  }

  /** Such a listener misses nothing: in no run does it sleep while there is something to poll. */
  lemma {:induction false} NeverOversleeps(s: Server, awake: bool, es: seq<Event>)
    requires Possible(s, es) && (CanPoll(s) ==> awake)
    ensures CanPoll(After(s, es)) ==> AwakeIn(s, awake, es)
    decreases |es|
  {
    if es != [] {
      StaysAlert(s, awake, es[0]);
      NeverOversleeps(Step(s, es[0]).server, AwakeAfter(s, awake, es[0]), es[1..]);
    }
  }
}
