/** What the user of a client monitor gets: which updates reach it, and what it can make of them. */
module ClientUser {
  import opened Bytes
  import opened Updates
  import opened ClientModel

  /** A run of the queue with the elements polled so far and, for every update that has left the
      queue, whether it left with a polled element or was recycled by a restart. */
  datatype Watch = Watch(run: Run, handed: seq<Slot>, fate: seq<bool>)

  function Opening(queueSize: nat, pipeline: bool, ackAny: int, blank: Record): Watch
  {
    Watch(Opened(queueSize, pipeline, ackAny, blank), [], [])
  }

  function Times(told: bool, n: nat): (s: seq<bool>)
    ensures |s| == n && forall i :: 0 <= i < n ==> s[i] == told
  {
    seq(n, _ => told)
  }

  /** All updates up to the first one that is still in the queue or parked meet the same fate. */
  function Extend(fate: seq<bool>, n: nat, told: bool): (s: seq<bool>)
    ensures |s| == if n <= |fate| then |fate| else n
  {
    if n <= |fate| then fate else fate + Times(told, n - |fate|)
  }

  function Left(r: Run): nat
  {
    if r.marks == [] then 0 else r.marks[0]
  }

  function Observe(w: Watch, e: Event): Watch
    requires Possible(w.run.c, e)
  {
    var c, r := w.run.c, Step(w.run, e);
    match e
    case Polled =>
      if c.queue == [] then w.(run := r)
      else Watch(r, w.handed + [c.queue[0]], Extend(w.fate, Left(r), true))
    case Restarted => w.(run := r, fate := Extend(w.fate, Left(r), false))
    case _ => w.(run := r)
  }

  predicate Watches(w: Watch, es: seq<Event>, v: Watch)
    decreases |es|
  {
    if es == [] then w == v
    else Possible(w.run.c, es[0]) && Watches(Observe(w, es[0]), es[1..], v)
  }

  // ----- which updates are told -----

  /** The updates marked. */
  function Picked(us: seq<Update>, fate: seq<bool>): seq<Update>
    decreases |fate|
  {
    if fate == [] then []
    else
      var n := |fate| - 1;
      Picked(us, fate[..n]) + if fate[n] && n < |us| then [us[n]] else []
  }

  /** The updates the user has been told. */
  function Told(w: Watch): seq<Update>
  {
    Picked(w.run.history, w.fate)
  }

  lemma {:induction false} PickedStays(us: seq<Update>, u: Update, fate: seq<bool>)
    requires |fate| <= |us|
    ensures Picked(us + [u], fate) == Picked(us, fate)
    decreases |fate|
  {
    if fate != [] {
      PickedStays(us, u, fate[..|fate| - 1]);
    }
  }

  lemma {:induction false} PickedNext(us: seq<Update>, fate: seq<bool>, told: bool)
    requires |fate| < |us|
    ensures Picked(us, fate + [told]) == Picked(us, fate) + if told then [us[|fate|]] else []
  {
    assert (fate + [told])[..|fate|] == fate;
  }

  lemma {:induction false} ToldNext(us: seq<Update>, first: seq<Update>, k: nat, fate: seq<bool>, n: nat)
    requires k <= |fate| == n < |us| && Picked(us, fate) == first + us[k..n]
    ensures Picked(us, fate + [true]) == first + us[k..n + 1]
  {
    PickedNext(us, fate, true);
    assert us[k..n + 1] == us[k..n] + [us[n]];
    ConcatAssociative(first, us[k..n], [us[n]]);
  }

  lemma {:induction false} PickedTrue(us: seq<Update>, fate: seq<bool>, m: nat)
    requires |fate| + m <= |us|
    ensures Picked(us, fate + Times(true, m)) == Picked(us, fate) + us[|fate|..|fate| + m]
    decreases m
  {
    var k, first := |fate|, Picked(us, fate);
    if m == 0 {
      assert fate + Times(true, m) == fate && first + us[k..k] == first;
    } else {
      var before := fate + Times(true, m - 1);
      PickedTrue(us, fate, m - 1);
      ToldNext(us, first, k, before, k + m - 1);
      assert fate + Times(true, m) == before + [true];
    }
  }

  lemma {:induction false} PickedFalse(us: seq<Update>, fate: seq<bool>, m: nat)
    requires |fate| + m <= |us|
    ensures Picked(us, fate + Times(false, m)) == Picked(us, fate)
    decreases m
  {
    if m == 0 {
      assert fate + Times(false, m) == fate;
    } else {
      var before := fate + Times(false, m - 1);
      PickedFalse(us, fate, m - 1);
      PickedNext(us, before, false);
      assert fate + Times(false, m) == before + [false] && Picked(us, fate) + [] == Picked(us, fate);
    }
  }

  lemma {:induction false} PickedTold(us: seq<Update>, fate: seq<bool>, n: nat)
    requires |fate| <= n <= |us|
    ensures Picked(us, Extend(fate, n, true)) == Picked(us, fate) + us[|fate|..n]
  {
    PickedTrue(us, fate, n - |fate|);
    assert n == |fate| ==> fate + Times(true, 0) == fate;
  }

  lemma {:induction false} PickedRecycled(us: seq<Update>, fate: seq<bool>, n: nat)
    requires |fate| <= n <= |us|
    ensures Picked(us, Extend(fate, n, false)) == Picked(us, fate)
  {
    PickedFalse(us, fate, n - |fate|);
  }

  /** All marked updates, or fewer. */
  lemma {:induction false} PickedAll(us: seq<Update>, fate: seq<bool>)
    requires |fate| <= |us|
    ensures |Picked(us, fate)| <= |fate|
    ensures false !in fate ==> Picked(us, fate) == us[..|fate|]
    ensures false in fate ==> |Picked(us, fate)| < |fate|
    decreases |fate|
  {
    if fate != [] {
      var n := |fate| - 1;
      PickedAll(us, fate[..n]);
      assert fate == fate[..n] + [fate[n]];
      assert us[..n + 1] == us[..n] + [us[n]];
    }
  }

  // ----- what the user makes of them -----

  /** The changed fields of an element. */
  function Changes(s: Slot): Record
  {
    map f | f in s.changed && f in s.value :: s.value[f]
  }

  /** The structure of a user that applies only the changed fields of what it polls. */
  function Applied(blank: Record, handed: seq<Slot>): Record
  {
    if handed == [] then blank
    else Applied(blank, handed[..|handed| - 1]) + Changes(handed[|handed| - 1])
  }

  lemma {:induction false} OwnFields(r: Record, m: Record)
    ensures (map f | f in m.Keys && f in r + m :: (r + m)[f]) == m
  {
  }

  /** The changed fields of an element are what the updates it tells come to. */
  lemma {:induction false} ChangesTold(s: Slot, blank: Record, history: seq<Update>, lo: nat, hi: nat)
    requires Tells(s, blank, history, lo, hi)
    ensures Changes(s) == MergeAll(history[lo..hi]).values
  {
    var before, part := history[..lo], history[lo..hi];
    assert history[..hi] == before + part;
    FoldConcat(blank, before, part);
    MergeKeepsEffect(Fold(blank, before), part);
    OwnFields(Fold(blank, before), MergeAll(part).values);
  }

  /** The records agree: the user has what the queue says, and every update is accounted for. */
  ghost predicate Recorded(w: Watch)
  {
    && Faithful(w.run) && |w.fate| == w.run.marks[0] <= |w.run.history|
    && Applied(w.run.c.blank, w.handed) == Fold(w.run.c.blank, Told(w))
  }

  lemma {:induction false} AppliedMore(blank: Record, handed: seq<Slot>, s: Slot)
    ensures Applied(blank, handed + [s]) == Applied(blank, handed) + Changes(s)
  {
    assert (handed + [s])[..|handed|] == handed;
  }

  lemma {:induction false} PollRecorded(w: Watch)
    requires Recorded(w) && w.run.c.queue != []
    ensures Recorded(Observe(w, Polled))
  {
    var r, s := w.run, w.run.c.queue[0];
    var lo, hi, blank := r.marks[0], r.marks[1], r.c.blank;
    StepFaithful(r, Polled);
    assert Tells(s, blank, r.history, lo, hi);
    ChangesTold(s, blank, r.history, lo, hi);
    AppliedMore(blank, w.handed, s);
    PickedTold(r.history, w.fate, hi);
    var part := r.history[lo..hi];
    FoldConcat(blank, Told(w), part);
    MergeKeepsEffect(Fold(blank, Told(w)), part);
  }

  lemma {:induction false} RestartRecorded(w: Watch)
    requires Recorded(w)
    ensures Recorded(Observe(w, Restarted))
  {
    var r := w.run;
    StepFaithful(r, Restarted);
    PickedRecycled(r.history, w.fate, |r.history|);
  }

  lemma {:induction false} ResponseRecorded(w: Watch, u: Update)
    requires Recorded(w)
    ensures Recorded(Observe(w, Response(u)))
  {
    var r := Step(w.run, Response(u));
    StepFaithful(w.run, Response(u));
    StepSetup(w.run, Response(u));
    PickedStays(w.run.history, u, w.fate);
    assert r.history == w.run.history + [u] && r.marks[0] == w.run.marks[0];
  }

  lemma {:induction false} OtherRecorded(w: Watch, e: Event)
    requires Recorded(w) && Enabled(w.run.c, e)
    requires !e.Response? && !e.Restarted? && (e.Polled? ==> w.run.c.queue == [])
    ensures Recorded(Observe(w, e))
  {
    StepFaithful(w.run, e);
    assert Step(w.run, e).history == w.run.history;
  }

  lemma {:induction false} ObserveRecorded(w: Watch, e: Event)
    requires Recorded(w) && Enabled(w.run.c, e)
    ensures Recorded(Observe(w, e))
  {
    if e.Polled? && w.run.c.queue != [] {
      PollRecorded(w);
    } else if e.Restarted? {
      RestartRecorded(w);
    } else if e.Response? {
      ResponseRecorded(w, e.u);
    } else {
      OtherRecorded(w, e);
    }
  }

  lemma {:induction false} WatchRecorded(w: Watch, es: seq<Event>, v: Watch)
    requires Recorded(w) && Watches(w, es, v)
    ensures Recorded(v) && v.run.c.blank == w.run.c.blank
    decreases |es|
  {
    if es != [] {
      ObserveRecorded(w, es[0]);
      WatchRecorded(Observe(w, es[0]), es[1..], v);
    }
  }

  lemma {:induction false} WatchFirst(w: Watch, e: Event, es: seq<Event>, v: Watch)
    requires Possible(w.run.c, e) && Watches(Observe(w, e), es, v)
    ensures Watches(w, [e] + es, v)
  {
    assert ([e] + es)[1..] == es;
  }

  lemma {:induction false} TwoSteps(w: Watch, e: Event, f: Event)
    requires Possible(w.run.c, e) && Possible(Observe(w, e).run.c, f)
    ensures Watches(w, [e, f], Observe(Observe(w, e), f))
  {
    var v := Observe(Observe(w, e), f);
    assert Watches(v, [], v);
    WatchFirst(Observe(w, e), f, [], v);
    assert [f] + [] == [f];
    WatchFirst(w, e, [f], v);
    assert [e] + [f] == [e, f];
  }

  lemma {:induction false} OpeningRecorded(queueSize: nat, pipeline: bool, ackAny: int, blank: Record)
    requires queueSize >= 2
    ensures Recorded(Opening(queueSize, pipeline, ackAny, blank))
    ensures Told(Opening(queueSize, pipeline, ackAny, blank)) == []
  {
  }

  /** A run from the start. */
  predicate Watched(queueSize: nat, pipeline: bool, ackAny: int, blank: Record, es: seq<Event>, w: Watch)
  {
    queueSize >= 2 && Watches(Opening(queueSize, pipeline, ackAny, blank), es, w)
  }

  /** Over every run: an update received has been told, has been recycled unread, or is still in
      the queue or parked, in this order of receipt; what the user has been told is what was
      received without what was recycled; the next element polled tells exactly the updates that
      come then; and a user that applies changed fields has the effect of all it was told. */
  lemma {:induction false} EveryRun(queueSize: nat, pipeline: bool, ackAny: int, blank: Record, es: seq<Event>, w: Watch)
    requires Watched(queueSize, pipeline, ackAny, blank, es, w)
    ensures |w.run.marks| == |w.run.c.queue| + 1 && |w.fate| == w.run.marks[0] <= |w.run.history|
    ensures w.run.c.queue != [] ==>
              && Tells(w.run.c.queue[0], blank, w.run.history, w.run.marks[0], w.run.marks[1])
              && Told(Observe(w, Polled)) == Told(w) + w.run.history[w.run.marks[0]..w.run.marks[1]]
    ensures Applied(blank, w.handed) == Fold(blank, Told(w))
  {
    WatchRecorded(Opening(queueSize, pipeline, ackAny, blank), es, w);
    if w.run.c.queue != [] {
      assert Tells(w.run.c.queue[0], blank, w.run.history, w.run.marks[0], w.run.marks[1]);
      PickedTold(w.run.history, w.fate, w.run.marks[1]);
    }
  }

  /** The restart recycles something the user has not polled. */
  predicate Recycles(c: Client, e: Event)
  {
    e.Restarted? && (c.queue != [] || c.parked.Some?)
  }

  predicate RecycledIn(w: Watch, es: seq<Event>, v: Watch)
    requires Watches(w, es, v)
    decreases |es|
  {
    es != [] && (Recycles(w.run.c, es[0]) || RecycledIn(Observe(w, es[0]), es[1..], v))
  }

  lemma {:induction false} ExtendSays(fate: seq<bool>, n: nat, told: bool)
    ensures false in Extend(fate, n, told) <==> false in fate || (n > |fate| && !told)
  {
    if n > |fate| {
      var more := Times(told, n - |fate|);
      assert more[0] == told && more[0] in more;
      assert forall b :: b in fate + more <==> b in fate || b in more;
    }
  }

  lemma {:induction false} ObserveFate(w: Watch, e: Event)
    requires Recorded(w) && Enabled(w.run.c, e)
    ensures false in Observe(w, e).fate <==> false in w.fate || Recycles(w.run.c, e)
  {
    if e.Polled? && w.run.c.queue != [] {
      ExtendSays(w.fate, Left(Step(w.run, e)), true);
    } else if e.Restarted? {
      ExtendSays(w.fate, |w.run.history|, false);
      if w.run.c.queue != [] {
        assert Tells(w.run.c.queue[0], w.run.c.blank, w.run.history, w.run.marks[0], w.run.marks[1]);
      }
    }
  }

  lemma {:induction false} WatchFate(w: Watch, es: seq<Event>, v: Watch)
    requires Recorded(w) && Watches(w, es, v)
    ensures false in v.fate <==> false in w.fate || RecycledIn(w, es, v)
    decreases |es|
  {
    if es != [] {
      ObserveFate(w, es[0]);
      ObserveRecorded(w, es[0]);
      WatchFate(Observe(w, es[0]), es[1..], v);
    }
  }

  /** When the end is reported the user has been told everything received exactly if nothing is
      parked and no restart has recycled an element that was not polled. */
  lemma {:induction false} EndAfterAll(queueSize: nat, pipeline: bool, ackAny: int, blank: Record, es: seq<Event>,
                                       w: Watch, e: Event)
    requires Watched(queueSize, pipeline, ackAny, blank, es, w) && Ends(w.run.c, e)
    ensures Told(w) == w.run.history
            <==> w.run.c.parked.None? && !RecycledIn(Opening(queueSize, pipeline, ackAny, blank), es, w)
  {
    var start, us := Opening(queueSize, pipeline, ackAny, blank), w.run.history;
    WatchRecorded(start, es, w);
    WatchFate(start, es, w);
    PickedAll(us, w.fate);
    assert us[..|us|] == us;
  }

  /** Only a poll tells the user something. */
  lemma {:induction false} ToldSame(w: Watch, e: Event)
    requires Recorded(w) && Enabled(w.run.c, e) && !e.Polled?
    ensures Told(Observe(w, e)) == Told(w) && Observe(w, e).handed == w.handed
  {
    if e.Response? {
      PickedStays(w.run.history, e.u, w.fate);
    } else if e.Restarted? {
      PickedRecycled(w.run.history, w.fate, |w.run.history|);
    }
  }

  /** A restart that loses an update: it is received, recycled, and the end is reported. */
  lemma {:induction false} RestartLoses(ackAny: int, blank: Record, u: Update) returns (w: Watch)
    ensures Watched(2, false, ackAny, blank, [Response(u), Restarted], w)
    ensures Ends(w.run.c, Unlistened) && w.run.c.parked.None? && w.run.history == [u] && Told(w) == [] && w.handed == []
  {
    var w0 := Opening(2, false, ackAny, blank);
    var w1 := Observe(w0, Response(u));
    w := Observe(w1, Restarted);
    OpeningRecorded(2, false, ackAny, blank);
    ToldSame(w0, Response(u));
    ObserveRecorded(w0, Response(u));
    ToldSame(w1, Restarted);
    assert [] + [u] == [u];
    TwoSteps(w0, Response(u), Restarted);
  }

  // ----- what restarts hide -----

  /** What recycled updates last wrote in fields that no told update has written since. */
  function Missed(us: seq<Update>, fate: seq<bool>): Record
    requires |fate| <= |us|
    decreases |fate|
  {
    if fate == [] then map[]
    else
      var n := |fate| - 1;
      var before := Missed(us, fate[..n]);
      if fate[n] then before - us[n].values.Keys else before + us[n].values
  }

  lemma {:induction false} ToldOver(a: Record, missed: Record, u: Record)
    ensures (a + missed) + u == (a + u) + (missed - u.Keys)
  {
  }

  lemma {:induction false} MissedOver(a: Record, missed: Record, u: Record)
    ensures (a + missed) + u == a + (missed + u)
  {
  }

  lemma {:induction false} SameAnyway(own: Record, missed: Record)
    ensures own + missed == own <==> forall f :: f in missed ==> f in own && own[f] == missed[f]
  {
    if own + missed == own {
      forall f | f in missed
        ensures f in own && own[f] == missed[f]
      {
        assert (own + missed)[f] == missed[f];
      }
    }
  }

  /** The effect of all updates that have left the queue: what was told, and what was missed. */
  lemma {:induction false} MissedEffect(r: Record, us: seq<Update>, fate: seq<bool>)
    requires |fate| <= |us|
    ensures Fold(r, us[..|fate|]) == Fold(r, Picked(us, fate)) + Missed(us, fate)
    decreases |fate|
  {
    if fate != [] {
      var n := |fate| - 1;
      MissedEffect(r, us, fate[..n]);
      assert us[..n + 1] == us[..n] + [us[n]];
      FoldMore(r, us[..n], us[n]);
      assert Picked(us, fate[..n]) + [] == Picked(us, fate[..n]);
      var told, missed, u := Fold(r, Picked(us, fate[..n])), Missed(us, fate[..n]), us[n].values;
      if fate[n] {
        FoldMore(r, Picked(us, fate[..n]), us[n]);
        ToldOver(told, missed, u);
      } else {
        MissedOver(told, missed, u);
      }
    }
  }

  lemma {:induction false} NothingMissed(us: seq<Update>, fate: seq<bool>)
    requires |fate| <= |us| && false !in fate
    ensures Missed(us, fate) == map[]
    decreases |fate|
  {
    if fate != [] {
      NothingMissed(us, fate[..|fate| - 1]);
    }
  }

  /** Changed fields suffice: after every poll the structure shown is the user's own one together
      with what it has missed. They are the same exactly if whatever it has missed is what it has
      anyway; so they are if no restart has recycled anything. */
  lemma {:induction false} ChangedFieldsSuffice(queueSize: nat, pipeline: bool, ackAny: int, blank: Record,
                                                es: seq<Event>, w: Watch)
    requires Watched(queueSize, pipeline, ackAny, blank, es, w) && w.run.c.queue != []
    ensures var v, shown := Observe(w, Polled), w.run.c.queue[0].value;
            && |v.fate| <= |v.run.history|
            && var own, missed := Applied(blank, v.handed), Missed(v.run.history, v.fate);
               && shown == own + missed
               && (shown == own <==> forall f :: f in missed ==> f in own && own[f] == missed[f])
               && (!RecycledIn(Opening(queueSize, pipeline, ackAny, blank), es, w) ==> shown == own)
  {
    var start, v := Opening(queueSize, pipeline, ackAny, blank), Observe(w, Polled);
    WatchRecorded(start, es, w);
    PollShows(w);
    SameAnyway(Applied(blank, v.handed), Missed(v.run.history, v.fate));
    WatchFate(start, es, w);
    ObserveFate(w, Polled);
    if false !in v.fate {
      NothingMissed(v.run.history, v.fate);
      SameAnyway(Applied(blank, v.handed), map[]);
    }
  }

  lemma {:induction false} PollShows(w: Watch)
    requires Recorded(w) && w.run.c.queue != []
    ensures var v := Observe(w, Polled);
            && |v.fate| <= |v.run.history|
            && w.run.c.queue[0].value == Applied(w.run.c.blank, v.handed) + Missed(v.run.history, v.fate)
  {
    var v, us, blank := Observe(w, Polled), w.run.history, w.run.c.blank;
    PollRecorded(w);
    assert Tells(w.run.c.queue[0], blank, us, w.run.marks[0], w.run.marks[1]);
    MissedEffect(blank, us, v.fate);
  }

  lemma {:induction false} HiddenSlot(ackAny: int, blank: Record, u: Update, v: Update) returns (s: Slot)
    ensures s == Slot((blank + u.values) + v.values, v.values.Keys, v.overrun)
    ensures var d := Restart(Respond(Fresh(3, false, ackAny, blank), u));
            HasPlace(d) && Respond(d, v).queue == [s]
  {
    var c := Respond(Fresh(3, false, ackAny, blank), u);
    var d := Restart(c);
    s := Slot((blank + u.values) + v.values, v.values.Keys, v.overrun);
    assert c.latest == Some(blank + u.values) && d.latest == c.latest && d.free == 3;
    assert Respond(d, v).queue == d.queue + [s] == [s];
  }

  /** Fields that a restart hides: their update is recycled, and the next element shows them without
      marking them as changed. */
  lemma {:induction false} RestartHides(ackAny: int, blank: Record, u: Update, v: Update, f: Field) returns (w: Watch)
    requires f in u.values && f !in v.values && (f in blank ==> blank[f] != u.values[f])
    ensures Watched(3, false, ackAny, blank, [Response(u), Restarted, Response(v)], w)
    ensures |w.run.c.queue| == 1 && Applied(blank, Observe(w, Polled).handed) != w.run.c.queue[0].value
  {
    var s := HiddenSlot(ackAny, blank, u, v);
    w := HidingRun(ackAny, blank, u, v, s);
    AppliedMore(blank, [], s);
    assert [] + [s] == [s];
    OwnFields(blank + u.values, v.values);
    assert s.value[f] == u.values[f] && f in s.value;
  }

  lemma {:induction false} HidingRun(ackAny: int, blank: Record, u: Update, v: Update, s: Slot) returns (w: Watch)
    requires var d := Restart(Respond(Fresh(3, false, ackAny, blank), u)); HasPlace(d) && Respond(d, v).queue == [s]
    ensures Watched(3, false, ackAny, blank, [Response(u), Restarted, Response(v)], w)
    ensures w.run.c.queue == [s] && w.handed == []
  {
    var w0 := Opening(3, false, ackAny, blank);
    var w1 := Observe(w0, Response(u));
    w := Observe(Observe(w1, Restarted), Response(v));
    TwoSteps(w1, Restarted, Response(v));
    WatchFirst(w0, Response(u), [Restarted, Response(v)], w);
    assert [Response(u)] + [Restarted, Response(v)] == [Response(u), Restarted, Response(v)];
  }
}
