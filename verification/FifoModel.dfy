/** The server's monitor FIFO as a state machine over values. */
module FifoModel {
  import opened Updates

  datatype Fifo = Fifo(
    actualCount: nat, pipeline: bool, ignoreMask: bool, selectMask: set<Field>, freeHighLevel: nat,
    empty: nat, inuse: seq<Update>, returned: nat, out: nat, flowCount: int,
    running: bool, finished: bool, needEvent: bool, needUnlisten: bool, link: Link)

  /** Whether the FIFO is open, and which changes of that are still to be told. */
  datatype Link = Link(isOpen: bool, needConnected: bool, needClosed: bool)

  function Opened(actualCount: nat, pipeline: bool, ignoreMask: bool, selectMask: set<Field>, level: nat): Fifo
  {
    Fifo(actualCount, pipeline, ignoreMask, selectMask, level,
         actualCount + 1, [], 0, 0, 0, false, false, false, false, Link(true, true, false))
  }

  function FreeCount(f: Fifo): nat
  {
    if f.pipeline then (if f.flowCount <= 0 then 0 else if f.flowCount <= f.empty then f.flowCount else f.empty)
    else if f.empty == 0 then 0 else f.empty - 1
  }

  /** The part of an update this subscription asked for. */
  function Masked(f: Fifo, u: Update): (m: Update)
    ensures forall k :: k in m.values <==> k in u.values && k in f.selectMask
    ensures forall k :: k in m.values ==> m.values[k] == u.values[k]
    ensures forall k :: k in m.overrun <==> k in u.overrun && k in f.selectMask
  {
    Update(map k | k in u.values && k in f.selectMask :: u.values[k], u.overrun * f.selectMask)
  }

  predicate Dropped(f: Fifo, u: Update)
  {
    !f.ignoreMask && Masked(f, u).values.Keys == {}
  }

  function Enqueue(f: Fifo, u: Update): Fifo
  {
    f.(inuse := f.inuse + [u], needEvent := f.needEvent || (f.inuse == [] && f.running),
       flowCount := if f.pipeline then f.flowCount - 1 else f.flowCount)
  }

  function TryPost(f: Fifo, u: Update, force: bool): Fifo
  {
    if Dropped(f, u) then f
    else if FreeCount(f) > 0 then Enqueue(f, Masked(f, u)).(empty := f.empty - 1)
    else if force then Enqueue(f, Masked(f, u))
    else f
  }

  /** There is an element to post into. */
  predicate HasPlace(f: Fifo)
  {
    f.empty > 0 || f.inuse != []
  }

  function Post(f: Fifo, u: Update): Fifo
    requires HasPlace(f)
  {
    if Dropped(f, u) then f
    else if f.empty > 0 then Enqueue(f, Masked(f, u)).(empty := f.empty - 1)
    else
      var n := |f.inuse| - 1;
      f.(inuse := f.inuse[..n] + [Merge(f.inuse[n], Masked(f, u))])
  }

  /** Something may be handed out: one element always stays behind to squash into. */
  predicate CanPoll(f: Fifo)
  {
    f.inuse != [] && |f.inuse| + f.empty > 1
  }

  function Poll(f: Fifo): Fifo
  {
    if CanPoll(f) then f.(inuse := f.inuse[1..], out := f.out + 1) else f
  }

  predicate PollEnds(f: Fifo)
  {
    CanPoll(f) && |f.inuse| == 1 && f.finished
  }

  /** The pool is full: what comes back was allocated by force. */
  predicate Surplus(f: Fifo)
  {
    f.empty + f.returned >= f.actualCount + 1
  }

  function Release(f: Fifo): Fifo
    requires f.out > 0
  {
    var f := f.(out := f.out - 1);
    if Surplus(f) then f
    else if f.pipeline then f.(returned := f.returned + 1)
    else f.(empty := f.empty + 1)
  }

  function Ack(f: Fifo, nfree: int): Fifo
  {
    if nfree <= 0 || !f.pipeline then f
    else
      var nack := if nfree <= f.returned then nfree else f.returned;
      f.(flowCount := f.flowCount + nfree, empty := f.empty + nack, returned := f.returned - nack)
  }

  /** The number of free slots rose above the mark from at or below it. */
  predicate Crossed(f: Fifo, g: Fifo)
  {
    FreeCount(f) <= f.freeHighLevel < FreeCount(g)
  }

  function Finish(f: Fifo): Fifo
  {
    if f.finished then f
    else f.(finished := true, needUnlisten := f.needUnlisten || (f.inuse == [] && f.running))
  }

  function Notify(f: Fifo): Fifo
  {
    f.(needEvent := false, needUnlisten := false, link := Link(f.link.isOpen, false, false))
  }

  /** Closing drops the selection; what is queued stays. */
  function Close(f: Fifo): Fifo
  {
    if f.link.isOpen then f.(link := Link(false, f.link.needConnected, true), selectMask := {}) else f
  }

  /** Posts updates one after the other, without force. */
  function TryAll(f: Fifo, us: seq<Update>): Fifo
    decreases |us|
  {
    if us == [] then f else TryAll(TryPost(f, us[0], false), us[1..])
  }

  /** An update with something to tell gets in exactly if there is a free slot, and takes it. */
  lemma {:induction false} TakesSlot(f: Fifo, u: Update)
    requires !Dropped(f, u)
    ensures var g := TryPost(f, u, false);
            && g.selectMask == f.selectMask && g.ignoreMask == f.ignoreMask
            && (FreeCount(f) == 0 ==> g == f)
            && (FreeCount(f) > 0 ==> g.inuse == f.inuse + [Masked(f, u)] && FreeCount(g) == FreeCount(f) - 1)
  {
  }

  /** What the free count counts: of updates with something to tell, just so many in a row get in. */
  lemma {:induction false} FreeCountMeans(f: Fifo, us: seq<Update>)
    requires forall i :: 0 <= i < |us| ==> !Dropped(f, us[i])
    ensures |TryAll(f, us).inuse| == |f.inuse| + if |us| <= FreeCount(f) then |us| else FreeCount(f)
    decreases |us|
  {
    if us != [] {
      var g := TryPost(f, us[0], false);
      TakesSlot(f, us[0]);
      forall i | 0 <= i < |us[1..]|
        ensures !Dropped(g, us[1..][i])
      {
        assert !Dropped(f, us[i + 1]);
      }
      FreeCountMeans(g, us[1..]);
    }
  }

  // ----- runs -----

  datatype Event =
    | TryPosted(u: Update, force: bool) | Posted(u: Update)
    | Polled | Released | Acked(nfree: int)
    | Finished | Started | Stopped | Notified | Closed

  predicate Enabled(f: Fifo, e: Event)
  {
    match e
    case TryPosted(_, _) => f.link.isOpen && !f.finished
    case Posted(_) => f.link.isOpen && !f.finished
    case Finished => f.link.isOpen
    case Started => f.link.isOpen
    case Released => f.out > 0
    case _ => true
  }

  /** A FIFO with what a run has done so far: the masked updates it has to tell, the elements
      it handed out, the borders `cuts` between the updates merged into one element, the
      credit acked, the ends reported, the elements allocated by force and those dropped again,
      and whether it finished empty while stopped. */
  datatype Run = Run(f: Fifo, taken: seq<Update>, handed: seq<Update>, cuts: seq<nat>,
                     acked: nat, ends: nat, forced: nat, scrapped: nat, silent: bool)

  function Fresh(f: Fifo): Run
  {
    Run(f, [], [], [0], 0, 0, 0, 0, false)
  }

  /** The update says something to this subscription. */
  predicate Speaks(f: Fifo, u: Update)
  {
    f.ignoreMask || exists k :: k in u.values && k in f.selectMask
  }

  lemma {:induction false} SpeaksOrDropped(f: Fifo, u: Update)
    ensures Speaks(f, u) <==> !Dropped(f, u)
  {
    assert forall k :: k in Masked(f, u).values <==> k in u.values && k in f.selectMask;
    if Masked(f, u).values.Keys != {} {
      var k :| k in Masked(f, u).values.Keys;
      assert k in u.values && k in f.selectMask;
    }
  }

  /** The post has to be told: always if it says something, and without force if there is room. */
  predicate Wanted(f: Fifo, e: Event)
  {
    match e
    case Posted(u) => Speaks(f, u)
    case TryPosted(u, force) => Speaks(f, u) && (force || FreeCount(f) > 0)
    case _ => false
  }

  /** The post needs an element beyond the pool. */
  predicate Forces(f: Fifo, e: Event)
  {
    e.TryPosted? && Wanted(f, e) && FreeCount(f) == 0
  }

  /** What comes back finds the pool full. */
  predicate Scraps(f: Fifo)
  {
    f.empty + f.returned == f.actualCount + 1
  }

  predicate Pool(f: Fifo)
  {
    && f.actualCount >= 1
    && f.empty + |f.inuse| >= 1
    && f.empty + f.returned <= f.actualCount + 1
    && f.empty + |f.inuse| + f.returned + f.out >= f.actualCount + 1
  }

  /** The event may happen, and what it does is defined. */
  predicate Possible(f: Fifo, e: Event)
  {
    Enabled(f, e) && (e.Posted? ==> HasPlace(f))
  }

  /** The FIFO after a call. */
  function Next(f: Fifo, e: Event): Fifo
    requires Possible(f, e)
  {
    match e
    case TryPosted(u, force) => TryPost(f, u, force)
    case Posted(u) => Post(f, u)
    case Polled => Poll(f)
    case Released => Release(f)
    case Acked(n) => Ack(f, n)
    case Finished => Finish(f)
    case Started => f.(running := true)
    case Stopped => f.(running := false)
    case Notified => Notify(f)
    case Closed => Close(f)
  }

  /** The call tells the source that there is room again. */
  predicate Marks(f: Fifo, e: Event)
    requires Possible(f, e)
  {
    match e
    case Released => !f.pipeline && Crossed(f, Next(f, e))
    case Acked(n) => n > 0 && f.pipeline && Crossed(f, Next(f, e)) && Next(f, e).empty > 1
    case _ => false
  }

  /** The borders between elements when one more update is told, in an element of its own or not. */
  function Cut(cuts: seq<nat>, n: nat, merged: bool): seq<nat>
  {
    if merged && cuts != [] then cuts[..|cuts| - 1] + [n] else cuts + [n]
  }

  function Step(r: Run, e: Event): Run
    requires Possible(r.f, e)
  {
    var f, g := r.f, Next(r.f, e);
    match e
    case TryPosted(u, _) =>
      if !Wanted(f, e) then r.(f := g)
      else r.(f := g, taken := r.taken + [Masked(f, u)], cuts := Cut(r.cuts, |r.taken| + 1, false),
              forced := r.forced + if Forces(f, e) then 1 else 0)
    case Posted(u) =>
      if !Wanted(f, e) then r.(f := g)
      else r.(f := g, taken := r.taken + [Masked(f, u)], cuts := Cut(r.cuts, |r.taken| + 1, f.empty == 0))
    case Polled =>
      r.(f := g, handed := if CanPoll(f) then r.handed + [f.inuse[0]] else r.handed,
         ends := r.ends + if PollEnds(f) then 1 else 0)
    case Released => r.(f := g, scrapped := r.scrapped + if Scraps(f) then 1 else 0)
    case Acked(n) => r.(f := g, acked := r.acked + if n <= 0 || !f.pipeline then 0 else n)
    case Finished => r.(f := g, silent := r.silent || (!f.finished && f.inuse == [] && !f.running))
    case Notified => r.(f := g, ends := r.ends + if f.needUnlisten then 1 else 0)
    case _ => r.(f := g)
  }

  /** `gs` are the updates `us`, merged in consecutive non-empty groups between the cuts. */
  ghost predicate Grouped(us: seq<Update>, gs: seq<Update>, cuts: seq<nat>)
  {
    && |cuts| == |gs| + 1 && cuts[0] == 0 && cuts[|gs|] == |us|
    && (forall i :: 0 <= i < |gs| ==> Group(us, gs[i], cuts, i))
  }

  predicate Group(us: seq<Update>, g: Update, cuts: seq<nat>, i: nat)
    requires i + 1 < |cuts|
  {
    cuts[i] < cuts[i + 1] <= |us| && g == MergeAll(us[cuts[i]..cuts[i + 1]])
  }

  /** Applying groups is applying the updates. */
  lemma {:induction false} GroupedEffect(us: seq<Update>, gs: seq<Update>, cuts: seq<nat>, r: Record)
    requires Grouped(us, gs, cuts)
    ensures Fold(r, gs) == Fold(r, us)
    decreases |gs|
  {
    if gs != [] {
      var n := |gs| - 1;
      assert Group(us, gs[n], cuts, n);
      var head, group := us[..cuts[n]], us[cuts[n]..];
      assert us == head + group && group == us[cuts[n]..cuts[n + 1]];
      PrefixGrouped(us, gs, cuts);
      GroupedEffect(head, gs[..n], cuts[..n + 1], r);
      FoldConcat(r, head, group);
      MergeKeepsEffect(Fold(r, head), group);
    } else {
      assert us == [];
    }
  }

  lemma {:induction false} PrefixGrouped(us: seq<Update>, gs: seq<Update>, cuts: seq<nat>)
    requires Grouped(us, gs, cuts) && gs != []
    ensures cuts[|gs| - 1] <= |us| && Grouped(us[..cuts[|gs| - 1]], gs[..|gs| - 1], cuts[..|gs|])
  {
    var n := |gs| - 1;
    assert Group(us, gs[n], cuts, n);
    var head, init, front := us[..cuts[n]], gs[..n], cuts[..n + 1];
    CutsOrdered(us, gs, cuts, 0, n);
    forall i | 0 <= i < n
      ensures Group(head, init[i], front, i)
    {
      CutsOrdered(us, gs, cuts, i + 1, n);
      assert Group(us, gs[i], cuts, i);
      assert head[cuts[i]..cuts[i + 1]] == us[cuts[i]..cuts[i + 1]];
    }
  }

  lemma {:induction false} CutsOrdered(us: seq<Update>, gs: seq<Update>, cuts: seq<nat>, i: nat, j: nat)
    requires Grouped(us, gs, cuts) && i <= j <= |gs|
    ensures cuts[i] <= cuts[j]
    decreases j
  {
    if i < j {
      assert Group(us, gs[j - 1], cuts, j - 1);
      CutsOrdered(us, gs, cuts, i, j - 1);
    }
  }

  lemma {:induction false} GroupAppend(us: seq<Update>, gs: seq<Update>, cuts: seq<nat>, u: Update)
    requires Grouped(us, gs, cuts)
    ensures Grouped(us + [u], gs + [u], cuts + [|us| + 1])
  {
    var us', gs', cuts' := us + [u], gs + [u], cuts + [|us| + 1];
    forall i | 0 <= i < |gs'|
      ensures Group(us', gs'[i], cuts', i)
    {
      if i < |gs| {
        assert Group(us, gs[i], cuts, i);
        assert us'[cuts[i]..cuts[i + 1]] == us[cuts[i]..cuts[i + 1]];
      } else {
        assert us'[|us|..|us| + 1] == [u];
      }
    }
  }

  lemma {:induction false} GroupMerge(us: seq<Update>, gs: seq<Update>, cuts: seq<nat>, u: Update)
    requires Grouped(us, gs, cuts) && gs != []
    ensures var n := |gs| - 1;
            Grouped(us + [u], gs[..n] + [Merge(gs[n], u)], cuts[..n + 1] + [|us| + 1])
  {
    var n := |gs| - 1;
    var us', gs', cuts' := us + [u], gs[..n] + [Merge(gs[n], u)], cuts[..n + 1] + [|us| + 1];
    forall i | 0 <= i < |gs'|
      ensures Group(us', gs'[i], cuts', i)
    {
      assert Group(us, gs[i], cuts, i);
      if i < n {
        assert us'[cuts[i]..cuts[i + 1]] == us[cuts[i]..cuts[i + 1]];
      } else {
        var group := us[cuts[n]..];
        assert group == us[cuts[n]..cuts[n + 1]];
        assert us'[cuts[n]..|us| + 1] == group + [u];
        MergeMore(group, u);
      }
    }
  }

  /** All elements in circulation. */
  function Total(f: Fifo): nat
  {
    f.empty + |f.inuse| + f.returned + f.out
  }

  ghost predicate Squashed(r: Run)
  {
    Grouped(r.taken, r.handed + r.f.inuse, r.cuts)
  }

  predicate Counted(r: Run)
  {
    && Total(r.f) + r.scrapped == r.f.actualCount + 1 + r.forced
    && (r.f.pipeline ==> r.f.flowCount == r.acked - |r.handed| - |r.f.inuse|)
  }

  function Pending(f: Fifo): nat
  {
    if f.needUnlisten then 1 else 0
  }

  predicate EndsRight(r: Run)
  {
    if !r.f.finished then r.ends == 0 && !r.f.needUnlisten && !r.silent
    else
      && (r.silent ==> r.f.inuse == [])
      && r.ends + Pending(r.f) == if r.f.inuse == [] && !r.silent then 1 else 0
  }

  predicate SameSetup(f: Fifo, g: Fifo)
  {
    && g.actualCount == f.actualCount && g.pipeline == f.pipeline
    && g.ignoreMask == f.ignoreMask && (g.link.isOpen ==> f.link.isOpen && g.selectMask == f.selectMask)
  }

  ghost predicate Inv(r: Run)
  {
    Pool(r.f) && r.cuts != [] && Squashed(r) && Counted(r) && EndsRight(r)
  }

  lemma {:induction false} FreshInv(f: Fifo)
    requires exists n, p, i, m, l :: n >= 1 && f == Opened(n, p, i, m, l)
    ensures Inv(Fresh(f))
  {
  }

  lemma {:induction false} TakenAppend(r: Run, u: Update)
    requires Squashed(r)
    ensures Grouped(r.taken + [u], r.handed + (r.f.inuse + [u]), r.cuts + [|r.taken| + 1])
  {
    GroupAppend(r.taken, r.handed + r.f.inuse, r.cuts, u);
    assert r.handed + (r.f.inuse + [u]) == r.handed + r.f.inuse + [u];
  }

  lemma {:induction false} TakenMerge(r: Run, u: Update)
    requires Squashed(r) && r.f.inuse != []
    ensures var n := |r.f.inuse| - 1;
            Grouped(r.taken + [u], r.handed + (r.f.inuse[..n] + [Merge(r.f.inuse[n], u)]),
                    r.cuts[..|r.cuts| - 1] + [|r.taken| + 1])
  {
    var n := |r.f.inuse| - 1;
    var gs := r.handed + r.f.inuse;
    GroupMerge(r.taken, gs, r.cuts, u);
    assert gs[..|gs| - 1] == r.handed + r.f.inuse[..n] && gs[|gs| - 1] == r.f.inuse[n];
    assert r.handed + r.f.inuse[..n] + [Merge(r.f.inuse[n], u)]
        == r.handed + (r.f.inuse[..n] + [Merge(r.f.inuse[n], u)]);
  }

  /** A post that has to be told is queued, in an element from the pool or an extra one; another
      one changes nothing. */
  lemma {:induction false} TryPostMeans(f: Fifo, u: Update, force: bool)
    ensures var e, g := TryPosted(u, force), TryPost(f, u, force);
            && (!Wanted(f, e) ==> g == f)
            && (Wanted(f, e) ==> g.inuse == f.inuse + [Masked(f, u)])
            && (Wanted(f, e) && !Forces(f, e) ==> Total(g) == Total(f) && g.empty + 1 == f.empty)
            && (Forces(f, e) ==> Total(g) == Total(f) + 1 && g.empty == f.empty)
            && g.returned == f.returned && g.out == f.out && g.finished == f.finished && g.needUnlisten == f.needUnlisten
            && SameSetup(f, g)
            && g.flowCount == f.flowCount - if f.pipeline && Wanted(f, e) then 1 else 0
  {
    SpeaksOrDropped(f, u);
  }

  lemma {:induction false} TryPostInv(r: Run, u: Update, force: bool)
    requires Inv(r) && Enabled(r.f, TryPosted(u, force))
    ensures Inv(Step(r, TryPosted(u, force)))
  {
    TryPostMeans(r.f, u, force);
    if Wanted(r.f, TryPosted(u, force)) {
      TakenAppend(r, Masked(r.f, u));
    }
  }

  lemma {:induction false} PostInv(r: Run, u: Update)
    requires Inv(r) && Enabled(r.f, Posted(u))
    ensures Inv(Step(r, Posted(u)))
  {
    SpeaksOrDropped(r.f, u);
    if r.f.empty > 0 {
      TakenAppend(r, Masked(r.f, u));
    } else {
      TakenMerge(r, Masked(r.f, u));
    }
  }

  lemma {:induction false} PollInv(r: Run)
    requires Inv(r)
    ensures Inv(Step(r, Polled))
  {
    if CanPoll(r.f) {
      assert r.handed + [r.f.inuse[0]] + r.f.inuse[1..] == r.handed + r.f.inuse;
    }
  }

  /** A release moves an element from the user to the pool, or drops a surplus one. */
  lemma {:induction false} ReleasePool(f: Fifo)
    requires Pool(f) && f.out > 0
    ensures var g := Release(f);
            && g == f.(empty := g.empty, returned := g.returned, out := f.out - 1)
            && Pool(g) && Total(g) + (if Scraps(f) then 1 else 0) == Total(f)
            && f.empty <= g.empty && f.returned <= g.returned
            && g.returned == f.returned + (if f.pipeline && !Scraps(f) then 1 else 0)
            && (!f.pipeline ==> g.returned == f.returned)
            && (f.empty == 0 && f.returned == 0 ==> g.empty + g.returned == 1)
  {
    var out := f.out - 1;
    if f.empty + f.returned >= f.actualCount + 1 {
      assert Release(f) == f.(out := out);
    } else if f.pipeline {
      assert Release(f) == f.(out := out, returned := f.returned + 1);
    } else {
      assert Release(f) == f.(out := out, empty := f.empty + 1);
    }
  }

  lemma {:induction false} ReleaseInv(r: Run)
    requires Inv(r) && r.f.out > 0
    ensures Inv(Step(r, Released))
  {
    ReleasePool(r.f);
  }

  lemma {:induction false} AckInv(r: Run, n: int)
    requires Inv(r)
    ensures Inv(Step(r, Acked(n)))
  {
    assert Step(r, Acked(n)).f.inuse == r.f.inuse;
  }

  lemma {:induction false} FlagInv(r: Run, e: Event)
    requires Inv(r) && Enabled(r.f, e) && (e.Finished? || e.Started? || e.Stopped? || e.Notified? || e.Closed?)
    ensures Inv(Step(r, e))
  {
    assert Step(r, e).f.inuse == r.f.inuse;
  }

  /** Every call, in any order, keeps the pool, the meaning of the queued elements, the
      flow count and the end of the stream right. */
  lemma {:induction false} StepInv(r: Run, e: Event)
    requires Inv(r) && Enabled(r.f, e)
    ensures Inv(Step(r, e))
  {
    match e
    case TryPosted(u, force) => TryPostInv(r, u, force);
    case Posted(u) => PostInv(r, u);
    case Polled => PollInv(r);
    case Released => ReleaseInv(r);
    case Acked(n) => AckInv(r, n);
    case _ => FlagInv(r, e);
  }

  /** The events lead from `r` to `t`, each possible where it happens. */
  predicate Leads(r: Run, es: seq<Event>, t: Run)
    decreases |es|
  {
    if es == [] then r == t
    else Possible(r.f, es[0]) && Leads(Step(r, es[0]), es[1..], t)
  }

  lemma {:induction false} StepSetup(r: Run, e: Event)
    requires Possible(r.f, e)
    ensures SameSetup(r.f, Step(r, e).f)
  {
    match e
    case TryPosted(u, force) => TryPostMeans(r.f, u, force);
    case Posted(u) => assert SameSetup(r.f, Post(r.f, u));
    case Polled => assert SameSetup(r.f, Poll(r.f));
    case _ =>
  }

  lemma {:induction false} RunInv(r: Run, es: seq<Event>, t: Run)
    requires Inv(r) && Leads(r, es, t)
    ensures Inv(t) && SameSetup(r.f, t.f)
    decreases |es|
  {
    if es != [] {
      StepSetup(r, es[0]);
      StepInv(r, es[0]);
      RunInv(Step(r, es[0]), es[1..], t);
    }
  }

  /** Over every run of an opened FIFO of `n` slots: there is always an element to post into;
      no more than the pool comes back; no element gets lost, and none is added unless forced;
      what was handed out and is queued has exactly the effect of all updates taken in; the
      flow count is credit acked minus elements queued. */
  lemma {:induction false} EveryRun(n: nat, pipeline: bool, ignoreMask: bool, mask: set<Field>, level: nat,
                                    es: seq<Event>, t: Run, base: Record)
    requires n >= 1 && Leads(Fresh(Opened(n, pipeline, ignoreMask, mask, level)), es, t)
    ensures HasPlace(t.f) && forall e :: Enabled(t.f, e) ==> Possible(t.f, e)
    ensures t.f.empty + t.f.returned <= n + 1
    ensures n + 1 <= Total(t.f) == n + 1 + t.forced - t.scrapped
    ensures Fold(base, t.handed + t.f.inuse) == Fold(base, t.taken)
    ensures pipeline ==> t.f.flowCount == t.acked - |t.handed| - |t.f.inuse|
  {
    var f := Opened(n, pipeline, ignoreMask, mask, level);
    FreshInv(f);
    RunInv(Fresh(f), es, t);
    GroupedEffect(t.taken, t.handed + t.f.inuse, t.cuts, base);
  }

  /** The bits of every element, handed out or queued: a field is overrun exactly if two of
      the updates merged into the element changed it, or one of them carried the flag. */
  lemma {:induction false} ElementBits(t: Run, i: nat, k: Field)
    requires Inv(t) && i < |t.handed + t.f.inuse|
    ensures |t.cuts| > i + 1 && t.cuts[i] < t.cuts[i + 1] <= |t.taken|
    ensures var g := (t.handed + t.f.inuse)[i];
            var us := t.taken[t.cuts[i]..t.cuts[i + 1]];
            && (k in g.values <==> ChangedBy(k, us))
            && (k in g.overrun <==> ChangedTwice(k, us) || FlaggedBy(k, us))
  {
    var gs := t.handed + t.f.inuse;
    assert Group(t.taken, gs[i], t.cuts, i);
    MergedBits(k, t.taken[t.cuts[i]..t.cuts[i + 1]]);
  }

  predicate Unforced(es: seq<Event>)
  {
    forall e :: e in es ==> !e.Posted? && !(e.TryPosted? && e.force)
  }

  lemma {:induction false} TryNotOverdrawn(f: Fifo, u: Update)
    requires f.flowCount >= 0
    ensures TryPost(f, u, false).flowCount >= 0
  {
  }

  lemma {:induction false} StepNotOverdrawn(r: Run, e: Event)
    requires Possible(r.f, e) && Unforced([e]) && r.f.flowCount >= 0
    ensures Step(r, e).f.flowCount >= 0
  {
    assert e in [e];
    if e.TryPosted? {
      TryNotOverdrawn(r.f, e.u);
      assert Step(r, e).f == TryPost(r.f, e.u, false);
    } else {
      assert e.Acked? || Step(r, e).f.flowCount == r.f.flowCount;
    }
  }

  /** A source that only posts what fits never overdraws its credit. */
  lemma {:induction false} NeverOverdrawn(r: Run, es: seq<Event>, t: Run)
    requires Inv(r) && Leads(r, es, t) && Unforced(es) && r.f.flowCount >= 0
    ensures t.f.flowCount >= 0
    decreases |es|
  {
    if es != [] {
      assert es[0] in es;
      StepNotOverdrawn(r, es[0]);
      StepInv(r, es[0]);
      NeverOverdrawn(Step(r, es[0]), es[1..], t);
    }
  }

  predicate NoPosting(es: seq<Event>)
  {
    forall e :: e in es ==> !e.Posted? && !e.TryPosted?
  }

  lemma {:induction false} StepRoom(r: Run, e: Event)
    requires Possible(r.f, e) && !e.Posted? && !e.TryPosted?
    ensures FreeCount(r.f) <= FreeCount(Step(r, e).f)
  {
  }

  lemma {:induction false} RoomStays(r: Run, es: seq<Event>, t: Run)
    requires Inv(r) && Leads(r, es, t) && NoPosting(es)
    ensures Inv(t) && FreeCount(r.f) <= FreeCount(t.f) && SameSetup(r.f, t.f)
    decreases |es|
  {
    if es != [] {
      assert es[0] in es;
      StepRoom(r, es[0]);
      StepSetup(r, es[0]);
      StepInv(r, es[0]);
      RoomStays(Step(r, es[0]), es[1..], t);
    }
  }

  /** A `tryPost` that returns true promises room: whatever happens short of another post, the
      next update with something to tell is queued. */
  lemma {:induction false} RoomPromised(r: Run, u: Update, force: bool, es: seq<Event>, t: Run, next: Update, force': bool)
    requires Inv(r) && Enabled(r.f, TryPosted(u, force)) && FreeCount(TryPost(r.f, u, force)) > 0
    requires Leads(Step(r, TryPosted(u, force)), es, t) && NoPosting(es)
    requires Enabled(t.f, TryPosted(next, force')) && !Dropped(r.f, next)
    ensures TryPost(t.f, next, force').inuse == t.f.inuse + [Masked(r.f, next)]
  {
    var m := Step(r, TryPosted(u, force));
    StepInv(r, TryPosted(u, force));
    StepSetup(r, TryPosted(u, force));
    assert m.f == TryPost(r.f, u, force);
    RoomStays(m, es, t);
  }

  /** The end is reported at most once, only when nothing is queued any more, and nothing is
      handed out after it. */
  lemma {:induction false} EndOfStream(r: Run, es: seq<Event>, t: Run)
    requires Inv(r) && Leads(r, es, t)
    ensures r.ends <= t.ends <= 1 && (t.ends == 1 ==> t.f.finished && t.f.inuse == [] && !CanPoll(t.f))
    ensures r.f.finished && r.f.inuse == [] ==> t.handed == r.handed && t.f.finished && t.f.inuse == []
    decreases |es|
  {
    if es != [] {
      StepInv(r, es[0]);
      EndOfStream(Step(r, es[0]), es[1..], t);
    }
  }

  /** Once everything is handed out and notified, the end has been reported if and only if
      the FIFO was not stopped and empty when it finished. */
  lemma {:induction false} EndIsReported(t: Run)
    requires Inv(t) && t.f.finished && t.f.inuse == [] && !t.f.needUnlisten
    ensures t.ends == 1 <==> !t.silent
  {
  }

  /** A FIFO that finishes while stopped and empty never reports its end. */
  lemma {:induction false} SilentEnd(n: nat, pipeline: bool, ignoreMask: bool, mask: set<Field>, level: nat)
    returns (r: Run)
    requires n >= 1
    ensures Leads(Fresh(Opened(n, pipeline, ignoreMask, mask, level)), [Finished, Started, Notified, Polled], r)
    ensures r.silent && r.f.running && r.f.finished && r.f.inuse == [] && !r.f.needUnlisten && r.ends == 0
  {
    var f := Opened(n, pipeline, ignoreMask, mask, level);
    FreshInv(f);
    var r1 := Step(Fresh(f), Finished);
    StepInv(Fresh(f), Finished);
    var r2 := Step(r1, Started);
    StepInv(r1, Started);
    var r3 := Step(r2, Notified);
    StepInv(r2, Notified);
    r := Step(r3, Polled);
    var es := [Finished, Started, Notified, Polled];
    assert es[1..] == [Started, Notified, Polled] && es[1..][1..] == [Notified, Polled];
    assert [Notified, Polled][1..] == [Polled] && [Polled][1..] == [];
    assert Leads(r3, [Polled], r);
    assert Leads(r2, [Notified, Polled], r);
    assert Leads(r1, [Started, Notified, Polled], r);
  }
}
