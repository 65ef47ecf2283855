/** Whole runs of the monitor FIFO, told from the calls made: what it has to tell, how acks give
    elements back, and how many posts fit. */
module FifoRuns {
  import opened Updates
  import opened FifoModel

  // ----- what is told -----

  /** What the posts of a run have to tell: every one that says something, but for those made
      without force when there was no room. */
  function WantedIn(r: Run, es: seq<Event>, t: Run): seq<Update>
    requires Leads(r, es, t)
    decreases |es|
  {
    if es == [] then []
    else (if Wanted(r.f, es[0]) then [Masked(r.f, es[0].u)] else []) + WantedIn(Step(r, es[0]), es[1..], t)
  }

  lemma {:induction false} TakenIsWanted(r: Run, es: seq<Event>, t: Run)
    requires Leads(r, es, t)
    ensures t.taken == r.taken + WantedIn(r, es, t)
    decreases |es|
  {
    if es == [] {
      assert r.taken + [] == r.taken;
    } else {
      var m := Step(r, es[0]);
      var first := if Wanted(r.f, es[0]) then [Masked(r.f, es[0].u)] else [];
      TakenIsWanted(m, es[1..], t);
      assert m.taken == r.taken + first;
      assert (r.taken + first) + WantedIn(m, es[1..], t) == r.taken + (first + WantedIn(m, es[1..], t));
    }
  }

  /** Over every run: what was handed out and is queued has exactly the effect of all posts that say
      something, but for those made without force when there was no room. */
  lemma {:induction false} NothingLost(n: nat, pipeline: bool, ignoreMask: bool, mask: set<Field>, level: nat,
                                       es: seq<Event>, t: Run, base: Record)
    requires n >= 1 && Leads(Fresh(Opened(n, pipeline, ignoreMask, mask, level)), es, t)
    ensures Fold(base, t.handed + t.f.inuse)
         == Fold(base, WantedIn(Fresh(Opened(n, pipeline, ignoreMask, mask, level)), es, t))
  {
    var r := Fresh(Opened(n, pipeline, ignoreMask, mask, level));
    EveryRun(n, pipeline, ignoreMask, mask, level, es, t, base);
    TakenIsWanted(r, es, t);
    assert [] + WantedIn(r, es, t) == WantedIn(r, es, t);
  }

  // ----- how acks give elements back -----

  function Sum(ns: seq<int>): int
  {
    if ns == [] then 0 else ns[0] + Sum(ns[1..])
  }

  /** By how much each call of a run raises the number of elements that wait for an ack, or would
      lower it if there were enough. */
  function Gains(r: Run, es: seq<Event>, t: Run): (gs: seq<int>)
    requires Leads(r, es, t)
    ensures |gs| == |es|
    decreases |es|
  {
    if es == [] then [] else [Gain(r.f, es[0])] + Gains(Step(r, es[0]), es[1..], t)
  }

  function Gain(f: Fifo, e: Event): int
  {
    match e
    case Released => if Scraps(f) then 0 else 1
    case Acked(n) => if n > 0 then -n else 0
    case _ => 0
  }

  lemma {:induction false} GainStep(r: Run, e: Event)
    requires Inv(r) && r.f.pipeline && Possible(r.f, e)
    ensures var k := r.f.returned + Gain(r.f, e); Step(r, e).f.returned == if k >= 0 then k else 0
  {
    match e
    case Released => ReleasePool(r.f);
    case TryPosted(u, force) => TryPostMeans(r.f, u, force);
    case _ =>
  }

  lemma {:induction false} ReturnedSince(r: Run, es: seq<Event>, t: Run) returns (k: nat)
    requires Inv(r) && r.f.pipeline && Leads(r, es, t)
    ensures var gs := Gains(r, es, t);
            && k <= |es| && (t.f.returned == Sum(gs[k..]) || t.f.returned == r.f.returned + Sum(gs))
            && t.f.returned >= r.f.returned + Sum(gs)
            && forall i :: 0 <= i <= |es| ==> t.f.returned >= Sum(gs[i..])
    decreases |es|
  {
    k := 0;
    if es != [] {
      var m, gs := Step(r, es[0]), Gains(r, es, t);
      GainStep(r, es[0]);
      StepInv(r, es[0]);
      StepSetup(r, es[0]);
      var rest := Gains(m, es[1..], t);
      assert gs[1..] == rest;
      k := ReturnedSince(m, es[1..], t);
      Shifted(gs, rest);
      forall i | 0 <= i <= |es|
        ensures t.f.returned >= Sum(gs[i..])
      {
        if i == 0 {
          assert gs[0..] == gs;
        } else {
          assert gs[i..] == rest[i - 1..];
        }
      }
      assert gs[k + 1..] == rest[k..];
      if t.f.returned == Sum(rest[k..]) {
        k := k + 1;
      } else if m.f.returned == 0 {
        k := 1;
      }
    }
  }

  lemma {:induction false} Shifted(gs: seq<int>, rest: seq<int>)
    requires gs != [] && rest == gs[1..]
    ensures Sum(gs) == gs[0] + Sum(rest)
  {
  }

  /** In every run with pipelining the elements that wait for an ack are exactly the releases since
      some point of the run less the credit acked since then, for the point where that is most. */
  lemma {:induction false} ReturnedExactly(n: nat, ignoreMask: bool, mask: set<Field>, level: nat, es: seq<Event>, t: Run)
    requires n >= 1 && Leads(Fresh(Opened(n, true, ignoreMask, mask, level)), es, t)
    ensures var gs := Gains(Fresh(Opened(n, true, ignoreMask, mask, level)), es, t);
            && (exists k :: 0 <= k <= |es| && t.f.returned == Sum(gs[k..]))
            && (forall k :: 0 <= k <= |es| ==> t.f.returned >= Sum(gs[k..]))
  {
    var f := Opened(n, true, ignoreMask, mask, level);
    FreshInv(f);
    var gs := Gains(Fresh(f), es, t);
    var k := ReturnedSince(Fresh(f), es, t);
    assert gs[0..] == gs;
  }

  /** Once everything is polled and released, and acks cover the releases of every stretch up to now,
      the pool is full again. */
  lemma {:induction false} AllBack(n: nat, ignoreMask: bool, mask: set<Field>, level: nat, es: seq<Event>, t: Run)
    requires n >= 1 && Leads(Fresh(Opened(n, true, ignoreMask, mask, level)), es, t)
    requires t.f.inuse == [] && t.f.out == 0
    requires var gs := Gains(Fresh(Opened(n, true, ignoreMask, mask, level)), es, t);
             forall k :: 0 <= k <= |es| ==> Sum(gs[k..]) <= 0
    ensures t.f.returned == 0 && t.f.empty == n + 1
  {
    var f := Opened(n, true, ignoreMask, mask, level);
    FreshInv(f);
    RunInv(Fresh(f), es, t);
    ReturnedExactly(n, ignoreMask, mask, level, es, t);
  }

  // ----- how many posts fit -----

  /** A FIFO of `n` slots takes exactly `n` updates without force, or what credit it has; with
      pipelining it may use the spare element as well. */
  lemma {:induction false} FreshTakes(n: nat, pipeline: bool, ignoreMask: bool, mask: set<Field>, level: nat,
                                      credit: nat, us: seq<Update>)
    requires n >= 1 && forall i :: 0 <= i < |us| ==> Speaks(Opened(n, pipeline, ignoreMask, mask, level), us[i])
    ensures var f := Ack(Opened(n, pipeline, ignoreMask, mask, level), credit);
            var room := if !pipeline then n else if credit <= n + 1 then credit else n + 1;
            |TryAll(f, us).inuse| == if |us| <= room then |us| else room
  {
    var f := Ack(Opened(n, pipeline, ignoreMask, mask, level), credit);
    forall i | 0 <= i < |us|
      ensures !Dropped(f, us[i])
    {
      SpeaksOrDropped(f, us[i]);
      assert Speaks(Opened(n, pipeline, ignoreMask, mask, level), us[i]);
    }
    FreeCountMeans(f, us);
  }

  /** Without pipelining, posting only what fits never uses the last empty element, so that a poll
      withholds nothing. */
  lemma {:induction false} LastStays(r: Run, es: seq<Event>, t: Run)
    requires Inv(r) && !r.f.pipeline && r.f.empty >= 1 && Leads(r, es, t) && Unforced(es)
    ensures t.f.empty >= 1 && (t.f.inuse != [] ==> CanPoll(t.f))
    decreases |es|
  {
    if es != [] {
      var e := es[0];
      assert e in es;
      match e {
        case TryPosted(u, force) => TryPostMeans(r.f, u, force);
        case Released => ReleasePool(r.f);
        case _ =>
      }
      StepInv(r, e);
      StepSetup(r, e);
      LastStays(Step(r, e), es[1..], t);
    }
  }
}
