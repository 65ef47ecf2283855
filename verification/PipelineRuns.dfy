/** The pipeline monitor told from the calls made alone: what polls hand out, and when the end of the
    stream is reported. */
module PipelineRuns {
  import opened Updates
  import opened PipelineModel

  // ----- the calls -----

  /** What a list of calls comes to: whether the last one that starts or stops starts; whether the
      stream has been ended or the monitor destroyed; the updates put before that; how many of them
      polls have got; all credit granted; and whether the end has been due to be reported. */
  datatype Tally = Tally(on: bool, over: bool, puts: seq<Update>, given: nat, credit: nat, seen: bool)

  /** A poll gets an update if it comes while on and both an update and credit are left. The end is
      due when a call comes after everything has been got and ends the stream, or polls it ended. */
  function Tick(y: Tally, e: Event): Tally
  {
    Tally(e.Start? || (y.on && !e.Stop? && !e.Destroying?),
          y.over || e.Ending? || e.Destroying?,
          if e.Putting? && !y.over then y.puts + [e.u] else y.puts,
          if e.Polling? && y.on && y.given < |y.puts| && y.given < y.credit then y.given + 1 else y.given,
          y.credit + (if e.Reporting? then e.count else 0),
          y.seen || (y.given == |y.puts| && (e.Ending? || (e.Polling? && y.over))))
  }

  function Tallied(es: seq<Event>): Tally
  {
    if es == [] then Tally(false, false, [], 0, 0, false) else Tick(Tallied(es[..|es| - 1]), es[|es| - 1])
  }

  lemma {:induction false} TalliedMore(es: seq<Event>, e: Event)
    ensures Tallied(es + [e]) == Tick(Tallied(es), e)
  {
    assert (es + [e])[..|es|] == es;
  }

  // ----- the monitor -----

  lemma {:induction false} RunMore(s: Server, es: seq<Event>, e: Event)
    requires Possible(s, es + [e])
    ensures Possible(s, es) && Enabled(After(s, es), e)
    ensures After(s, es + [e]) == Step(After(s, es), e).server
    ensures Handed(s, es + [e]) == Handed(s, es) + HandedBy(After(s, es), e)
    ensures Ends(s, es + [e]) == Ends(s, es) + Count(Step(After(s, es), e).unlisten)
    decreases |es|
  {
    var all := es + [e];
    if es == [] {
      assert all[1..] == [] && all[0] == e;
      assert HandedBy(s, e) + [] == [] + HandedBy(s, e);
    } else {
      var m := Step(s, es[0]).server;
      assert all[1..] == es[1..] + [e] && all[0] == es[0];
      RunMore(m, es[1..], e);
      var first, rest, last := HandedBy(s, es[0]), Handed(m, es[1..]), HandedBy(After(s, es), e);
      assert first + (rest + last) == (first + rest) + last;
    }
  }

  /** The monitor is as the calls say. */
  predicate Matches(s: Server, y: Tally)
  {
    && y.given <= |y.puts| && s.filled == y.puts[y.given..]
    && s.active == y.on && s.done == y.over && s.requested + y.given == y.credit
    && s.unlistened == y.seen && (y.seen ==> y.over && y.given == |y.puts|)
  }

  lemma {:induction false} PollMatches(s: Server, y: Tally)
    requires Matches(s, y)
    ensures Matches(Poll(s).server, Tick(y, Polling))
    ensures HandedBy(s, Polling) == y.puts[y.given..Tick(y, Polling).given]
    ensures Poll(s).unlisten <==> Tick(y, Polling).seen && !y.seen
  {
    var puts, k := y.puts, y.given;
    if CanPoll(s) {
      assert puts[k..][0] == puts[k] && puts[k..][1..] == puts[k + 1..] && puts[k..k + 1] == [puts[k]];
    }
  }

  lemma {:induction false} StepMatches(s: Server, y: Tally, e: Event)
    requires Matches(s, y) && Enabled(s, e)
    ensures Matches(Step(s, e).server, Tick(y, e))
    ensures y.given <= Tick(y, e).given && HandedBy(s, e) == y.puts[y.given..Tick(y, e).given]
    ensures Step(s, e).unlisten <==> Tick(y, e).seen && !y.seen
  {
    if e.Polling? {
      PollMatches(s, y);
    } else if e.Putting? && !y.over {
      assert (y.puts + [e.u])[y.given..] == y.puts[y.given..] + [e.u];
    }
  }

  /** Over every run from the start: polls hand out the updates put before the end, in order, one for
      each poll made while the monitor is on and credit is left; and the end is reported once if it has
      been due, and otherwise never. */
  lemma {:induction false} RunExactly(n: nat, es: seq<Event>)
    requires Possible(Fresh(n), es)
    ensures var y := Tallied(es);
            && Matches(After(Fresh(n), es), y)
            && Handed(Fresh(n), es) == y.puts[..y.given] && Ends(Fresh(n), es) == Count(y.seen)
    decreases |es|
  {
    if es != [] {
      var k, e := |es| - 1, es[|es| - 1];
      var init := es[..k];
      assert es == init + [e];
      RunMore(Fresh(n), init, e);
      RunExactly(n, init);
      StepMatches(After(Fresh(n), init), Tallied(init), e);
      Got(Tallied(init), e);
    }
  }

  lemma {:induction false} Got(y: Tally, e: Event)
    requires y.given <= |y.puts|
    ensures var z := Tick(y, e);
            && y.given <= z.given <= |y.puts| && z.given <= |z.puts|
            && z.puts[..z.given] == y.puts[..y.given] + y.puts[y.given..z.given]
  {
  }

  lemma {:induction false} StaysSeen(a: seq<Event>, b: seq<Event>)
    ensures Tallied(a).seen ==> Tallied(a + b).seen
    ensures Tallied(a).over ==> Tallied(a + b).over
    decreases |b|
  {
    if b == [] {
      assert a + b == a;
    } else {
      var n := |b| - 1;
      StaysSeen(a, b[..n]);
      assert (a + b)[..|a + b| - 1] == a + b[..n];
    }
  }

  /** A stream that is ended, or whose monitor is destroyed, and that is polled after everything has
      been handed out, has its end reported. */
  lemma {:induction false} EndIsReported(n: nat, before: seq<Event>, end: Event, between: seq<Event>, rest: seq<Event>)
    requires (end.Ending? || end.Destroying?) && Possible(Fresh(n), before + [end] + between + [Polling] + rest)
    requires var y := Tallied(before + [end] + between); y.given == |y.puts|
    ensures Ends(Fresh(n), before + [end] + between + [Polling] + rest) == 1
  {
    var a := before + [end];
    var b := a + between;
    TalliedMore(before, end);
    StaysSeen(a, between);
    TalliedMore(b, Polling);
    StaysSeen(b + [Polling], rest);
    RunExactly(n, b + [Polling] + rest);
  }
}
