/** The server's monitor FIFO as it is: lists of elements, moved between empty, in use and
    returned, and overwritten in place. */
module MonitorFifo {
  import opened Updates
  import opened Elements
  import opened FifoModel

  /** The part of a structure in the given fields. */
  function Restrict(r: Record, fields: set<Field>): Record
  {
    map k | k in fields && k in r :: r[k]
  }

  /** What a consumer that looks at changed fields only sees of an element. */
  function Told(s: Slot): Update
  {
    Update(Restrict(s.value, s.changed), s.overrun)
  }

  ghost function AllTold(es: seq<Element>): seq<Update>
    reads es
  {
    seq(|es|, i requires 0 <= i < |es| reads es => Told(es[i].Shown()))
  }

  twostate lemma {:induction false} ToldSame(es: seq<Element>)
    requires forall e :: e in es ==> unchanged(e)
    ensures AllTold(es) == old(AllTold(es))
  {
    forall i | 0 <= i < |es|
      ensures AllTold(es)[i] == old(AllTold(es))[i]
    {
      assert es[i] in es;
    }
  }

  lemma {:induction false} ToldMore(es: seq<Element>, e: Element)
    ensures AllTold(es + [e]) == AllTold(es) + [Told(e.Shown())]
  {
  }

  lemma {:induction false} ToldRest(es: seq<Element>)
    requires es != []
    ensures AllTold(es)[1..] == AllTold(es[1..]) && AllTold(es)[0] == Told(es[0].Shown())
  {
  }

  /** The update a post stands for. */
  function Given(value: Record, changed: set<Field>, overrun: set<Field>): Update
  {
    Update(Restrict(value, changed), overrun)
  }

  class Fifo {
    const actualCount: nat
    const pipeline: bool
    const ignoreMask: bool
    const level: nat
    const structure: nat
    // the structure as created, before any update
    const blank: Record
    var empty: seq<Element>
    var inuse: seq<Element>
    var returned: seq<Element>
    var flowCount: int
    var running: bool
    var finished: bool
    var needEvent: bool
    var needUnlisten: bool
    var selectMask: set<Field>
    var isOpen: bool
    var needConnected: bool
    var needClosed: bool
    // polled and not released
    ghost var out: set<Element>

    ghost function State(): FifoModel.Fifo
      reads this, inuse
    {
      FifoModel.Fifo(actualCount, pipeline, ignoreMask, selectMask, level,
        |empty|, AllTold(inuse), |returned|, |out|, flowCount, running, finished, needEvent, needUnlisten,
        Link(isOpen, needConnected, needClosed))
    }

    /** No element is in two places. */
    ghost predicate Shape()
      reads this
    {
      && Distinct(empty) && Distinct(inuse) && Distinct(returned)
      && (forall e :: e in empty ==> e !in inuse && e !in returned && e !in out)
      && (forall e :: e in inuse ==> e !in returned && e !in out)
      && (forall e :: e in returned ==> e !in out)
    }

    ghost predicate Sound()
      reads this, inuse
    {
      Shape() && forall e :: e in inuse ==> e.changed <= e.value.Keys
    }

    ghost predicate Valid()
      reads this, inuse
    {
      Sound() && Pool(State())
    }

    constructor Open(actualCount: nat, pipeline: bool, ignoreMask: bool, selectMask: set<Field>, level: nat,
                     structure: nat, blank: Record)
      requires actualCount >= 1
      ensures Valid() && State() == Opened(actualCount, pipeline, ignoreMask, selectMask, level)
      ensures fresh(empty) && this.structure == structure && this.blank == blank
    {
      this.actualCount, this.pipeline, this.ignoreMask := actualCount, pipeline, ignoreMask;
      this.selectMask, this.level, this.structure, this.blank := selectMask, level, structure, blank;
      empty, inuse, returned, out := [], [], [], {};
      flowCount, running, finished, needEvent, needUnlisten := 0, false, false, false, false;
      isOpen, needConnected, needClosed := true, true, false;
      new;
      while |empty| < actualCount + 1
        invariant |empty| <= actualCount + 1 && fresh(empty) && Distinct(empty)
        invariant inuse == [] && returned == [] && out == {}
        invariant flowCount == 0 && !running && !finished && !needEvent && !needUnlisten
        invariant isOpen && needConnected && !needClosed && this.selectMask == selectMask
      {
        var e := new Element(structure, blank);
        empty := empty + [e];
      }
    }

    method CountFree() returns (n: nat)
      ensures n == FreeCount(State())
    {
      if pipeline {
        n := if flowCount <= 0 then 0 else if flowCount <= |empty| then flowCount else |empty|;
      } else {
        n := if empty == [] then 0 else |empty| - 1;
      }
    }

    /** Writes an update into an element. */
    method Fill(e: Element, value: Record, scratch: set<Field>, overrun: set<Field>)
      requires scratch <= value.Keys
      modifies e
      ensures Told(e.Shown()) == Update(Restrict(value, scratch), overrun * selectMask) && e.changed <= e.value.Keys
    {
      e.value := e.value + Restrict(value, scratch);
      e.changed := scratch;
      e.overrun := overrun * selectMask;
    }

    /** Queues a filled element. */
    method Queue(e: Element)
      requires Sound() && e !in empty && e !in inuse && e !in returned && e !in out
      requires e.changed <= e.value.Keys
      modifies `inuse, `needEvent, `flowCount
      ensures Sound() && inuse == old(inuse) + [e]
      ensures State() == Enqueue(old(State()), Told(e.Shown()))
    {
      if inuse == [] && running {
        needEvent := true;
      }
      PushLast(inuse, e);
      ToldMore(inuse, e);
      inuse := inuse + [e];
      if pipeline {
        flowCount := flowCount - 1;
      }
    }

    /** Takes the first empty element for an update. */
    method UseEmpty(value: Record, scratch: set<Field>, overrun: set<Field>)
      requires Sound() && empty != [] && scratch <= value.Keys
      modifies `empty, `inuse, `needEvent, `flowCount, empty
      ensures Sound()
      ensures State() == Enqueue(old(State()), Update(Restrict(value, scratch), overrun * selectMask))
                         .(empty := old(|empty|) - 1)
    {
      var e := empty[0];
      assert e in empty;
      PopFirst(empty);
      empty := empty[1..];
      Fill(e, value, scratch, overrun);
      ToldSame(inuse);
      Queue(e);
    }

    /** Allocates an element for an update. */
    method UseExtra(value: Record, scratch: set<Field>, overrun: set<Field>)
      requires Sound() && scratch <= value.Keys
      modifies `inuse, `needEvent, `flowCount
      ensures Sound()
      ensures State() == Enqueue(old(State()), Update(Restrict(value, scratch), overrun * selectMask))
    {
      var e := new Element(structure, blank);
      Fill(e, value, scratch, overrun);
      ToldSame(inuse);
      Queue(e);
    }

    /** Merges an update into an element. */
    method MergeInto(e: Element, value: Record, scratch: set<Field>, overrun: set<Field>)
      requires scratch <= value.Keys && e.changed <= e.value.Keys
      modifies e
      ensures e.changed <= e.value.Keys
      ensures Told(e.Shown()) == Merge(old(Told(e.Shown())), Update(Restrict(value, scratch), overrun * selectMask))
    {
      e.value := e.value + Restrict(value, scratch);
      e.overrun := e.overrun + e.changed * scratch;
      e.changed := e.changed + scratch;
      e.overrun := e.overrun + overrun * selectMask;
    }

    /** Merges an update into the element queued last. */
    method Squash(value: Record, scratch: set<Field>, overrun: set<Field>)
      requires Sound() && inuse != [] && scratch <= value.Keys
      modifies inuse
      ensures Sound()
      ensures var n := |inuse| - 1;
              AllTold(inuse) == old(AllTold(inuse))[..n]
                + [Merge(old(AllTold(inuse))[n], Update(Restrict(value, scratch), overrun * selectMask))]
    {
      ghost var front := inuse[..|inuse| - 1];
      var e := inuse[|inuse| - 1];
      PopLast(inuse);
      assert inuse == front + [e];
      ToldMore(front, e);
      MergeInto(e, value, scratch, overrun);
      ToldSame(front);
      ToldMore(front, e);
    }

    /** Posts if there is room, or by force; tells whether there is room for another post. */
    method TryPost(value: Record, changed: set<Field>, overrun: set<Field>, force: bool) returns (room: bool)
      requires Valid() && isOpen && !finished && changed <= value.Keys
      modifies `empty, `inuse, `needEvent, `flowCount, empty
      ensures Valid() && State() == FifoModel.TryPost(old(State()), Given(value, changed, overrun), force)
      ensures room == (FreeCount(State()) > 0)
    {
      var scratch := changed * selectMask;
      MaskGiven(value, changed, overrun);
      var free := CountFree();
      if !ignoreMask && scratch == {} {
      } else if free > 0 {
        UseEmpty(value, scratch, overrun);
      } else if force {
        UseExtra(value, scratch, overrun);
      }
      var left := CountFree();
      room := left > 0;
    }

    lemma {:induction false} MaskGiven(value: Record, changed: set<Field>, overrun: set<Field>)
      requires changed <= value.Keys
      ensures var u := Given(value, changed, overrun);
              && Masked(State(), u) == Update(Restrict(value, changed * selectMask), overrun * selectMask)
              && (Dropped(State(), u) <==> !ignoreMask && changed * selectMask == {})
    {
      var u := Given(value, changed, overrun);
      assert Masked(State(), u).values.Keys == changed * selectMask;
    }

    /** Posts, if need be by merging into the element queued last. */
    method Post(value: Record, changed: set<Field>, overrun: set<Field>)
      requires Valid() && isOpen && !finished && changed <= value.Keys
      modifies `empty, `inuse, `needEvent, `flowCount, empty, inuse
      ensures Valid() && State() == FifoModel.Post(old(State()), Given(value, changed, overrun))
      ensures forall e :: e in out ==> unchanged(e)
    {
      var scratch := changed * selectMask;
      MaskGiven(value, changed, overrun);
      if !ignoreMask && scratch == {} {
        return;
      }
      if empty != [] {
        UseEmpty(value, scratch, overrun);
      } else {
        Squash(value, scratch, overrun);
      }
    }

    /** Hands out the oldest element unless it is the last one left to squash into. */
    method Poll() returns (r: Element?, unlisten: bool)
      requires Valid()
      modifies `inuse, `out
      ensures Valid() && State() == FifoModel.Poll(old(State()))
      ensures r == null <==> !CanPoll(old(State()))
      ensures r != null ==> Told(r.Shown()) == old(State()).inuse[0] && r !in old(out) && out == old(out) + {r}
      ensures unlisten == PollEnds(old(State()))
    {
      r, unlisten := null, false;
      if inuse != [] && |inuse| + |empty| > 1 {
        r := inuse[0];
        assert r in inuse;
        ToldRest(inuse);
        PopFirst(inuse);
        inuse := inuse[1..];
        out := out + {r};
        unlisten := inuse == [] && finished;
      }
    }

    /** In none of the lists, and not with the user. */
    ghost predicate Loose(e: Element)
      reads this
    {
      e !in empty && e !in inuse && e !in returned && e !in out
    }

    method LetGo(e: Element)
      requires Sound() && e in out
      modifies `out
      ensures Sound() && out == old(out) - {e} && |out| == old(|out|) - 1 && Loose(e)
    {
      assert out == (out - {e}) + {e};
      out := out - {e};
    }

    method PutReturned(e: Element)
      requires Sound() && Loose(e)
      modifies `returned
      ensures Sound() && |returned| == old(|returned|) + 1 && returned == old(returned) + [e]
    {
      PushLast(returned, e);
      returned := returned + [e];
    }

    method PutEmpty(e: Element)
      requires Sound() && Loose(e)
      modifies `empty
      ensures Sound() && |empty| == old(|empty|) + 1 && empty == [e] + old(empty)
    {
      PushFirst(empty, e);
      empty := [e] + empty;
    }

    /** Makes an element empty, and says whether the mark is crossed. */
    method PutEmptyMarked(e: Element) returns (mark: Option<nat>)
      requires Sound() && Loose(e) && !pipeline
      modifies `empty
      ensures Sound() && State() == old(State()).(empty := old(|empty|) + 1) && empty == [e] + old(empty)
      ensures mark == if FreeCount(old(State())) <= level < FreeCount(State()) then Some(FreeCount(State())) else None
    {
      var before := CountFree();
      PutEmpty(e);
      var after := CountFree();
      mark := if before <= level < after then Some(after) else None;
    }

    method TakeBack(e: Element) returns (mark: Option<nat>)
      requires Valid() && e in out
      modifies `empty, `returned, `out
      ensures Valid() && old(State()).out > 0 && State() == FifoModel.Release(old(State()))
      ensures |empty| > old(|empty|) ==> empty == [e] + old(empty)
      ensures |returned| > old(|returned|) ==> returned == old(returned) + [e]
      ensures mark == if Marks(old(State()), Released) then Some(FreeCount(State())) else None
    {
      LetGo(e);
      mark := None;
      if |empty| + |returned| >= actualCount + 1 {
      } else if pipeline {
        PutReturned(e);
      } else {
        mark := PutEmptyMarked(e);
      }
    }

    /** Takes an element back into the pool; `mark` is told upstream when enough are free. */
    method Release(e: Element) returns (mark: Option<nat>)
      requires Valid() && (e.structure == structure ==> e in out)
      modifies `empty, `returned, `out
      ensures Valid()
      ensures e.structure != structure ==> State() == old(State()) && mark == None
      ensures e.structure == structure ==> old(State()).out > 0 && State() == FifoModel.Release(old(State()))
      ensures |empty| > old(|empty|) ==> empty == [e] + old(empty)
      ensures |returned| > old(|returned|) ==> returned == old(returned) + [e]
      ensures e.structure == structure ==> mark == if Marks(old(State()), Released) then Some(FreeCount(State())) else None
    {
      if e.structure != structure {
        return None;
      }
      mark := TakeBack(e);
    }

    /** Moves elements that were returned first to the end of the empty ones. */
    method GiveBack(nack: nat)
      requires Sound() && nack <= |returned|
      modifies `empty, `returned
      ensures Sound() && |empty| == old(|empty|) + nack && |returned| == old(|returned|) - nack
      ensures empty == old(empty) + old(returned)[..nack] && returned == old(returned)[nack..]
    {
      Splice(empty, returned, nack);
      empty := empty + returned[..nack];
      returned := returned[nack..];
    }

    /** Credit from the client: that many returned elements become empty again. */
    method ReportRemoteQueueStatus(nfree: int) returns (mark: Option<nat>)
      requires Valid()
      modifies `empty, `returned, `flowCount
      ensures Valid() && State() == Ack(old(State()), nfree) && empty + returned == old(empty + returned)
      ensures mark == if Marks(old(State()), Acked(nfree)) then Some(FreeCount(State())) else None
    {
      if nfree <= 0 || !pipeline {
        return None;
      }
      var before := CountFree();
      var nack := if nfree <= |returned| then nfree else |returned|;
      flowCount := flowCount + nfree;
      GiveBack(nack);
      assert empty + returned == old(empty) + (old(returned)[..nack] + old(returned)[nack..]);
      var after := CountFree();
      mark := if before <= level < after && |empty| > 1 then Some(after) else None;
    }

    /** Starts handing out; tells whether there is something to poll. */
    method Start() returns (event: bool)
      requires isOpen
      modifies `running
      ensures State() == old(State()).(running := true)
      ensures event <==> !old(running) && inuse != []
    {
      if running {
        return false;
      }
      event := inuse != [];
      running := true;
    }

    method Stop()
      modifies `running
      ensures State() == old(State()).(running := false)
    {
      running := false;
    }

    method Finish()
      requires isOpen
      modifies `finished, `needUnlisten
      ensures State() == FifoModel.Finish(old(State()))
    {
      if finished {
        return;
      }
      finished := true;
      if inuse == [] && running {
        needUnlisten := true;
      }
    }

    /** Tells the requester what has happened since the last call. */
    method Notify() returns (connect: bool, event: bool, unlisten: bool, close: bool)
      modifies `needConnected, `needEvent, `needUnlisten, `needClosed
      ensures State() == FifoModel.Notify(old(State()))
      ensures connect == old(needConnected) && event == old(needEvent)
      ensures unlisten == old(needUnlisten) && close == old(needClosed)
    {
      connect, event, unlisten, close := needConnected, needEvent, needUnlisten, needClosed;
      needConnected, needEvent, needUnlisten, needClosed := false, false, false, false;
    }

    method Close()
      modifies `isOpen, `needClosed, `selectMask
      ensures State() == FifoModel.Close(old(State()))
    {
      if !isOpen {
        return;
      }
      isOpen := false;
      needClosed := true;
      selectMask := {};
    }
  }
}
