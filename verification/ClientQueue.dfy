/** The client's monitor queue as it is: elements that are recycled and overwritten in
    place, and a reference to whichever of them holds the newest structure. */
module ClientQueue {
  import opened Updates
  import opened ClientModel
  import opened Elements

  class StrategyQueue {
    const queueSize: nat
    const pipeline: bool
    const ackAny: int
    var lastStructure: nat
    var freeQueue: seq<Element>
    var monitorQueue: seq<Element>
    var overrunElement: Element?
    var overrunInProgress: bool
    var up2date: Element?
    var releasedCount: nat
    var reportInProgress: bool
    var unlisten: bool

    // the structure as created, before any update
    ghost var blank: Record
    // the elements the user has polled and not released
    ghost var held: set<Element>

    ghost function State(): Client
      reads this, monitorQueue, overrunElement, up2date
    {
      Client(queueSize, pipeline, ackAny, blank,
             |freeQueue|, Shown(monitorQueue),
             if overrunElement == null then None else Some(overrunElement.Shown()), |held|,
             if up2date == null then None else Some(up2date.value),
             releasedCount, reportInProgress, unlisten)
    }

    ghost predicate InPool(e: Element)
      reads this
    {
      e in freeQueue || e in monitorQueue || e == overrunElement || e in held
    }

    /** Who is where: no element is in two places. */
    ghost predicate Shape()
      reads this
    {
      && Distinct(freeQueue) && Distinct(monitorQueue)
      && (forall e :: e in freeQueue ==> e !in monitorQueue && e != overrunElement && e !in held)
      && (forall e :: e in monitorQueue ==> e != overrunElement && e !in held)
      && (overrunElement != null ==> overrunElement !in held && up2date == overrunElement)
      && (overrunInProgress <==> overrunElement != null)
      && (up2date != null ==> InPool(up2date))
    }

    ghost predicate Holds(e: Element)
      reads this, e
    {
      e.structure == lastStructure && e.value.Keys == blank.Keys && (up2date == null ==> e.value == blank)
    }

    /** What elements hold, wherever they are. */
    ghost predicate Contents()
      reads this, freeQueue, monitorQueue, overrunElement, held
    {
      && (forall e :: e in freeQueue ==> Holds(e))
      && (forall e :: e in monitorQueue ==> Holds(e))
      && (overrunElement != null ==> Holds(overrunElement))
      && (forall e :: e in held ==> Holds(e))
    }

    ghost predicate Sound()
      reads this, freeQueue, monitorQueue, overrunElement, held
    {
      Shape() && Contents()
    }

    ghost predicate Valid()
      reads this, freeQueue, monitorQueue, overrunElement, held, up2date
    {
      Sound() && queueSize >= 2 && Conserved(State())
    }

    constructor (queueSize: nat, pipeline: bool, ackAny: int)
      requires queueSize > 1
      ensures this.queueSize == queueSize && this.pipeline == pipeline && this.ackAny == ackAny
      ensures !overrunInProgress && overrunElement == null
    {
      this.queueSize, this.pipeline, this.ackAny := queueSize, pipeline, ackAny;
      lastStructure, freeQueue, monitorQueue := 0, [], [];
      overrunElement, overrunInProgress, up2date := null, false, null;
      releasedCount, reportInProgress, unlisten := 0, false, false;
      blank, held := map[], {};
    }

    /** A new epoch. The pool is right if and only if no overrun was pending, because a
        pending overrun element survives. */
    method Init(structure: nat, blank: Record)
      requires queueSize > 1 && (overrunInProgress <==> overrunElement != null)
      modifies this
      ensures !old(overrunInProgress) ==> Valid() && State() == Fresh(queueSize, pipeline, ackAny, blank).(ending := unlisten)
      ensures old(overrunInProgress) ==> overrunElement == old(overrunElement) != null && overrunElement !in freeQueue
      ensures InCirculation(State()) == queueSize + if old(overrunInProgress) then 1 else 0
      ensures fresh(freeQueue) && |freeQueue| == queueSize && Distinct(freeQueue) && monitorQueue == []
      ensures up2date == null && held == {} && lastStructure == structure && unlisten == old(unlisten)
      ensures overrunInProgress == old(overrunInProgress)
    {
      releasedCount, reportInProgress := 0, false;
      monitorQueue, freeQueue, up2date := [], [], null;
      held, this.blank := {}, blank;
      while |freeQueue| < queueSize
        invariant |freeQueue| <= queueSize && fresh(freeQueue)
        invariant forall e :: e in freeQueue ==> e.value == blank && e.structure == structure
        invariant Distinct(freeQueue)
        invariant monitorQueue == [] && up2date == null && held == {} && this.blank == blank
        invariant releasedCount == 0 && !reportInProgress && unlisten == old(unlisten)
        invariant overrunElement == old(overrunElement) && overrunInProgress == old(overrunInProgress)
      {
        var e := new Element(structure, blank);
        freeQueue := freeQueue + [e];
      }
      lastStructure := structure;
    }

    /** An update while no element is free: it is merged into the overrun element. */
    method SquashUpdate(u: Update)
      requires Sound() && overrunInProgress && u.values.Keys <= blank.Keys
      modifies overrunElement
      ensures Sound() && State() == Respond(old(State()), u)
    {
      var e := overrunElement;
      e.value := e.value + u.values;
      e.overrun := e.overrun + e.changed * u.values.Keys;
      e.changed := e.changed + u.values.Keys;
      e.overrun := e.overrun + u.overrun;
      ShownSame(monitorQueue);
    }

    /** Overwrites a recycled element with the newest structure and the update. */
    method Fill(e: Element, u: Update)
      requires e.value.Keys == blank.Keys && u.values.Keys <= blank.Keys
      requires up2date == null ==> e.value == blank
      requires up2date != null ==> up2date.value.Keys == blank.Keys
      modifies e
      ensures e.value.Keys == blank.Keys
      ensures e.Shown() == Slot((if up2date == null then blank else old(up2date.value)) + u.values, u.values.Keys, u.overrun)
    {
      e.changed := u.values.Keys;
      if up2date != null && up2date != e {
        e.value := map f | f in e.value :: if f in e.changed then e.value[f] else up2date.value[f];
      }
      e.value := e.value + u.values;
      e.overrun := u.overrun;
    }

    /** Takes the element freed last out of the pool; the only free element gets parked. */
    method TakeFree() returns (e: Element)
      requires Shape() && !overrunInProgress && freeQueue != []
      modifies `freeQueue, `overrunElement, `overrunInProgress
      ensures old(freeQueue) == freeQueue + [e] && Distinct(freeQueue)
      ensures forall x :: x in freeQueue <==> x in old(freeQueue) && x != e
      ensures overrunInProgress == (freeQueue == []) && overrunElement == if freeQueue == [] then e else null
    {
      e := freeQueue[|freeQueue| - 1];
      PopLast(freeQueue);
      freeQueue := freeQueue[..|freeQueue| - 1];
      if freeQueue == [] {
        overrunInProgress := true;
        overrunElement := e;
      }
    }

    /** The filled element becomes the newest one, and is queued unless it is parked. */
    method Publish(e: Element)
      requires e !in freeQueue && e !in monitorQueue && e !in held
      requires Distinct(freeQueue) && Distinct(monitorQueue)
      requires forall x :: x in freeQueue ==> x !in monitorQueue && x !in held
      requires forall x :: x in monitorQueue ==> x !in held
      requires overrunElement == if overrunInProgress then e else null
      requires e.structure == lastStructure && e.value.Keys == blank.Keys
      requires forall x :: x in freeQueue || x in monitorQueue || x in held ==> Holds(x)
      modifies `monitorQueue, `up2date
      ensures Sound() && up2date == e
      ensures Shown(monitorQueue) == old(Shown(monitorQueue)) + if overrunInProgress then [] else [e.Shown()]
    {
      up2date := e;
      if overrunInProgress {
        assert Shown(monitorQueue) + [] == Shown(monitorQueue);
      } else {
        PushLast(monitorQueue, e);
        ShownMore(monitorQueue, e);
        monitorQueue := monitorQueue + [e];
      }
    }

    /** Overwrites the element freed last with an update; all others stay as they are. */
    method TakeAndFill(u: Update) returns (e: Element)
      requires Sound() && !overrunInProgress && freeQueue != [] && u.values.Keys <= blank.Keys
      modifies `freeQueue, `overrunElement, `overrunInProgress, freeQueue
      ensures old(freeQueue) == freeQueue + [e] && Distinct(freeQueue)
      ensures forall x :: x in freeQueue <==> x in old(freeQueue) && x != e
      ensures overrunInProgress == (freeQueue == []) && overrunElement == if freeQueue == [] then e else null
      ensures e.structure == lastStructure && e.value.Keys == blank.Keys
      ensures e.Shown() == Slot((if up2date == null then blank else old(up2date.value)) + u.values, u.values.Keys, u.overrun)
      ensures forall x :: x in freeQueue || x in monitorQueue || x in held ==> Holds(x)
      ensures Shown(monitorQueue) == old(Shown(monitorQueue))
    {
      e := TakeFree();
      assert e in old(freeQueue) && Holds(e);
      Fill(e, u);
      ShownSame(monitorQueue);
    }

    /** An update for which there is a free element. */
    method FillFree(u: Update)
      requires Sound() && !overrunInProgress && freeQueue != [] && u.values.Keys <= blank.Keys
      modifies `freeQueue, `monitorQueue, `overrunElement, `overrunInProgress, `up2date, freeQueue
      ensures Sound() && State() == Respond(old(State()), u)
    {
      ghost var c := State();
      var e := TakeAndFill(u);
      Publish(e);
      ghost var d := Respond(c, u);
      assert State().latest == d.latest && State().parked == d.parked;
      assert State().queue == d.queue && State().free == d.free;
    }

    /** Takes in an update; elements the user holds are left alone. */
    method Response(u: Update) returns (notify: bool)
      requires Valid() && u.values.Keys <= blank.Keys
      modifies this, freeQueue, overrunElement
      ensures Valid() && State() == Respond(old(State()), u)
      ensures held == old(held) && forall e :: e in held ==> unchanged(e)
      ensures notify == !overrunInProgress
    {
      if overrunInProgress {
        SquashUpdate(u);
      } else {
        FillFree(u);
      }
      notify := !overrunInProgress;
    }

    method TakeFirst() returns (r: Element)
      requires Sound() && monitorQueue != []
      modifies `monitorQueue, `held
      ensures Sound() && r !in old(held) && held == old(held) + {r} && monitorQueue == old(monitorQueue)[1..]
      ensures r.Shown() == old(Shown(monitorQueue))[0] && Shown(monitorQueue) == old(Shown(monitorQueue))[1..]
    {
      r := monitorQueue[0];
      ShownRest(monitorQueue);
      PopFirst(monitorQueue);
      assert r in monitorQueue && Holds(r);
      monitorQueue := monitorQueue[1..];
      held := held + {r};
    }

    method HandOut() returns (r: Element)
      requires Sound() && monitorQueue != []
      modifies `monitorQueue, `held
      ensures Sound() && r !in old(held) && held == old(held) + {r}
      ensures State() == ClientModel.Poll(old(State())) && r.Shown() == old(State()).queue[0]
    {
      r := TakeFirst();
    }

    method FindNothing() returns (end: bool)
      requires Sound() && monitorQueue == []
      modifies `unlisten
      ensures Sound() && State() == ClientModel.Poll(old(State())) && end == Ends(old(State()), Polled)
    {
      end := unlisten;
      unlisten := false;
    }

    /** Tells the user that the stream is over, or leaves that to the poll that finds nothing. */
    method Unlisten() returns (end: bool)
      requires Valid()
      modifies `unlisten
      ensures Valid() && State() == ClientModel.Unlisten(old(State())) && end == Ends(old(State()), Unlistened)
    {
      end := monitorQueue == [];
      unlisten := !end;
    }

    /** Hands out the oldest queued element, or tells that the stream is over. */
    method Poll() returns (r: Element?, end: bool)
      requires Valid()
      modifies `monitorQueue, `held, `unlisten
      ensures Valid() && State() == ClientModel.Poll(old(State())) && end == Ends(old(State()), Polled)
      ensures r == null <==> old(State()).queue == []
      ensures r != null ==> r.Shown() == old(State()).queue[0] && r !in old(held) && held == old(held) + {r}
    {
      ghost var c := State();
      r, end := null, false;
      if monitorQueue == [] {
        end := FindNothing();
      } else {
        r := HandOut();
      }
      assert Conserved(ClientModel.Poll(c));
    }

    method PushFree(e: Element)
      requires Sound() && e in held
      modifies `freeQueue, `held
      ensures Sound() && held == old(held) - {e} && |freeQueue| == old(|freeQueue|) + 1 && |held| == old(|held|) - 1
    {
      assert held == (held - {e}) + {e} && Holds(e);
      held := held - {e};
      PushLast(freeQueue, e);
      freeQueue := freeQueue + [e];
    }

    /** Queues the overrun element. */
    method Unpark()
      requires Sound()
      modifies `monitorQueue, `overrunElement, `overrunInProgress
      ensures Sound() && overrunElement == null && Shown(monitorQueue) == old(State().queue + Waiting(State()))
    {
      if overrunInProgress {
        PushLast(monitorQueue, overrunElement);
        ShownMore(monitorQueue, overrunElement);
        monitorQueue := monitorQueue + [overrunElement];
        overrunElement := null;
        overrunInProgress := false;
      }
    }

    /** Puts an element back and queues a parked one. */
    method TakeBack(e: Element)
      requires Sound() && e in held
      modifies `freeQueue, `monitorQueue, `overrunElement, `overrunInProgress, `held
      ensures Sound() && held == old(held) - {e}
      ensures old(State()).held > 0 && State() == PutBack(old(State()))
    {
      PushFree(e);
      Unpark();
    }

    /** Counts a release, and says whether an ack has to be sent. */
    method CountRelease(connected: bool) returns (sendAck: bool)
      modifies `releasedCount, `reportInProgress
      ensures sendAck == (connected && pipeline && !old(reportInProgress) && old(releasedCount) + 1 >= ackAny)
      ensures releasedCount == old(releasedCount) + if pipeline then 1 else 0
      ensures reportInProgress == (old(reportInProgress) || sendAck)
    {
      sendAck := false;
      if pipeline {
        releasedCount := releasedCount + 1;
        if !reportInProgress && releasedCount >= ackAny {
          sendAck := true;
          reportInProgress := true;
        }
      }
      if sendAck && !connected {
        // the transport is gone, nothing was scheduled
        reportInProgress := false;
        sendAck := false;
      }
    }

    method RecordRelease(connected: bool) returns (sendAck: bool)
      requires Sound()
      modifies `releasedCount, `reportInProgress
      ensures Sound() && sendAck == (connected && AckDue(old(State())))
      ensures State() == old(State()).(released := old(releasedCount) + if pipeline then 1 else 0,
                                       reporting := old(reportInProgress) || sendAck)
    {
      sendAck := CountRelease(connected);
    }

    method ReleaseHeld(e: Element, connected: bool) returns (sendAck: bool)
      requires Valid() && e in held
      modifies `freeQueue, `monitorQueue, `overrunElement, `overrunInProgress, `held, `releasedCount, `reportInProgress
      ensures Valid() && held == old(held) - {e} && old(State()).held > 0
      ensures State() == ClientModel.Release(old(State()), connected)
      ensures sendAck == (connected && AckDue(old(State())))
    {
      ghost var c := State();
      TakeBack(e);
      sendAck := RecordRelease(connected);
      ReleaseConserved(c, connected);
    }

    /** Takes an element back. Elements of an earlier structure are ignored. */
    method Release(e: Element, connected: bool) returns (sendAck: bool)
      requires Valid() && (e.structure == lastStructure ==> e in held)
      modifies `freeQueue, `monitorQueue, `overrunElement, `overrunInProgress, `held, `releasedCount, `reportInProgress
      ensures Valid()
      ensures e.structure != lastStructure ==> State() == old(State()) && held == old(held) && !sendAck
      ensures e.structure == lastStructure ==> old(State()).held > 0 && held == old(held) - {e}
      ensures e.structure == lastStructure ==> State() == ClientModel.Release(old(State()), connected)
      ensures e.structure == lastStructure ==> sendAck == (connected && AckDue(old(State())))
    {
      if e.structure != lastStructure {
        return false;
      }
      sendAck := ReleaseHeld(e, connected);
    }

    /** Writes the number of elements released since the last ack. */
    method Send() returns (count: nat)
      requires Valid()
      modifies `releasedCount, `reportInProgress
      ensures Valid() && State() == AckSent(old(State())) && count == old(State()).released
    {
      count := releasedCount;
      releasedCount := 0;
      reportInProgress := false;
    }

    /** Moves the queued elements to the free ones. */
    method RecycleQueue()
      modifies `freeQueue, `monitorQueue
      ensures monitorQueue == [] && freeQueue == old(freeQueue + monitorQueue)
      ensures old(Sound()) ==> Sound()
    {
      while monitorQueue != []
        invariant freeQueue + monitorQueue == old(freeQueue + monitorQueue)
        invariant old(Sound()) ==> Sound()
        decreases |monitorQueue|
      {
        ghost var free, queue := freeQueue, monitorQueue;
        var e := monitorQueue[0];
        assert e in monitorQueue;
        if Sound() {
          PopFirst(monitorQueue);
          PushLast(freeQueue, e);
        }
        freeQueue := freeQueue + [e];
        monitorQueue := monitorQueue[1..];
        assert queue == [e] + monitorQueue;
        assert (free + [e]) + monitorQueue == free + ([e] + monitorQueue);
      }
      assert freeQueue + [] == freeQueue;
    }

    /** Moves the overrun element to the free ones. */
    method RecycleOverrun()
      modifies `freeQueue, `overrunElement, `overrunInProgress
      ensures overrunElement == null && !overrunInProgress
      ensures freeQueue == old(freeQueue) + if old(overrunElement) == null then [] else [old(overrunElement)]
      ensures old(Sound()) ==> Sound()
    {
      if overrunElement != null {
        if Sound() {
          PushLast(freeQueue, overrunElement);
        }
        freeQueue := freeQueue + [overrunElement];
        overrunElement := null;
      }
      overrunInProgress := false;
      assert freeQueue + [] == freeQueue;
    }

    /** Recycles everything that was not polled. */
    method Start()
      modifies `freeQueue, `monitorQueue, `overrunElement, `overrunInProgress
      ensures monitorQueue == [] && overrunElement == null && !overrunInProgress
      ensures freeQueue == old(freeQueue + monitorQueue) + if old(overrunElement) == null then [] else [old(overrunElement)]
      ensures old(Valid()) ==> Valid() && State() == Restart(old(State()))
    {
      RecycleQueue();
      RecycleOverrun();
    }

    /** A reconnect with an overrun pending, followed by a start: the element that the next response
        takes is the one left over, of the earlier structure. */
    method TakeLeftOver(structure: nat, blank: Record) returns (e: Element)
      requires queueSize > 1 && overrunInProgress && overrunElement != null
      modifies this
      ensures e == old(overrunElement) && e.structure == old(overrunElement.structure) && lastStructure == structure
      ensures |freeQueue| == queueSize && forall x :: x in freeQueue ==> fresh(x)
    {
      Init(structure, blank);
      ghost var free, left := freeQueue, overrunElement;
      assert free + [] == free;
      Start();
      PushLast(free, left);
      e := TakeFree();
    }
  }
}
