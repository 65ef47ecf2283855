/** The server's pipeline monitor with its queues and flags updated in place. */
module PipelineServer {
  import opened Updates
  import opened PipelineModel
  import Elements

  class Element {
    var update: Update

    constructor (update: Update)
      ensures this.update == update
    {
      this.update := update;
    }
  }

  class PipelineMonitor {
    const queueSize: nat
    var freeQueue: seq<Element>
    var monitorQueue: seq<Element>
    var requestedCount: nat
    var active: bool
    var isDone: bool
    var unlistenReported: bool
    // the elements the session fills, and the elements polled and not released
    ghost var session: set<Element>
    ghost var out: set<Element>

    ghost function Filled(es: seq<Element>): seq<Update>
      reads es
    {
      seq(|es|, i requires 0 <= i < |es| reads es => es[i].update)
    }

    ghost function State(): Server
      reads this, monitorQueue
    {
      Server(queueSize, |freeQueue|, Filled(monitorQueue), |session|, |out|,
             requestedCount, active, isDone, unlistenReported)
    }

    /** Every element is in one place: free, with the session, queued or polled. */
    ghost predicate Valid()
      reads this
    {
      && Elements.Distinct(freeQueue) && Elements.Distinct(monitorQueue) && session !! out
      && (forall e :: e in freeQueue ==> e !in monitorQueue && e !in session && e !in out)
      && (forall e :: e in monitorQueue ==> e !in session && e !in out)
      && |freeQueue| + |monitorQueue| + |session| + |out| == queueSize
    }

    constructor (queueSize: nat, blank: Update)
      ensures Valid() && State() == Fresh(queueSize) && fresh(freeQueue) && session == out == {}
    {
      this.queueSize := queueSize;
      freeQueue, monitorQueue, requestedCount := [], [], 0;
      active, isDone, unlistenReported := false, false, false;
      session, out := {}, {};
      new;
      while |freeQueue| < queueSize
        invariant |freeQueue| <= queueSize && fresh(freeQueue) && Elements.Distinct(freeQueue)
        invariant monitorQueue == [] && session == out == {}
        invariant State() == Fresh(queueSize).(free := |freeQueue|)
      {
        var e := new Element(blank);
        freeQueue := freeQueue + [e];
      }
    }

    /** Starts handing out; tells whether there is something to poll. */
    method Start() returns (notify: bool)
      requires Valid()
      modifies `active
      ensures Valid() && State() == Step(old(State()), Event.Start).server
      ensures notify == Notifies(old(State()), Event.Start) == (!old(active) && monitorQueue != [])
    {
      if active {
        return false;
      }
      active := true;
      notify := |monitorQueue| != 0;
    }

    method Stop()
      requires Valid()
      modifies `active
      ensures Valid() && State() == Step(old(State()), Event.Stop).server
    {
      active := false;
    }

    /** Hands out an element if the client has asked for one; may report the end. */
    method Poll() returns (element: Element?, unlisten: bool)
      requires Valid()
      modifies `monitorQueue, `requestedCount, `unlistenReported, `out
      ensures Valid() && State() == PipelineModel.Poll(old(State())).server
      ensures unlisten == PipelineModel.Poll(old(State())).unlisten
      ensures PipelineModel.Poll(old(State())).element == if element == null then None else Some(element.update)
      ensures out == if element == null then old(out) else old(out) + {element}
      ensures element != null ==> old(monitorQueue) == [element] + monitorQueue
    {
      unlisten := false;
      var emptyQueue := monitorQueue == [];
      if emptyQueue || requestedCount == 0 || !active {
        if !unlistenReported && isDone && emptyQueue {
          unlistenReported := true;
          unlisten := true;
        }
        return null, unlisten;
      }
      element := monitorQueue[0];
      assert Filled(monitorQueue)[1..] == Filled(monitorQueue[1..]);
      Elements.PopFirst(monitorQueue);
      monitorQueue := monitorQueue[1..];
      requestedCount := requestedCount - 1;
      out := out + {element};
    }

    method Release(e: Element)
      requires Valid() && e in out
      modifies `freeQueue, `out
      ensures Valid() && State() == PipelineModel.Release(old(State()))
      ensures out == old(out) - {e} && freeQueue == old(freeQueue) + [e]
    {
      Elements.PushLast(freeQueue, e);
      freeQueue := freeQueue + [e];
      out := out - {e};
    }

    method ReportRemoteQueueStatus(count: nat) returns (notify: bool)
      requires Valid()
      modifies `requestedCount
      ensures Valid() && State() == Report(old(State()), count)
      ensures notify == Notifies(old(State()), Reporting(count)) == (active && monitorQueue != [])
    {
      requestedCount := requestedCount + count;
      notify := active && |monitorQueue| != 0;
    }

    method GetFreeElement() returns (e: Element?)
      requires Valid()
      modifies `freeQueue, `session
      ensures Valid() && State() == GetFree(old(State()))
      ensures e == null <==> old(freeQueue) == []
      ensures e != null ==> old(freeQueue) == freeQueue + [e] && session == old(session) + {e}
    {
      if freeQueue == [] {
        return null;
      }
      Elements.PopLast(freeQueue);
      e := freeQueue[|freeQueue| - 1];
      freeQueue := freeQueue[..|freeQueue| - 1];
      session := session + {e};
    }

    /** The session writes an element it has, and no element that is queued or handed out changes. */
    method Fill(e: Element, u: Update)
      requires Valid() && e in session
      modifies e
      ensures Valid() && State() == old(State()) && e.update == u
      ensures forall x :: x in monitorQueue || x in out ==> x.update == old(x.update)
    {
      e.update := u;
      assert forall i :: 0 <= i < |monitorQueue| ==> monitorQueue[i] in monitorQueue;
    }

    /** Queues an element of the session, which may not write it from then on. */
    method PutElement(e: Element) returns (notify: bool)
      requires Valid() && e in session
      modifies `monitorQueue, `session
      ensures Valid() && State() == Put(old(State()), e.update)
      ensures monitorQueue == if isDone then old(monitorQueue) else old(monitorQueue) + [e]
      ensures session == if isDone then old(session) else old(session) - {e}
      ensures notify == Notifies(old(State()), Putting(e.update)) == (!isDone && requestedCount != 0)
    {
      if isDone {
        return false;
      }
      Elements.PushLast(monitorQueue, e);
      assert Filled(monitorQueue + [e]) == Filled(monitorQueue) + [e.update];
      monitorQueue := monitorQueue + [e];
      session := session - {e};
      notify := requestedCount != 0;
    }

    method Done() returns (unlisten: bool)
      requires Valid()
      modifies `isDone, `unlistenReported
      ensures Valid() && State() == PipelineModel.Done(old(State())) && unlisten == EndsNow(old(State()))
    {
      isDone := true;
      unlisten := !unlistenReported && monitorQueue == [];
      if unlisten {
        unlistenReported := true;
      }
    }

    method Destroy() returns (cancel: bool)
      requires Valid()
      modifies `active, `isDone
      ensures Valid() && State() == PipelineModel.Destroy(old(State())) && cancel == !old(isDone)
    {
      active := false;
      cancel := !isDone;
      isDone := true;
    }
  }
}
