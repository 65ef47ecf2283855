/** Per-destination locks of the transport registry, under any interleaving of threads. */
module Reservation {

  type Thread = nat
  type MutexId = nat

  /** A destination: address family, address, port and priority. */
  datatype Key = Key(family: nat, address: nat, port: nat, priority: int)

  /** Where a thread stands between entering the constructor and leaving the destructor. */
  datatype Phase =
    | Waiting     // refers to the mutex, and is about to lock it
    | Live        // holds the mutex: connecting
    | Unlocked    // has given the mutex back
    | Cleaned     // has looked after the map, and still refers to the mutex

  datatype Ref = Ref(phase: Phase, key: Key, mutex: MutexId)

  datatype Registry = Registry(
    locks: map<Key, MutexId>, refs: map<Thread, Ref>, holder: map<MutexId, Thread>, next: MutexId)

  const EMPTY := Registry(map[], map[], map[], 0)

  function Referring(s: Registry, m: MutexId): set<Thread>
  {
    set t | t in s.refs && s.refs[t].mutex == m
  }

  /** Shared references to a mutex: threads, and the map entry of the key. */
  function UseCount(s: Registry, k: Key, m: MutexId): nat
  {
    |Referring(s, m)| + if k in s.locks && s.locks[k] == m then 1 else 0
  }

  datatype Step = Enter(t: Thread, k: Key) | Lock(t: Thread) | Unlock(t: Thread) | Clean(t: Thread) | Drop(t: Thread)

  predicate At(s: Registry, t: Thread, p: Phase)
  {
    t in s.refs && s.refs[t].phase == p
  }

  predicate Enabled(s: Registry, e: Step)
  {
    match e
    case Enter(t, _) => t !in s.refs
    case Lock(t) => At(s, t, Waiting) && s.refs[t].mutex !in s.holder
    case Unlock(t) => At(s, t, Live)
    case Clean(t) => At(s, t, Unlocked)
    case Drop(t) => At(s, t, Cleaned)
  }

  function Do(s: Registry, e: Step): Registry
    requires Enabled(s, e)
  {
    match e
    case Enter(t, k) =>
      var s := if k in s.locks then s else s.(locks := s.locks[k := s.next], next := s.next + 1);
      s.(refs := s.refs[t := Ref(Waiting, k, s.locks[k])])
    case Lock(t) =>
      s.(refs := s.refs[t := s.refs[t].(phase := Live)], holder := s.holder[s.refs[t].mutex := t])
    case Unlock(t) =>
      s.(refs := s.refs[t := s.refs[t].(phase := Unlocked)], holder := s.holder - {s.refs[t].mutex})
    case Clean(t) =>
      var r := s.refs[t];
      var s' := s.(refs := s.refs[t := r.(phase := Cleaned)]);
      if UseCount(s, r.key, r.mutex) == 2 then s'.(locks := s.locks - {r.key}) else s'
    case Drop(t) => s.(refs := s.refs - {t})
  }

  /** The thread may still lock its mutex, holds it, or has yet to look after the map. */
  predicate Concerned(r: Ref)
  {
    !r.phase.Cleaned?
  }

  ghost predicate Inv(s: Registry)
  {
    && (forall t :: t in s.refs && Concerned(s.refs[t]) ==>
          s.refs[t].key in s.locks && s.locks[s.refs[t].key] == s.refs[t].mutex)
    && (forall k :: k in s.locks ==> s.locks[k] < s.next)
    && (forall t :: t in s.refs ==> s.refs[t].mutex < s.next)
    && (forall k, l :: k in s.locks && l in s.locks && s.locks[k] == s.locks[l] ==> k == l)
    && (forall t :: At(s, t, Live) ==> s.refs[t].mutex in s.holder && s.holder[s.refs[t].mutex] == t)
    && (forall m :: m in s.holder ==> At(s, s.holder[m], Live) && s.refs[s.holder[m]].mutex == m)
  }

  /** A map entry is erased only if nobody else refers to its mutex. */
  lemma {:induction false} AloneIfErased(s: Registry, t: Thread, u: Thread)
    requires Inv(s) && At(s, t, Unlocked) && u in s.refs && u != t && s.refs[u].mutex == s.refs[t].mutex
    ensures UseCount(s, s.refs[t].key, s.refs[t].mutex) > 2
  {
    var m := s.refs[t].mutex;
    assert {t, u} <= Referring(s, m);
    SubsetSize({t, u}, Referring(s, m));
  }

  lemma {:induction false} SubsetSize(a: set<Thread>, b: set<Thread>)
    requires a <= b
    ensures |a| <= |b|
  {
    if a != {} {
      var x :| x in a;
      SubsetSize(a - {x}, b - {x});
    }
  }

  lemma {:induction false} CleanInv(s: Registry, t: Thread)
    requires Inv(s) && At(s, t, Unlocked)
    ensures Inv(Do(s, Clean(t)))
  {
    var s', r := Do(s, Clean(t)), s.refs[t];
    forall u | u in s'.refs && Concerned(s'.refs[u])
      ensures s'.refs[u].key in s'.locks && s'.locks[s'.refs[u].key] == s'.refs[u].mutex
    {
      assert s.refs[u] == s'.refs[u];
      if s.refs[u].key == r.key {
        AloneIfErased(s, t, u);
      }
    }
  }

  lemma {:induction false} EnterKnown(s: Registry, t: Thread, k: Key)
    requires Inv(s) && Enabled(s, Enter(t, k)) && k in s.locks
    ensures Inv(Do(s, Enter(t, k)))
  {
  }

  lemma {:induction false} EnterNew(s: Registry, t: Thread, k: Key)
    requires Inv(s) && Enabled(s, Enter(t, k)) && k !in s.locks
    ensures Inv(Do(s, Enter(t, k)))
  {
    var s' := Do(s, Enter(t, k));
    forall u | u in s'.refs && Concerned(s'.refs[u])
      ensures s'.refs[u].key in s'.locks && s'.locks[s'.refs[u].key] == s'.refs[u].mutex
    {
      assert u != t ==> s'.refs[u] == s.refs[u];
    }
  }

  lemma {:induction false} EnterInv(s: Registry, t: Thread, k: Key)
    requires Inv(s) && Enabled(s, Enter(t, k))
    ensures Inv(Do(s, Enter(t, k)))
  {
    if k in s.locks {
      EnterKnown(s, t, k);
    } else {
      EnterNew(s, t, k);
    }
  }

  lemma {:induction false} LockInv(s: Registry, t: Thread)
    requires Inv(s) && Enabled(s, Lock(t))
    ensures Inv(Do(s, Lock(t)))
  {
  }

  lemma {:induction false} UnlockInv(s: Registry, t: Thread)
    requires Inv(s) && Enabled(s, Unlock(t))
    ensures Inv(Do(s, Unlock(t)))
  {
  }

  lemma {:induction false} DropInv(s: Registry, t: Thread)
    requires Inv(s) && Enabled(s, Drop(t))
    ensures Inv(Do(s, Drop(t)))
  {
  }

  /** Every step of every thread keeps the locks straight. */
  lemma {:induction false} StepInv(s: Registry, e: Step)
    requires Inv(s) && Enabled(s, e)
    ensures Inv(Do(s, e))
  {
    match e
    case Enter(t, k) => EnterInv(s, t, k);
    case Lock(t) => LockInv(s, t);
    case Unlock(t) => UnlockInv(s, t);
    case Clean(t) => CleanInv(s, t);
    case Drop(t) => DropInv(s, t);
  }

  /** The steps lead from `s` to `u`, each possible where it happens. */
  predicate Leads(s: Registry, es: seq<Step>, u: Registry)
    decreases |es|
  {
    if es == [] then s == u else Enabled(s, es[0]) && Leads(Do(s, es[0]), es[1..], u)
  }

  lemma {:induction false} RunInv(s: Registry, es: seq<Step>, u: Registry)
    requires Inv(s) && Leads(s, es, u)
    ensures Inv(u)
    decreases |es|
  {
    if es != [] {
      StepInv(s, es[0]);
      RunInv(Do(s, es[0]), es[1..], u);
    }
  }

  /** Two threads that wait or connect for one destination. */
  predicate Rivals(s: Registry, t: Thread, u: Thread)
  {
    && t in s.refs && u in s.refs && s.refs[t].key == s.refs[u].key
    && Concerned(s.refs[t]) && Concerned(s.refs[u])
  }

  /** Under every interleaving: a live reservation's mutex is the one in the map; all threads
      that wait or connect for one destination share it; at most one of them connects; and a
      mutex that is to be unlocked is referred to by the map besides its thread. */
  lemma {:induction false} EveryInterleaving(es: seq<Step>, s: Registry)
    requires Leads(EMPTY, es, s)
    ensures forall t :: t in s.refs && Concerned(s.refs[t]) ==>
              s.refs[t].key in s.locks && s.locks[s.refs[t].key] == s.refs[t].mutex
    ensures forall t, u :: Rivals(s, t, u) ==> s.refs[t].mutex == s.refs[u].mutex
    ensures forall t, u :: Rivals(s, t, u) && At(s, t, Live) && At(s, u, Live) ==> t == u
    ensures forall t :: At(s, t, Unlocked) ==> UseCount(s, s.refs[t].key, s.refs[t].mutex) >= 2
  {
    RunInv(EMPTY, es, s);
    forall t | At(s, t, Unlocked)
      ensures UseCount(s, s.refs[t].key, s.refs[t].mutex) >= 2
    {
      assert {t} <= Referring(s, s.refs[t].mutex);
      SubsetSize({t}, Referring(s, s.refs[t].mutex));
    }
  }

  /** After cleaning, the thread's reference is the only one left exactly if no other thread
      refers to the mutex: the final check of the destructor fails under contention. */
  lemma {:induction false} LastReference(s: Registry, t: Thread)
    requires Inv(s) && At(s, t, Unlocked)
    ensures var r := s.refs[t];
            UseCount(Do(s, Clean(t)), r.key, r.mutex) == 1
            <==> forall u :: u in s.refs && u != t ==> s.refs[u].mutex != r.mutex
  {
    var r, s' := s.refs[t], Do(s, Clean(t));
    assert Referring(s', r.mutex) == Referring(s, r.mutex);
    if forall u :: u in s.refs && u != t ==> s.refs[u].mutex != r.mutex {
      assert Referring(s, r.mutex) == {t};
    } else {
      var u :| u in s.refs && u != t && s.refs[u].mutex == r.mutex;
      AloneIfErased(s, t, u);
    }
  }

  /** A mutex in the map that no thread will look after any more. */
  ghost predicate Orphan(s: Registry, k: Key)
  {
    k in s.locks && forall t :: t in s.refs && s.refs[t].mutex == s.locks[k] ==> s.refs[t].phase.Cleaned?
  }

  /** The step is a clean-up that leaves the entry to threads which are past theirs. */
  ghost predicate Strands(s: Registry, e: Step, k: Key)
    requires Enabled(s, e)
  {
    && e.Clean? && s.refs[e.t].key == k
    && (exists u :: u in s.refs && u != e.t && s.refs[u].mutex == s.refs[e.t].mutex)
    && (forall u :: u in s.refs && u != e.t && s.refs[u].mutex == s.refs[e.t].mutex ==> s.refs[u].phase.Cleaned?)
  }

  lemma {:induction false} ErasedIfAlone(s: Registry, t: Thread)
    requires Inv(s) && At(s, t, Unlocked)
    requires forall u :: u in s.refs && u != t ==> s.refs[u].mutex != s.refs[t].mutex
    ensures Do(s, Clean(t)).locks == s.locks - {s.refs[t].key}
  {
    assert Referring(s, s.refs[t].mutex) == {t};
  }

  lemma {:induction false} CleanOrphans(s: Registry, t: Thread, k: Key)
    requires Inv(s) && At(s, t, Unlocked) && !Orphan(s, k)
    ensures Orphan(Do(s, Clean(t)), k) <==> Strands(s, Clean(t), k)
  {
    var s', r := Do(s, Clean(t)), s.refs[t];
    if Strands(s, Clean(t), k) {
      var u :| u in s.refs && u != t && s.refs[u].mutex == r.mutex;
      AloneIfErased(s, t, u);
    } else if Orphan(s', k) {
      var u :| u in s.refs && s.refs[u].mutex == s.locks[k] && !s.refs[u].phase.Cleaned?;
      assert s'.refs[u].phase.Cleaned? && u == t;
      assert forall v :: v in s.refs && v != t ==> s'.refs[v] == s.refs[v];
      if forall v :: v in s.refs && v != t ==> s.refs[v].mutex != r.mutex {
        ErasedIfAlone(s, t);
        assert false;
      }
    }
  }

  /** When a mutex is left over: exactly when a thread cleans up while others still refer to
      the mutex and all of them have already cleaned up. */
  lemma {:induction false} OrphanedBy(s: Registry, e: Step, k: Key)
    requires Inv(s) && Enabled(s, e) && !Orphan(s, k)
    ensures Orphan(Do(s, e), k) <==> Strands(s, e, k)
  {
    var s' := Do(s, e);
    if e.Clean? {
      CleanOrphans(s, e.t, k);
    } else if k in s.locks {
      var u :| u in s.refs && s.refs[u].mutex == s.locks[k] && !s.refs[u].phase.Cleaned?;
      assert u in s'.refs && s'.refs[u].mutex == s'.locks[k] && !s'.refs[u].phase.Cleaned?;
    } else if k in s'.locks {
      assert s'.refs[e.t].mutex == s'.locks[k];
    }
  }

  /** A mutex left over stays until a thread reserves its destination again. */
  lemma {:induction false} OrphanStays(s: Registry, e: Step, k: Key)
    requires Inv(s) && Enabled(s, e) && Orphan(s, k)
    ensures Orphan(Do(s, e), k) <==> !(e.Enter? && e.k == k)
  {
    var s' := Do(s, e);
    if e.Enter? && e.k == k {
      assert s'.refs[e.t].mutex == s'.locks[k] && s'.refs[e.t].phase.Waiting?;
    } else {
      assert e.Clean? ==> s.refs[e.t].mutex != s.locks[k];
      forall u | u in s'.refs && s'.refs[u].mutex == s'.locks[k]
        ensures s'.refs[u].phase.Cleaned?
      {
        assert u in s.refs && s.refs[u].mutex == s.locks[k];
      }
    }
  }

  predicate Untouched(es: seq<Step>, k: Key)
  {
    forall i :: 0 <= i < |es| ==> !(es[i].Enter? && es[i].k == k)
  }

  /** Some clean-up of the run strands the entry, and nobody enters for it afterwards. */
  ghost predicate StrandedIn(s: Registry, es: seq<Step>, u: Registry, k: Key)
    requires Leads(s, es, u)
    decreases |es|
  {
    es != [] && ((Strands(s, es[0], k) && Untouched(es[1..], k)) || StrandedIn(Do(s, es[0]), es[1..], u, k))
  }

  lemma {:induction false} UntouchedFirst(es: seq<Step>, k: Key)
    requires es != []
    ensures Untouched(es, k) <==> !(es[0].Enter? && es[0].k == k) && Untouched(es[1..], k)
  {
    if Untouched(es[1..], k) {
      forall i | 0 < i < |es|
        ensures !(es[i].Enter? && es[i].k == k)
      {
        assert es[i] == es[1..][i - 1];
      }
    }
  }

  /** Over a whole run: what is left over at its end. */
  lemma {:induction false} OrphansOfRun(s: Registry, es: seq<Step>, u: Registry, k: Key)
    requires Inv(s) && Leads(s, es, u)
    ensures Orphan(u, k) <==> (Orphan(s, k) && Untouched(es, k)) || StrandedIn(s, es, u, k)
    decreases |es|
  {
    if es != [] {
      var e, s' := es[0], Do(s, es[0]);
      StepInv(s, e);
      OrphansOfRun(s', es[1..], u, k);
      UntouchedFirst(es, k);
      if Orphan(s, k) {
        OrphanStays(s, e, k);
      } else {
        OrphanedBy(s, e, k);
      }
    }
  }

  /** When all reservations are gone, an entry is left over exactly if some clean-up stranded it. */
  lemma {:induction false} LeftOverExactly(es: seq<Step>, s: Registry, k: Key)
    requires Leads(EMPTY, es, s) && s.refs == map[]
    ensures k in s.locks <==> StrandedIn(EMPTY, es, s, k)
  {
    OrphansOfRun(EMPTY, es, s, k);
  }

  /** Two threads whose destructors overlap: the final check of the first one fails. */
  lemma {:induction false} FinalCheckFails(k: Key) returns (es: seq<Step>, s: Registry)
    ensures Leads(EMPTY, es, s) && At(s, 0, Unlocked)
    ensures UseCount(Do(s, Clean(0)), k, s.refs[0].mutex) == 3
  {
    var s1 := Do(EMPTY, Enter(0, k));
    var s2 := Do(s1, Lock(0));
    var s3 := Do(s2, Enter(1, k));
    s := Do(s3, Unlock(0));
    assert Referring(s, 0) == {0, 1};
    assert Referring(Do(s, Clean(0)), 0) == {0, 1};
    es := [];
    es := Prepend(s3, s, Unlock(0), es);
    es := Prepend(s2, s, Enter(1, k), es);
    es := Prepend(s1, s, Lock(0), es);
    es := Prepend(EMPTY, s, Enter(0, k), es);
  }

  /** The next reservation of the destination, if it meets no other one, clears the entry. */
  lemma {:induction false} NextUseErases(s: Registry, k: Key, t: Thread) returns (u: Registry)
    requires Inv(s) && s.refs == map[] && k in s.locks
    ensures Leads(s, [Enter(t, k), Lock(t), Unlock(t), Clean(t), Drop(t)], u)
    ensures u.refs == map[] && u.locks == s.locks - {k}
  {
    var m := s.locks[k];
    var s1 := Do(s, Enter(t, k));
    var s2 := Do(s1, Lock(t));
    var s3 := Do(s2, Unlock(t));
    assert Referring(s3, m) == {t};
    var s4 := Do(s3, Clean(t));
    u := Do(s4, Drop(t));
    var es := Prepend(s4, u, Drop(t), []);
    es := Prepend(s3, u, Clean(t), es);
    es := Prepend(s2, u, Unlock(t), es);
    es := Prepend(s1, u, Lock(t), es);
    es := Prepend(s, u, Enter(t, k), es);
    assert es == [Enter(t, k), Lock(t), Unlock(t), Clean(t), Drop(t)];
  }

  /** Two threads whose destructors overlap may leave a mutex in the map that nobody refers to. */
  lemma {:induction false} LeftOver(k: Key) returns (es: seq<Step>, s: Registry)
    ensures Leads(EMPTY, es, s) && s.refs == map[] && k in s.locks
  {
    var s1 := Do(EMPTY, Enter(0, k));
    var s2 := Do(s1, Lock(0));
    var s3 := Do(s2, Enter(1, k));
    var s4 := Do(s3, Unlock(0));
    assert Referring(s4, 0) == {0, 1};
    var s5 := Do(s4, Clean(0));
    var s6 := Do(s5, Lock(1));
    var s7 := Do(s6, Unlock(1));
    assert Referring(s7, 0) == {0, 1};
    var s8 := Do(s7, Clean(1));
    var s9 := Do(s8, Drop(0));
    s := Do(s9, Drop(1));
    assert s.refs == map[];
    es := [];
    es := Prepend(s9, s, Drop(1), es);
    es := Prepend(s8, s, Drop(0), es);
    es := Prepend(s7, s, Clean(1), es);
    es := Prepend(s6, s, Unlock(1), es);
    es := Prepend(s5, s, Lock(1), es);
    es := Prepend(s4, s, Clean(0), es);
    es := Prepend(s3, s, Unlock(0), es);
    es := Prepend(s2, s, Enter(1, k), es);
    es := Prepend(s1, s, Lock(0), es);
    es := Prepend(EMPTY, s, Enter(0, k), es);
  }

  lemma {:induction false} Prepend(s: Registry, u: Registry, e: Step, es: seq<Step>) returns (es': seq<Step>)
    requires Enabled(s, e) && Leads(Do(s, e), es, u)
    ensures es' == [e] + es && Leads(s, es', u)
  {
    es' := [e] + es;
    assert es'[1..] == es;
  }
}
