/** Monitor elements: objects that queues recycle and overwrite in place. */
module Elements {
  import opened Updates

  class Element {
    const structure: nat
    var value: Record
    var changed: set<Field>
    var overrun: set<Field>

    constructor (structure: nat, value: Record)
      ensures this.structure == structure && this.value == value && changed == {} && overrun == {}
    {
      this.structure, this.value, changed, overrun := structure, value, {}, {};
    }

    function Shown(): Slot
      reads this
    {
      Slot(value, changed, overrun)
    }
  }

  predicate Distinct<T(==)>(es: seq<T>)
  {
    forall i, j :: 0 <= i < j < |es| ==> es[i] != es[j]
  }

  lemma {:induction false} PopLast<T>(es: seq<T>)
    requires es != [] && Distinct(es)
    ensures Distinct(es[..|es| - 1])
    ensures forall e :: e in es[..|es| - 1] <==> e in es && e != es[|es| - 1]
  {
    forall e | e in es && e != es[|es| - 1]
      ensures e in es[..|es| - 1]
    {
      var i :| 0 <= i < |es| && es[i] == e;
      assert es[..|es| - 1][i] == e;
    }
  }

  lemma {:induction false} PopFirst<T>(es: seq<T>)
    requires es != [] && Distinct(es)
    ensures Distinct(es[1..])
    ensures forall e :: e in es[1..] <==> e in es && e != es[0]
  {
    forall e | e in es && e != es[0]
      ensures e in es[1..]
    {
      var i :| 0 <= i < |es| && es[i] == e;
      assert es[1..][i - 1] == e;
    }
  }

  lemma {:induction false} PushLast<T>(es: seq<T>, e: T)
    requires Distinct(es) && e !in es
    ensures Distinct(es + [e])
    ensures forall x :: x in es + [e] <==> x in es || x == e
  {
  }

  lemma {:induction false} PushFirst<T>(es: seq<T>, e: T)
    requires Distinct(es) && e !in es
    ensures Distinct([e] + es)
    ensures forall x :: x in [e] + es <==> x in es || x == e
  {
  }

  /** Moving elements from the front of one list to the end of another. */
  lemma {:induction false} Splice<T>(a: seq<T>, b: seq<T>, n: nat)
    requires Distinct(a) && Distinct(b) && n <= |b| && forall e :: e in a ==> e !in b
    ensures Distinct(a + b[..n]) && Distinct(b[n..])
    ensures forall e :: e in a + b[..n] ==> e !in b[n..]
    ensures forall e :: e in a + b[..n] || e in b[n..] ==> e in a || e in b
  {
    var c := a + b[..n];
    forall i, j | 0 <= i < j < |c|
      ensures c[i] != c[j]
    {
      if i < |a| <= j {
        assert c[j] == b[j - |a|] && c[j] in b && c[i] in a;
      }
    }
  }

  ghost function Shown(es: seq<Element>): seq<Slot>
    reads es
  {
    seq(|es|, i requires 0 <= i < |es| reads es => es[i].Shown())
  }

  /** Elements that are left alone show the same. */
  twostate lemma {:induction false} ShownSame(es: seq<Element>)
    requires forall e :: e in es ==> unchanged(e)
    ensures Shown(es) == old(Shown(es))
  {
    forall i | 0 <= i < |es|
      ensures Shown(es)[i] == old(Shown(es))[i]
    {
      assert es[i] in es;
    }
  }

  lemma {:induction false} ShownMore(es: seq<Element>, e: Element)
    ensures Shown(es + [e]) == Shown(es) + [e.Shown()]
  {
  }

  lemma {:induction false} ShownRest(es: seq<Element>)
    requires es != []
    ensures Shown(es)[0] == es[0].Shown() && Shown(es)[1..] == Shown(es[1..])
  {
  }
}
