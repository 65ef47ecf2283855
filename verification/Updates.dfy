/** Monitor updates: which fields change to what, and how successive updates combine. */
module Updates {

  datatype Option<+T> = None | Some(value: T)

  type Field = nat

  /** Stands for whatever a field of the structure holds. */
  type Value = int

  type Record = map<Field, Value>

  /** The changed fields with their new values, and the fields flagged as overrun. */
  datatype Update = Update(values: Record, overrun: set<Field>)

  /** What a monitor element shows: the whole structure, and the changed and overrun fields. */
  datatype Slot = Slot(value: Record, changed: set<Field>, overrun: set<Field>)

  function Apply(r: Record, u: Update): Record
  {
    r + u.values
  }

  /** Applies updates in order. */
  function Fold(r: Record, us: seq<Update>): Record
  {
    if us == [] then r else Apply(Fold(r, us[..|us| - 1]), us[|us| - 1])
  }

  /** One update that stands for two: fields changed by both are overrun. */
  function Merge(a: Update, b: Update): Update
  {
    Update(a.values + b.values, a.overrun + a.values.Keys * b.values.Keys + b.overrun)
  }

  function MergeAll(us: seq<Update>): Update
    requires us != []
  {
    if |us| == 1 then us[0] else Merge(MergeAll(us[..|us| - 1]), us[|us| - 1])
  }

  lemma {:induction false} FoldMore(r: Record, us: seq<Update>, u: Update)
    ensures Fold(r, us + [u]) == Apply(Fold(r, us), u)
  {
    assert (us + [u])[..|us|] == us;
  }

  lemma {:induction false} MergeMore(us: seq<Update>, u: Update)
    requires us != []
    ensures MergeAll(us + [u]) == Merge(MergeAll(us), u)
  {
    assert (us + [u])[..|us|] == us;
  }

  /** Merging keeps the effect: the merged update does at once what all of them do in order. */
  lemma {:induction false} MergeKeepsEffect(r: Record, us: seq<Update>)
    requires us != []
    ensures Apply(r, MergeAll(us)) == Fold(r, us)
  {
    var n := |us| - 1;
    if n == 0 {
      assert us[..0] == [];
    } else {
      MergeKeepsEffect(r, us[..n]);
      var a, b := MergeAll(us[..n]).values, us[n].values;
      assert r + (a + b) == (r + a) + b;
    }
  }

  lemma {:induction false} FoldConcat(r: Record, a: seq<Update>, b: seq<Update>)
    ensures Fold(r, a + b) == Fold(Fold(r, a), b)
  {
    if b == [] {
      assert a + b == a;
    } else {
      var n := |b| - 1;
      FoldConcat(r, a, b[..n]);
      assert (a + b)[..|a + b| - 1] == a + b[..n];
    }
  }

  ghost predicate ChangedBy(f: Field, us: seq<Update>)
  {
    exists i :: 0 <= i < |us| && f in us[i].values
  }

  ghost predicate FlaggedBy(f: Field, us: seq<Update>)
  {
    exists i :: 0 <= i < |us| && f in us[i].overrun
  }

  ghost predicate ChangedTwice(f: Field, us: seq<Update>)
  {
    exists i, j :: 0 <= i < j < |us| && f in us[i].values && f in us[j].values
  }

  /** What the bits of a merged update mean: a field is changed if some update changes it,
      and overrun exactly if two of them change it or one of them carries the flag. */
  lemma {:induction false} MergedBits(f: Field, us: seq<Update>)
    requires us != []
    ensures f in MergeAll(us).values <==> ChangedBy(f, us)
    ensures f in MergeAll(us).overrun <==> ChangedTwice(f, us) || FlaggedBy(f, us)
  {
    var n := |us| - 1;
    if n > 0 {
      var init := us[..n];
      MergedBits(f, init);
      assert us == init + [us[n]];
      BitsMore(f, init, us[n]);
    } else {
      assert f in us[0].values ==> ChangedBy(f, us);
      assert f in us[0].overrun ==> FlaggedBy(f, us);
    }
  }

  lemma {:induction false} BitsMore(f: Field, us: seq<Update>, u: Update)
    ensures ChangedBy(f, us + [u]) <==> ChangedBy(f, us) || f in u.values
    ensures FlaggedBy(f, us + [u]) <==> FlaggedBy(f, us) || f in u.overrun
    ensures ChangedTwice(f, us + [u]) <==> ChangedTwice(f, us) || (ChangedBy(f, us) && f in u.values)
  {
    var all := us + [u];
    assert forall i :: 0 <= i < |us| ==> all[i] == us[i];
    assert all[|us|] == u;
    if ChangedBy(f, us) {
      var i :| 0 <= i < |us| && f in us[i].values;
      assert f in all[i].values;
    }
    if FlaggedBy(f, us) {
      var i :| 0 <= i < |us| && f in us[i].overrun;
      assert f in all[i].overrun;
    }
    if ChangedTwice(f, us) {
      var i, j :| 0 <= i < j < |us| && f in us[i].values && f in us[j].values;
      assert f in all[i].values && f in all[j].values;
    }
  }
}
