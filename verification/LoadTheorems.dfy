/** What the pass loop guarantees, for every table order and every row order. */
module LoadTheorems {
  import opened Common
  import opened LoadLoop

  // ---------- starting points ----------

  /** The loop at its start; the tables done there are the merge tables. */
  ghost predicate Starts(lp: Loop) { lp == Begin(lp.st.dst, lp.done, lp.st.copied) }

  /** One entry per table. */
  ghost predicate Named(work: seq<Table>) {
    forall i, j | 0 <= i < j < |work| :: work[i].name != work[j].name
  }

  /** A table the loop has to copy. */
  predicate Todo(work: seq<Table>, lp0: Loop, i: int) { 0 <= i < |work| && work[i].name !in lp0.done }

  // ---------- single rows ----------

  /** Copied, absorbed or copied earlier: one of the row's keys is held. */
  predicate Settled(t: Table, r: Row, dst: set<Key>) { KeysOf(t, r) * dst != {} }

  /** Nothing but a taken key can keep the row out. */
  predicate Loadable(maps: Maps, t: Table, r: Row, dst: set<Key>) {
    && !t.absent && r.valid && Needs(maps, r, |r.deps|).Some?
    && Needs(maps, r, |r.deps|).value <= dst + KeysOf(t, r)
  }

  /** More rows at the destination never turn a success into a failure. */
  lemma AttemptMonotone(maps: Maps, t: Table, r: Row, a: set<Key>, b: set<Key>)
    requires a <= b && !Attempt(maps, t, r, a).Fail?
    ensures !Attempt(maps, t, r, b).Fail?
  {
    if KeysOf(t, r) * a != {} {
      var x :| x in KeysOf(t, r) * a;
      assert x in KeysOf(t, r) * b;
    }
  }

  lemma AddIsLoadable(maps: Maps, t: Table, r: Row, dst: set<Key>)
    ensures Attempt(maps, t, r, dst).Add? <==> Loadable(maps, t, r, dst) && !Settled(t, r, dst)
    ensures Loadable(maps, t, r, dst) ==> !Attempt(maps, t, r, dst).Fail?
  {
  }

  lemma OwnKey(t: Table, r: Row)
    ensures Ref(t.name, r.pk) in KeysOf(t, r)
  {
  }

  lemma SettledGrows(t: Table, r: Row, a: set<Key>, b: set<Key>)
    requires a <= b && Settled(t, r, a)
    ensures Settled(t, r, b)
  {
    var x :| x in KeysOf(t, r) * a;
    assert x in KeysOf(t, r) * b;
  }

  lemma RowSettles(maps: Maps, t: Table, r: Row, s: St)
    requires !Attempt(maps, t, r, s.dst).Fail?
    ensures Settled(t, r, RowStep(maps, t, r, s).dst)
  {
    OwnKey(t, r);
    if Attempt(maps, t, r, s.dst).Add? {
      assert Ref(t.name, r.pk) in KeysOf(t, r) * (s.dst + KeysOf(t, r));
    }
  }

  // ---------- one sweep ----------

  lemma {:induction false} SweepGrows(maps: Maps, t: Table, m: nat, n: nat, s: St)
    requires m <= n <= |t.rows|
    ensures Sweep(maps, t, m, s).dst <= Sweep(maps, t, n, s).dst
    ensures Sweep(maps, t, m, s).skips <= Sweep(maps, t, n, s).skips
    decreases n - m
  {
    if m < n { SweepGrows(maps, t, m, n - 1, s); }
  }

  /** A row that could load before the sweep is settled after it. */
  lemma SweepLoads(maps: Maps, t: Table, j: nat, s: St, base: set<Key>)
    requires j < |t.rows| && base <= s.dst && !Attempt(maps, t, t.rows[j], base).Fail?
    ensures Settled(t, t.rows[j], SweepAll(maps, t, s).dst)
  {
    SweepGrows(maps, t, 0, j, s);
    AttemptMonotone(maps, t, t.rows[j], base, Sweep(maps, t, j, s).dst);
    RowSettles(maps, t, t.rows[j], Sweep(maps, t, j, s));
    SweepGrows(maps, t, j + 1, |t.rows|, s);
    SettledGrows(t, t.rows[j], Sweep(maps, t, j + 1, s).dst, SweepAll(maps, t, s).dst);
  }

  /** A sweep that skips nothing leaves every row of the table settled and loadable as it is. */
  lemma SweepComplete(maps: Maps, t: Table, j: nat, s: St)
    requires j < |t.rows| && Skipped(maps, t, s) == 0
    ensures Settled(t, t.rows[j], SweepAll(maps, t, s).dst)
    ensures !Attempt(maps, t, t.rows[j], SweepAll(maps, t, s).dst).Fail?
  {
    CountersGrow(maps, t, j, s);
    SweepGrows(maps, t, j + 1, |t.rows|, s);
    SweepGrows(maps, t, j, |t.rows|, s);
    var before, after := Sweep(maps, t, j, s), SweepAll(maps, t, s);
    assert !Attempt(maps, t, t.rows[j], before.dst).Fail?;
    AttemptMonotone(maps, t, t.rows[j], before.dst, after.dst);
    RowSettles(maps, t, t.rows[j], before);
    SettledGrows(t, t.rows[j], Sweep(maps, t, j + 1, s).dst, after.dst);
  }

  // ---------- complete and closed destinations ----------

  /** No row is left that would still be added. */
  ghost predicate Complete(maps: Maps, work: seq<Table>, lp0: Loop, dst: set<Key>) {
    forall i, j | Todo(work, lp0, i) && 0 <= j < |work[i].rows| :: !Attempt(maps, work[i], work[i].rows[j], dst).Add?
  }

  /** Rows whose references are in the set have their keys in it too. */
  ghost predicate Closed(maps: Maps, work: seq<Table>, lp0: Loop, all: set<Key>) {
    forall i, j | Todo(work, lp0, i) && 0 <= j < |work[i].rows| && Loadable(maps, work[i], work[i].rows[j], all) ::
      KeysOf(work[i], work[i].rows[j]) <= all
  }

  lemma ClosedIsComplete(maps: Maps, work: seq<Table>, lp0: Loop, all: set<Key>)
    requires Closed(maps, work, lp0, all)
    ensures Complete(maps, work, lp0, all)
  {
    forall i, j | Todo(work, lp0, i) && 0 <= j < |work[i].rows|
      ensures !Attempt(maps, work[i], work[i].rows[j], all).Add?
    {
      AddIsLoadable(maps, work[i], work[i].rows[j], all);
      OwnKey(work[i], work[i].rows[j]);
      if KeysOf(work[i], work[i].rows[j]) <= all {
        assert Ref(work[i].name, work[i].rows[j].pk) in KeysOf(work[i], work[i].rows[j]) * all;
      }
    }
  }

  /** A sweep stays inside every closed set it starts in. */
  lemma {:induction false} SweepWithin(maps: Maps, work: seq<Table>, lp0: Loop, i: nat, n: nat, s: St, all: set<Key>)
    requires Todo(work, lp0, i) && n <= |work[i].rows| && s.dst <= all && Closed(maps, work, lp0, all)
    ensures Sweep(maps, work[i], n, s).dst <= all
  {
    if n > 0 {
      SweepWithin(maps, work, lp0, i, n - 1, s, all);
      AddIsLoadable(maps, work[i], work[i].rows[n - 1], Sweep(maps, work[i], n - 1, s).dst);
    }
  }

  /** Nothing is added to a complete destination. */
  lemma {:induction false} SweepStays(maps: Maps, work: seq<Table>, lp0: Loop, i: nat, n: nat, s: St)
    requires Todo(work, lp0, i) && n <= |work[i].rows| && Complete(maps, work, lp0, s.dst)
    ensures Sweep(maps, work[i], n, s).dst == s.dst
  {
    if n > 0 { SweepStays(maps, work, lp0, i, n - 1, s); }
  }

  // ---------- one pass ----------

  ghost predicate AllSettled(maps: Maps, t: Table, dst: set<Key>) {
    forall j | 0 <= j < |t.rows| :: Settled(t, t.rows[j], dst) && !Attempt(maps, t, t.rows[j], dst).Fail?
  }

  /** Tables marked done by the loop are entirely settled. */
  ghost predicate DoneOk(maps: Maps, work: seq<Table>, lp0: Loop, lp: Loop) {
    lp0.done <= lp.done &&
    forall i | Todo(work, lp0, i) && work[i].name in lp.done :: AllSettled(maps, work[i], lp.st.dst)
  }

  lemma AllSettledGrows(maps: Maps, t: Table, a: set<Key>, b: set<Key>)
    requires AllSettled(maps, t, a) && a <= b
    ensures AllSettled(maps, t, b)
  {
    forall j | 0 <= j < |t.rows|
      ensures Settled(t, t.rows[j], b) && !Attempt(maps, t, t.rows[j], b).Fail?
    {
      SettledGrows(t, t.rows[j], a, b);
      AttemptMonotone(maps, t, t.rows[j], a, b);
    }
  }

  lemma StepDone(maps: Maps, work: seq<Table>, lp0: Loop, i: nat, lp: Loop)
    requires Named(work) && i < |work| && DoneOk(maps, work, lp0, lp)
    ensures var lp' := TableStep(maps, work[i], lp);
            DoneOk(maps, work, lp0, lp') && lp.st.dst <= lp'.st.dst && lp.done <= lp'.done
  {
    var lp' := TableStep(maps, work[i], lp);
    SweepGrows(maps, work[i], 0, |work[i].rows|, lp.st);
    forall h | Todo(work, lp0, h) && work[h].name in lp'.done
      ensures AllSettled(maps, work[h], lp'.st.dst)
    {
      if work[h].name in lp.done {
        AllSettledGrows(maps, work[h], lp.st.dst, lp'.st.dst);
      } else {
        forall j | 0 <= j < |work[i].rows|
          ensures Settled(work[i], work[i].rows[j], lp'.st.dst)
                  && !Attempt(maps, work[i], work[i].rows[j], lp'.st.dst).Fail?
        {
          SweepComplete(maps, work[i], j, lp.st);
        }
      }
    }
  }

  lemma {:induction false} PassDone(maps: Maps, work: seq<Table>, lp0: Loop, n: nat, lp: Loop)
    requires Named(work) && n <= |work| && DoneOk(maps, work, lp0, lp)
    ensures DoneOk(maps, work, lp0, PassOver(maps, work, n, lp))
    ensures lp.st.dst <= PassOver(maps, work, n, lp).st.dst
    ensures lp.done <= PassOver(maps, work, n, lp).done
  {
    if n > 0 {
      PassDone(maps, work, lp0, n - 1, lp);
      StepDone(maps, work, lp0, n - 1, PassOver(maps, work, n - 1, lp));
    }
  }

  lemma {:induction false} PassesDone(maps: Maps, work: seq<Table>, lp0: Loop, k: nat)
    requires Named(work)
    ensures DoneOk(maps, work, lp0, Passes(maps, work, lp0, k))
  {
    if k > 0 {
      PassesDone(maps, work, lp0, k - 1);
      PassDone(maps, work, lp0, |work|, Passes(maps, work, lp0, k - 1));
    }
  }

  /** A row that could load from `start` is settled once its own table has had its turn. */
  lemma StepLoads(maps: Maps, work: seq<Table>, lp0: Loop, i: nat, j: nat, lp: Loop, start: set<Key>)
    requires Todo(work, lp0, i) && j < |work[i].rows| && DoneOk(maps, work, lp0, lp)
    requires start <= lp.st.dst && !Attempt(maps, work[i], work[i].rows[j], start).Fail?
    ensures Settled(work[i], work[i].rows[j], TableStep(maps, work[i], lp).st.dst)
  {
    if work[i].name in lp.done {
      assert AllSettled(maps, work[i], lp.st.dst);
    } else {
      SweepLoads(maps, work[i], j, lp.st, start);
    }
  }

  /** Within a pass, a row that could load at its start is settled at its end. */
  lemma {:induction false} PassLoads(maps: Maps, work: seq<Table>, lp0: Loop, n: nat, lp: Loop, i: nat, j: nat)
    requires Named(work) && DoneOk(maps, work, lp0, lp) && Todo(work, lp0, i)
    requires i < n <= |work| && j < |work[i].rows| && !Attempt(maps, work[i], work[i].rows[j], lp.st.dst).Fail?
    ensures Settled(work[i], work[i].rows[j], PassOver(maps, work, n, lp).st.dst)
  {
    var before := PassOver(maps, work, n - 1, lp);
    PassDone(maps, work, lp0, n - 1, lp);
    if i < n - 1 {
      PassLoads(maps, work, lp0, n - 1, lp, i, j);
      SweepGrows(maps, work[n - 1], 0, |work[n - 1].rows|, before.st);
      SettledGrows(work[i], work[i].rows[j], before.st.dst, PassOver(maps, work, n, lp).st.dst);
    } else {
      StepLoads(maps, work, lp0, i, j, before, lp.st.dst);
    }
  }

  lemma {:induction false} PassStays(maps: Maps, work: seq<Table>, lp0: Loop, n: nat, lp: Loop)
    requires Named(work) && n <= |work| && lp0.done <= lp.done && Complete(maps, work, lp0, lp.st.dst)
    ensures PassOver(maps, work, n, lp).st.dst == lp.st.dst && lp0.done <= PassOver(maps, work, n, lp).done
  {
    if n > 0 {
      PassStays(maps, work, lp0, n - 1, lp);
      var before := PassOver(maps, work, n - 1, lp);
      if work[n - 1].name !in before.done {
        SweepStays(maps, work, lp0, n - 1, |work[n - 1].rows|, before.st);
      }
    }
  }

  lemma {:induction false} PassWithin(maps: Maps, work: seq<Table>, lp0: Loop, n: nat, lp: Loop, all: set<Key>)
    requires n <= |work| && lp0.done <= lp.done && lp.st.dst <= all && Closed(maps, work, lp0, all)
    ensures PassOver(maps, work, n, lp).st.dst <= all && lp0.done <= PassOver(maps, work, n, lp).done
  {
    if n > 0 {
      PassWithin(maps, work, lp0, n - 1, lp, all);
      var before := PassOver(maps, work, n - 1, lp);
      if work[n - 1].name !in before.done {
        SweepWithin(maps, work, lp0, n - 1, |work[n - 1].rows|, before.st, all);
      }
    }
  }

  // ---------- rows that share no key ----------

  /** No other row to be copied, and no row already there, holds one of the row's keys. */
  ghost predicate Unshared(work: seq<Table>, lp0: Loop, i: nat, j: nat)
    requires i < |work| && j < |work[i].rows|
  {
    && KeysOf(work[i], work[i].rows[j]) !! lp0.st.dst
    && forall i', j' | Todo(work, lp0, i') && 0 <= j' < |work[i'].rows| && (i', j') != (i, j) ::
         KeysOf(work[i'], work[i'].rows[j']) !! KeysOf(work[i], work[i].rows[j])
  }

  /** All keys or none. */
  ghost predicate Whole(keys: set<Key>, dst: set<Key>) { keys <= dst || keys !! dst }

  lemma {:induction false} SweepWhole(maps: Maps, work: seq<Table>, lp0: Loop, h: nat, n: nat, s: St, i: nat, j: nat)
    requires Todo(work, lp0, h) && n <= |work[h].rows| && i < |work| && j < |work[i].rows|
    requires Unshared(work, lp0, i, j) && Whole(KeysOf(work[i], work[i].rows[j]), s.dst)
    ensures Whole(KeysOf(work[i], work[i].rows[j]), Sweep(maps, work[h], n, s).dst)
  {
    if n > 0 {
      SweepWhole(maps, work, lp0, h, n - 1, s, i, j);
      if (h, n - 1) != (i, j) {
        assert KeysOf(work[h], work[h].rows[n - 1]) !! KeysOf(work[i], work[i].rows[j]);
      }
    }
  }

  lemma {:induction false} PassWhole(maps: Maps, work: seq<Table>, lp0: Loop, n: nat, lp: Loop, i: nat, j: nat)
    requires n <= |work| && i < |work| && j < |work[i].rows| && lp0.done <= lp.done
    requires Unshared(work, lp0, i, j) && Whole(KeysOf(work[i], work[i].rows[j]), lp.st.dst)
    ensures Whole(KeysOf(work[i], work[i].rows[j]), PassOver(maps, work, n, lp).st.dst)
    ensures lp0.done <= PassOver(maps, work, n, lp).done
  {
    if n > 0 {
      PassWhole(maps, work, lp0, n - 1, lp, i, j);
      var before := PassOver(maps, work, n - 1, lp);
      if work[n - 1].name !in before.done {
        SweepWhole(maps, work, lp0, n - 1, |work[n - 1].rows|, before.st, i, j);
      }
    }
  }

  lemma {:induction false} PassesWhole(maps: Maps, work: seq<Table>, lp0: Loop, k: nat, i: nat, j: nat)
    requires i < |work| && j < |work[i].rows| && Unshared(work, lp0, i, j)
    ensures Whole(KeysOf(work[i], work[i].rows[j]), Passes(maps, work, lp0, k).st.dst)
    ensures lp0.done <= Passes(maps, work, lp0, k).done
  {
    if k > 0 {
      PassesWhole(maps, work, lp0, k - 1, i, j);
      PassWhole(maps, work, lp0, |work|, Passes(maps, work, lp0, k - 1), i, j);
    }
  }

  // ---------- what is loaded, whatever the order ----------

  /** Keys of the unshared rows whose references are all met by `base`. */
  ghost function Ready(maps: Maps, work: seq<Table>, lp0: Loop, base: set<Key>): set<Key> {
    set i, j, x | 0 <= i < |work| && Todo(work, lp0, i) && 0 <= j < |work[i].rows| && Unshared(work, lp0, i, j)
                  && Loadable(maps, work[i], work[i].rows[j], base) && x in KeysOf(work[i], work[i].rows[j]) :: x
  }

  /** Keys held at the start or reachable through at most n levels of references. */
  ghost function Rank(maps: Maps, work: seq<Table>, lp0: Loop, n: nat): set<Key> {
    if n == 0 then lp0.st.dst else NextRank(maps, work, lp0, Rank(maps, work, lp0, n - 1))
  }

  ghost function NextRank(maps: Maps, work: seq<Table>, lp0: Loop, base: set<Key>): (next: set<Key>)
    ensures base <= next
  {
    base + Ready(maps, work, lp0, base)
  }

  /** An unshared row whose references are met before a pass has all its keys held after it. */
  lemma ReadyLoads(maps: Maps, work: seq<Table>, lp0: Loop, k: nat, i: nat, j: nat, base: set<Key>)
    requires Named(work) && Todo(work, lp0, i) && j < |work[i].rows| && Unshared(work, lp0, i, j)
    requires base <= Passes(maps, work, lp0, k).st.dst && Loadable(maps, work[i], work[i].rows[j], base)
    ensures KeysOf(work[i], work[i].rows[j]) <= Passes(maps, work, lp0, k + 1).st.dst
  {
    var lp := Passes(maps, work, lp0, k);
    PassesDone(maps, work, lp0, k);
    AddIsLoadable(maps, work[i], work[i].rows[j], lp.st.dst);
    PassLoads(maps, work, lp0, |work|, lp, i, j);
    PassesWhole(maps, work, lp0, k + 1, i, j);
  }

  lemma ReadyAllLoad(maps: Maps, work: seq<Table>, lp0: Loop, k: nat, m: nat, base: set<Key>)
    requires Named(work) && m == k + 1 && base <= Passes(maps, work, lp0, k).st.dst
    ensures Ready(maps, work, lp0, base) <= Passes(maps, work, lp0, m).st.dst
  {
    forall x | x in Ready(maps, work, lp0, base)
      ensures x in Passes(maps, work, lp0, m).st.dst
    {
      var i, j :| Todo(work, lp0, i) && 0 <= j < |work[i].rows| && Unshared(work, lp0, i, j)
                  && Loadable(maps, work[i], work[i].rows[j], base) && x in KeysOf(work[i], work[i].rows[j]);
      ReadyLoads(maps, work, lp0, k, i, j, base);
    }
  }

  lemma PassGrows(maps: Maps, work: seq<Table>, lp0: Loop, k: nat, m: nat)
    requires Named(work) && m == k + 1
    ensures Passes(maps, work, lp0, k).st.dst <= Passes(maps, work, lp0, m).st.dst
  {
    PassesDone(maps, work, lp0, k);
    PassDone(maps, work, lp0, |work|, Passes(maps, work, lp0, k));
  }

  lemma {:induction false} PassesGrow(maps: Maps, work: seq<Table>, lp0: Loop, m: nat, k: nat)
    requires Named(work) && m <= k
    ensures Passes(maps, work, lp0, m).st.dst <= Passes(maps, work, lp0, k).st.dst
    decreases k - m
  {
    if m < k {
      PassesGrow(maps, work, lp0, m, k - 1);
      PassGrows(maps, work, lp0, k - 1, k);
    }
  }

  lemma NextRankLoads(maps: Maps, work: seq<Table>, lp0: Loop, k: nat, m: nat, base: set<Key>)
    requires Named(work) && m == k + 1 && base <= Passes(maps, work, lp0, k).st.dst
    ensures NextRank(maps, work, lp0, base) <= Passes(maps, work, lp0, m).st.dst
  {
    PassGrows(maps, work, lp0, k, m);
    ReadyAllLoad(maps, work, lp0, k, m, base);
  }

  /**
   * After k executed passes, every unshared row of rank at most k is at the destination,
   * whatever the order of tables and rows.
   */
  lemma {:induction false} RankLoaded(maps: Maps, work: seq<Table>, lp0: Loop, k: nat)
    requires Named(work)
    ensures Rank(maps, work, lp0, k) <= Passes(maps, work, lp0, k).st.dst
  {
    if k > 0 {
      RankLoaded(maps, work, lp0, k - 1);
      NextRankLoads(maps, work, lp0, k - 1, k, Rank(maps, work, lp0, k - 1));
    }
  }

  /** Nothing unreachable appears: the destination stays inside every closed set that holds the initial keys. */
  lemma {:induction false} OnlyReachableLoaded(maps: Maps, work: seq<Table>, lp0: Loop, k: nat, all: set<Key>)
    requires lp0.st.dst <= all && Closed(maps, work, lp0, all)
    ensures Passes(maps, work, lp0, k).st.dst <= all && lp0.done <= Passes(maps, work, lp0, k).done
  {
    if k > 0 {
      OnlyReachableLoaded(maps, work, lp0, k - 1, all);
      PassWithin(maps, work, lp0, |work|, Passes(maps, work, lp0, k - 1), all);
    }
  }

  // ---------- when the loop loads everything ----------

  /** A pass adds nothing exactly when the destination was complete before it. */
  lemma IdlePassExactly(maps: Maps, work: seq<Table>, lp0: Loop, k: nat)
    requires Named(work)
    ensures var lp := Passes(maps, work, lp0, k);
            Complete(maps, work, lp0, lp.st.dst) <==> Pass(maps, work, lp).st.dst == lp.st.dst
  {
    var lp := Passes(maps, work, lp0, k);
    PassesDone(maps, work, lp0, k);
    if Complete(maps, work, lp0, lp.st.dst) {
      PassStays(maps, work, lp0, |work|, lp);
    } else {
      var i, j :| Todo(work, lp0, i) && 0 <= j < |work[i].rows| && Attempt(maps, work[i], work[i].rows[j], lp.st.dst).Add?;
      PassLoads(maps, work, lp0, |work|, lp, i, j);
      AddIsLoadable(maps, work[i], work[i].rows[j], lp.st.dst);
    }
  }

  lemma {:induction false} CompleteStays(maps: Maps, work: seq<Table>, lp0: Loop, j: nat, k: nat)
    requires Named(work) && j <= k && Complete(maps, work, lp0, Passes(maps, work, lp0, j).st.dst)
    ensures Passes(maps, work, lp0, k).st.dst == Passes(maps, work, lp0, j).st.dst
    decreases k - j
  {
    if j < k {
      CompleteStays(maps, work, lp0, j, k - 1);
      PassesDone(maps, work, lp0, k - 1);
      PassStays(maps, work, lp0, |work|, Passes(maps, work, lp0, k - 1));
    }
  }

  ghost predicate CompleteBeforeStop(maps: Maps, work: seq<Table>, lp0: Loop, f: nat) {
    && Complete(maps, work, lp0, Passes(maps, work, lp0, f).st.dst)
    && forall j | 1 <= j < f :: !Stops(Passes(maps, work, lp0, j))
  }

  /** The executed loop leaves nothing loadable behind exactly when some pass state before its stop is complete. */
  lemma CompleteBeforeStopExactly(maps: Maps, work: seq<Table>, lp0: Loop, maxPasses: nat, k: nat)
    requires Named(work) && Executed(maps, work, lp0, maxPasses, k)
    ensures Complete(maps, work, lp0, Passes(maps, work, lp0, k).st.dst)
            <==> exists f: nat :: f <= maxPasses && CompleteBeforeStop(maps, work, lp0, f)
  {
    if Complete(maps, work, lp0, Passes(maps, work, lp0, k).st.dst) {
      assert CompleteBeforeStop(maps, work, lp0, k);
    }
    if f: nat :| f <= maxPasses && CompleteBeforeStop(maps, work, lp0, f) {
      CompleteStays(maps, work, lp0, f, k);
    }
  }

  // ---------- shallow data always loads, deeper data may not ----------

  lemma {:induction false} NothingCopied(maps: Maps, t: Table, n: nat, s: St)
    requires n <= |t.rows| && Sweep(maps, t, n, s).copied == s.copied
    ensures Sweep(maps, t, n, s).dst == s.dst
  {
    if n > 0 {
      CountersGrow(maps, t, n - 1, s);
      NothingCopied(maps, t, n - 1, s);
    }
  }

  /** What the flags of a first pass tell. */
  lemma {:induction false} FirstPassFlags(maps: Maps, work: seq<Table>, n: nat, lp: Loop)
    requires Named(work) && n <= |work| && lp.prev == map[]
    ensures var at := PassOver(maps, work, n, lp);
            && (at.allDone ==> forall i | 0 <= i < n :: work[i].name in at.done)
            && (!at.progress ==> at.st.dst == lp.st.dst)
            && (forall i | n <= i < |work| :: work[i].name !in at.prev)
  {
    if n > 0 {
      FirstPassFlags(maps, work, n - 1, lp);
      var t, before := work[n - 1], PassOver(maps, work, n - 1, lp);
      if t.name !in before.done && Copied(maps, t, before.st) == 0 {
        NothingCopied(maps, t, |t.rows|, before.st);
      }
    }
  }

  lemma AllDoneIsComplete(maps: Maps, work: seq<Table>, lp0: Loop, lp: Loop)
    requires DoneOk(maps, work, lp0, lp) && forall i | 0 <= i < |work| :: work[i].name in lp.done
    ensures Complete(maps, work, lp0, lp.st.dst)
  {
    forall i, j | Todo(work, lp0, i) && 0 <= j < |work[i].rows|
      ensures !Attempt(maps, work[i], work[i].rows[j], lp.st.dst).Add?
    {
      assert AllSettled(maps, work[i], lp.st.dst);
      AddIsLoadable(maps, work[i], work[i].rows[j], lp.st.dst);
    }
  }

  /** Every rank holds what was there at the start. */
  lemma {:induction false} StartIsRanked(maps: Maps, work: seq<Table>, lp0: Loop, n: nat)
    ensures lp0.st.dst <= Rank(maps, work, lp0, n)
  {
    if n > 0 {
      StartIsRanked(maps, work, lp0, n - 1);
      assert Rank(maps, work, lp0, n - 1) <= NextRank(maps, work, lp0, Rank(maps, work, lp0, n - 1));
    }
  }

  /** A rank that is closed is the destination from then on. */
  lemma DeepEnoughLoads(maps: Maps, work: seq<Table>, lp0: Loop, m: nat, k: nat, all: set<Key>)
    requires Named(work) && m <= k && all == Rank(maps, work, lp0, m) && Closed(maps, work, lp0, all)
    ensures all == Passes(maps, work, lp0, k).st.dst
  {
    StartIsRanked(maps, work, lp0, m);
    RankLoaded(maps, work, lp0, m);
    PassesGrow(maps, work, lp0, m, k);
    OnlyReachableLoaded(maps, work, lp0, k, all);
  }

  /** When m levels of references reach everything, everything is there from pass m on. */
  lemma DeepEnough(maps: Maps, work: seq<Table>, lp0: Loop, m: nat, k: nat)
    requires Named(work) && m <= k && Closed(maps, work, lp0, Rank(maps, work, lp0, m))
    ensures Complete(maps, work, lp0, Passes(maps, work, lp0, k).st.dst)
  {
    var all := Rank(maps, work, lp0, m);
    DeepEnoughLoads(maps, work, lp0, m, k, all);
    ClosedIsComplete(maps, work, lp0, all);
  }

  /** A loop that stops after its first pass has nothing left to load. */
  lemma StopAfterFirst(maps: Maps, work: seq<Table>, lp0: Loop)
    requires Named(work) && lp0.prev == map[] && Stops(Passes(maps, work, lp0, 1))
    ensures Complete(maps, work, lp0, Passes(maps, work, lp0, 1).st.dst)
  {
    assert Passes(maps, work, lp0, 0) == lp0 && Passes(maps, work, lp0, 1) == Pass(maps, work, lp0);
    PassesDone(maps, work, lp0, 1);
    FirstPassFlags(maps, work, |work|, lp0);
    if Pass(maps, work, lp0).allDone {
      AllDoneIsComplete(maps, work, lp0, Pass(maps, work, lp0));
    } else {
      IdlePassExactly(maps, work, lp0, 0);
    }
  }

  /** When two levels of references reach everything, the loop loads everything, in any order. */
  lemma ShallowDataLoads(maps: Maps, work: seq<Table>, lp0: Loop, maxPasses: nat, k: nat)
    requires Named(work) && lp0.prev == map[] && Executed(maps, work, lp0, maxPasses, k) && maxPasses >= 2
    requires Closed(maps, work, lp0, Rank(maps, work, lp0, 2))
    ensures Complete(maps, work, lp0, Passes(maps, work, lp0, k).st.dst)
  {
    if k >= 2 {
      DeepEnough(maps, work, lp0, 2, k);
    } else {
      StopAfterFirst(maps, work, lp0);
    }
  }

  /** Three levels in one self-referencing table, children first. */
  function ChildRow(pk: string, parent: set<Key>): Row { Row(pk, {}, [], [], parent, true) }

  function ChainTable(): Table {
    Table("t", false, [ChildRow("c", {Ref("t", "b")}), ChildRow("b", {Ref("t", "a")}), ChildRow("a", {})])
  }

  lemma ChildAttempt(t: Table, r: Row, dst: set<Key>)
    requires r == ChildRow(r.pk, r.fks) && !t.absent
    ensures KeysOf(t, r) == {Ref(t.name, r.pk)}
    ensures Attempt(map[], t, r, dst) ==
            if Ref(t.name, r.pk) in dst then Absorb else if r.fks <= dst + {Ref(t.name, r.pk)} then Add else Fail
  {
    assert Needs(map[], r, 0) == Some(r.fks);
    if Ref(t.name, r.pk) in dst { assert Ref(t.name, r.pk) in KeysOf(t, r) * dst; }
  }

  /** One pass over the chain when `a`, and then `b`, are present. */
  lemma ChainSweep(s: St)
    requires s.dst == {} || s.dst == {Ref("t", "a")}
    ensures var s' := SweepAll(map[], ChainTable(), s);
            && s'.dst == s.dst + {if s.dst == {} then Ref("t", "a") else Ref("t", "b")}
            && s'.copied == s.copied + 1 && s'.skips > s.skips
  {
    var t := ChainTable();
    var a, b, c := Ref("t", "a"), Ref("t", "b"), Ref("t", "c");
    var s1 := RowStep(map[], t, t.rows[0], s);
    assert Sweep(map[], t, 0, s) == s && Sweep(map[], t, 1, s) == s1;
    ChildAttempt(t, t.rows[0], s.dst);
    assert Attempt(map[], t, t.rows[0], s.dst).Fail? by { assert b in {b} && b !in s.dst + {c}; }
    var s2 := RowStep(map[], t, t.rows[1], s1);
    assert Sweep(map[], t, 2, s) == s2;
    ChildAttempt(t, t.rows[1], s.dst);
    if s.dst == {} {
      assert Attempt(map[], t, t.rows[1], s.dst).Fail? by { assert a in {a} && a !in s.dst + {b}; }
    } else {
      assert Attempt(map[], t, t.rows[1], s.dst).Add?;
    }
    ChildAttempt(t, t.rows[2], s2.dst);
    assert SweepAll(map[], t, s) == RowStep(map[], t, t.rows[2], s2);
  }

  lemma ChainPass(lp: Loop)
    requires lp.done == {} && (lp.st.dst == {} || lp.st.dst == {Ref("t", "a")})
    ensures var lp' := Pass(map[], [ChainTable()], lp);
            && lp'.st.dst == lp.st.dst + {if lp.st.dst == {} then Ref("t", "a") else Ref("t", "b")}
            && lp'.done == {} && PrevOf(lp', "t") == 1 && (Stops(lp') <==> PrevOf(lp, "t") >= 1)
  {
    var at := lp.(progress := false, allDone := true);
    assert PassOver(map[], [ChainTable()], 0, lp) == at;
    ChainSweep(at.st);
    assert Pass(map[], [ChainTable()], lp) == TableStep(map[], ChainTable(), at);
  }

  /** With two levels present, the third row is the one still to come. */
  lemma ChainIncomplete(lp0: Loop)
    requires lp0.done == {}
    ensures !Complete(map[], [ChainTable()], lp0, {Ref("t", "a"), Ref("t", "b")})
  {
    var t, dst := ChainTable(), {Ref("t", "a"), Ref("t", "b")};
    ChildAttempt(t, t.rows[0], dst);
    assert Todo([t], lp0, 0) && Attempt(map[], [t][0], [t][0].rows[0], dst).Add?;
  }

  /**
   * A loadable row the loop leaves behind: two passes land one row each, the second delta is
   * no larger than the first, and the loop stops before the third row's turn.
   */
  lemma StopsWhileRowsLand()
    ensures var work, lp0 := [ChainTable()], Begin({}, {}, 0);
            && Executed(map[], work, lp0, 12, 2)
            && Ref("t", "c") !in Passes(map[], work, lp0, 2).st.dst
            && !Complete(map[], work, lp0, Passes(map[], work, lp0, 2).st.dst)
  {
    var work, lp0 := [ChainTable()], Begin({}, {}, 0);
    var a, b := Ref("t", "a"), Ref("t", "b");
    ChainPass(lp0);
    var lp1 := Pass(map[], work, lp0);
    ChainPass(lp1);
    var lp2 := Pass(map[], work, lp1);
    assert Passes(map[], work, lp0, 0) == lp0 && Passes(map[], work, lp0, 1) == lp1 && Passes(map[], work, lp0, 2) == lp2;
    assert lp2.st.dst == {a, b};
    ChainIncomplete(lp0);
  }
}
