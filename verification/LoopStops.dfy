/** When the pass loop goes on, in terms of the rows that landed rather than of its flags. */
module LoopStops {
  import opened LoadLoop
  import opened LoadTheorems

  /** Rows of one table at the destination, by primary key. */
  function Of(dst: set<Key>, name: string): set<Key> { set x | x in dst && x.Ref? && x.table == name }

  function Held(dst: set<Key>, name: string): nat { |Of(dst, name)| }

  // ---------- the counters are growth ----------

  lemma RowHeld(maps: Maps, t: Table, r: Row, s: St, name: string)
    ensures var s' := RowStep(maps, t, r, s);
            Held(s'.dst, name) == Held(s.dst, name) + if name == t.name then s'.copied - s.copied else 0
  {
    OwnKey(t, r);
    assert Of(s.dst + KeysOf(t, r), name) == Of(s.dst, name) + if name == t.name then {Ref(t.name, r.pk)} else {};
    if Ref(t.name, r.pk) in s.dst { assert Ref(t.name, r.pk) in KeysOf(t, r) * s.dst; }
  }

  lemma {:induction false} SweepHeld(maps: Maps, t: Table, n: nat, s: St, name: string)
    requires n <= |t.rows|
    ensures var s' := Sweep(maps, t, n, s);
            Held(s'.dst, name) == Held(s.dst, name) + if name == t.name then s'.copied - s.copied else 0
  {
    if n > 0 {
      SweepHeld(maps, t, n - 1, s, name);
      RowHeld(maps, t, t.rows[n - 1], Sweep(maps, t, n - 1, s), name);
    }
  }

  // ---------- one pass ----------

  /** Rows of a table that a stretch of the run added. */
  function Landed(from: Loop, to: Loop, name: string): int { Held(to.st.dst, name) - Held(from.st.dst, name) }

  /** In the pass from lp to at, this table was finished or landed more rows than the pass before. */
  predicate Advances(lp: Loop, at: Loop, name: string) {
    name !in lp.done && (name in at.done || Landed(lp, at, name) > PrevOf(lp, name))
  }

  /** A table already visited in this pass. */
  predicate Visited(lp: Loop, at: Loop, name: string) {
    name !in lp.done && name !in at.done ==> name in at.prev && at.prev[name] == Landed(lp, at, name)
  }

  /** A table not visited yet. */
  predicate Ahead(lp: Loop, at: Loop, name: string) {
    (name in at.done <==> name in lp.done) && PrevOf(at, name) == PrevOf(lp, name) && Landed(lp, at, name) == 0
  }

  ghost predicate Flags(work: seq<Table>, n: nat, lp: Loop, at: Loop)
    requires n <= |work|
  {
    && (at.progress <==> exists i :: 0 <= i < n && Advances(lp, at, work[i].name))
    && (at.allDone <==> forall i | 0 <= i < n :: work[i].name in at.done)
    && lp.done <= at.done
  }

  ghost predicate Traced(work: seq<Table>, n: nat, lp: Loop, at: Loop)
    requires n <= |work|
  {
    && (forall i | 0 <= i < n :: Visited(lp, at, work[i].name))
    && (forall i | n <= i < |work| :: Ahead(lp, at, work[i].name))
  }

  /** What one table's turn does to any table. */
  lemma TurnOf(maps: Maps, t: Table, lp: Loop, at: Loop, name: string)
    ensures var at' := TableStep(maps, t, at);
            && (name != t.name ==> Landed(lp, at', name) == Landed(lp, at, name)
                                   && (name in at'.done <==> name in at.done) && PrevOf(at', name) == PrevOf(at, name)
                                   && (name in at'.prev <==> name in at.prev))
            && (t.name !in at.done ==> Landed(lp, at', t.name) == Landed(lp, at, t.name) + Copied(maps, t, at.st))
  {
    if t.name !in at.done {
      SweepHeld(maps, t, |t.rows|, at.st, name);
      SweepHeld(maps, t, |t.rows|, at.st, t.name);
    }
  }

  lemma TurnTraced(maps: Maps, work: seq<Table>, n: nat, lp: Loop, at: Loop)
    requires Named(work) && n < |work| && Traced(work, n, lp, at)
    ensures Traced(work, n + 1, lp, TableStep(maps, work[n], at))
  {
    var at' := TableStep(maps, work[n], at);
    assert Ahead(lp, at, work[n].name);
    forall i | 0 <= i < |work|
      ensures i <= n ==> Visited(lp, at', work[i].name)
      ensures i > n ==> Ahead(lp, at', work[i].name)
    {
      TurnOf(maps, work[n], lp, at, work[i].name);
      if i < n { assert Visited(lp, at, work[i].name); }
      if i > n { assert Ahead(lp, at, work[i].name); }
    }
  }

  lemma TurnFlags(maps: Maps, work: seq<Table>, n: nat, lp: Loop, at: Loop)
    requires Named(work) && n < |work| && Flags(work, n, lp, at) && Ahead(lp, at, work[n].name)
    ensures Flags(work, n + 1, lp, TableStep(maps, work[n], at))
  {
    var at', name := TableStep(maps, work[n], at), work[n].name;
    TurnOf(maps, work[n], lp, at, name);
    forall i | 0 <= i < n
      ensures Advances(lp, at', work[i].name) <==> Advances(lp, at, work[i].name)
      ensures work[i].name in at'.done <==> work[i].name in at.done
    {
      TurnOf(maps, work[n], lp, at, work[i].name);
    }
    assert at'.progress <==> at.progress || Advances(lp, at', name);
    if at.progress {
      var i :| 0 <= i < n && Advances(lp, at, work[i].name);
      assert Advances(lp, at', work[i].name);
    }
  }

  ghost predicate Follows(work: seq<Table>, n: nat, lp: Loop, at: Loop)
    requires n <= |work|
  {
    Flags(work, n, lp, at) && Traced(work, n, lp, at)
  }

  lemma TurnFollows(maps: Maps, work: seq<Table>, n: nat, m: nat, lp: Loop, at: Loop, at': Loop)
    requires Named(work) && n < |work| && m == n + 1 && Follows(work, n, lp, at) && at' == TableStep(maps, work[n], at)
    ensures Follows(work, m, lp, at')
  {
    assert Ahead(lp, at, work[n].name);
    TurnFlags(maps, work, n, lp, at);
    TurnTraced(maps, work, n, lp, at);
  }

  lemma {:induction false} PassFlags(maps: Maps, work: seq<Table>, n: nat, lp: Loop)
    requires Named(work) && n <= |work|
    ensures Follows(work, n, lp, PassOver(maps, work, n, lp))
  {
    if n > 0 {
      PassFlags(maps, work, n - 1, lp);
      TurnFollows(maps, work, n - 1, n, lp, PassOver(maps, work, n - 1, lp), PassOver(maps, work, n, lp));
    }
  }

  // ---------- the loop ----------

  /** Rows of a table that pass j adds; none before the first pass. */
  function LandedIn(maps: Maps, work: seq<Table>, lp: Loop, j: nat, name: string): int {
    if j == 0 then 0 else Landed(Passes(maps, work, lp, j - 1), Passes(maps, work, lp, j), name)
  }

  /** For a table not done, the remembered count is what the last pass added. */
  lemma {:induction false} PrevIsLanded(maps: Maps, work: seq<Table>, lp0: Loop, j: nat, i: nat)
    requires Named(work) && lp0.prev == map[] && i < |work|
    ensures var lp := Passes(maps, work, lp0, j);
            work[i].name !in lp.done ==> PrevOf(lp, work[i].name) == LandedIn(maps, work, lp0, j, work[i].name)
  {
    if j > 0 {
      var before := Passes(maps, work, lp0, j - 1);
      PassFlags(maps, work, |work|, before);
      assert Visited(before, Pass(maps, work, before), work[i].name);
    }
  }

  /** Pass j finished a table, or landed more rows of some unfinished table than the pass before it. */
  ghost predicate Gains(maps: Maps, work: seq<Table>, lp: Loop, j: nat)
    requires j >= 1
  {
    exists i :: 0 <= i < |work| && GainsAt(maps, work, lp, j, work[i].name)
  }

  predicate GainsAt(maps: Maps, work: seq<Table>, lp: Loop, j: nat, name: string)
    requires j >= 1
  {
    && name !in Passes(maps, work, lp, j - 1).done
    && (name in Passes(maps, work, lp, j).done
        || LandedIn(maps, work, lp, j, name) > LandedIn(maps, work, lp, j - 1, name))
  }

  ghost predicate AllFinished(work: seq<Table>, lp: Loop) {
    forall i | 0 <= i < |work| :: work[i].name in lp.done
  }

  /** The loop goes on after pass j exactly while some table is unfinished and pass j gained. */
  lemma LoopGoesOnExactly(maps: Maps, work: seq<Table>, lp0: Loop, j: nat)
    requires Named(work) && lp0.prev == map[] && j >= 1
    ensures !Stops(Passes(maps, work, lp0, j)) <==>
              !AllFinished(work, Passes(maps, work, lp0, j)) && Gains(maps, work, lp0, j)
  {
    var before, after := Passes(maps, work, lp0, j - 1), Passes(maps, work, lp0, j);
    PassFlags(maps, work, |work|, before);
    forall i | 0 <= i < |work|
      ensures Advances(before, after, work[i].name) <==> GainsAt(maps, work, lp0, j, work[i].name)
    {
      PrevIsLanded(maps, work, lp0, j - 1, i);
    }
  }

  /** Complete after pass f, every earlier pass having gained. */
  ghost predicate GainsUntilComplete(maps: Maps, work: seq<Table>, lp0: Loop, f: nat) {
    && Complete(maps, work, lp0, Passes(maps, work, lp0, f).st.dst)
    && forall j | 1 <= j < f :: Gains(maps, work, lp0, j)
  }

  /** The executed loop ends complete exactly when every pass up to a complete one within the budget gained. */
  lemma CompleteByGainsExactly(maps: Maps, work: seq<Table>, lp0: Loop, maxPasses: nat, k: nat)
    requires Named(work) && lp0.prev == map[] && Executed(maps, work, lp0, maxPasses, k)
    ensures Complete(maps, work, lp0, Passes(maps, work, lp0, k).st.dst)
            <==> exists f: nat :: f <= maxPasses && GainsUntilComplete(maps, work, lp0, f)
  {
    CompleteBeforeStopExactly(maps, work, lp0, maxPasses, k);
    if f: nat :| f <= maxPasses && CompleteBeforeStop(maps, work, lp0, f) {
      forall j | 1 <= j < f
        ensures Gains(maps, work, lp0, j)
      {
        LoopGoesOnExactly(maps, work, lp0, j);
      }
      assert GainsUntilComplete(maps, work, lp0, f);
    }
    if f: nat :| f <= maxPasses && GainsUntilComplete(maps, work, lp0, f) {
      GainedBeforeStop(maps, work, lp0, f);
    }
  }

  /** Stopping because every table is finished comes too late to matter: the destination was complete by then. */
  lemma {:induction false} GainedBeforeStop(maps: Maps, work: seq<Table>, lp0: Loop, f: nat)
    requires Named(work) && lp0.prev == map[] && GainsUntilComplete(maps, work, lp0, f)
    ensures exists g: nat :: g <= f && CompleteBeforeStop(maps, work, lp0, g)
  {
    if j: nat :| 1 <= j < f && AllFinished(work, Passes(maps, work, lp0, j)) {
      PassesDone(maps, work, lp0, j);
      AllDoneIsComplete(maps, work, lp0, Passes(maps, work, lp0, j));
      GainedBeforeStop(maps, work, lp0, j);
    } else {
      forall j | 1 <= j < f
        ensures !Stops(Passes(maps, work, lp0, j))
      {
        LoopGoesOnExactly(maps, work, lp0, j);
      }
      assert CompleteBeforeStop(maps, work, lp0, f);
    }
  }
}
