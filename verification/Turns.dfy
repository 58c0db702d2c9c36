/**
 * The pass loop read off the data alone: at which turn each row is added, and from that,
 * when the loop goes on and when it ends with everything loaded.
 *
 * Turn (k, i, j) is the turn of row j of table i in pass k.  Nothing here runs a pass.
 */
module Turns {
  import opened LoadLoop
  import opened LoadTheorems
  import opened LoopStops

  // ---------- the data-level reading ----------

  predicate Before(k: nat, i: nat, j: nat, k': nat, i': nat, j': nat) {
    k < k' || (k == k' && (i < i' || (i == i' && j < j')))
  }

  predicate IsRow(work: seq<Table>, lp0: Loop, i: int, j: int) { Todo(work, lp0, i) && 0 <= j < |work[i].rows| }

  function RowKeys(work: seq<Table>, i: nat, j: nat): set<Key>
    requires i < |work| && j < |work[i].rows|
  {
    KeysOf(work[i], work[i].rows[j])
  }

  /** The destination has the table, the values are good and every name resolves. */
  predicate Able(maps: Maps, t: Table, r: Row) { !t.absent && r.valid && Needs(maps, r, |r.deps|).Some? }

  /** Just before the turn, the key is held: from the start, or by a row added at an earlier turn. */
  ghost predicate Holds(maps: Maps, work: seq<Table>, lp0: Loop, k: nat, i: nat, j: nat, x: Key)
    decreases k, i, j, 0
  {
    x in lp0.st.dst
    || exists k': nat, i': nat, j': nat | Before(k', i', j', k, i, j) ::
         IsRow(work, lp0, i', j') && x in RowKeys(work, i', j') && Adds(maps, work, lp0, k', i', j')
  }

  /** The row is added at this turn: none of its keys is taken, and all its references are held. */
  ghost predicate Adds(maps: Maps, work: seq<Table>, lp0: Loop, k: nat, i: nat, j: nat)
    requires IsRow(work, lp0, i, j)
    decreases k, i, j, 1
  {
    && k >= 1 && Able(maps, work[i], work[i].rows[j])
    && (forall x | x in RowKeys(work, i, j) :: !Holds(maps, work, lp0, k, i, j, x))
    && forall x | x in Needs(maps, work[i].rows[j], |work[i].rows[j].deps|).value ::
         x in RowKeys(work, i, j) || Holds(maps, work, lp0, k, i, j, x)
  }

  /** The row does not fail at this turn: it is added, or one of its keys is taken. */
  ghost predicate Fine(maps: Maps, work: seq<Table>, lp0: Loop, k: nat, i: nat, j: nat)
    requires IsRow(work, lp0, i, j)
  {
    && Able(maps, work[i], work[i].rows[j])
    && (Adds(maps, work, lp0, k, i, j) || exists x :: x in RowKeys(work, i, j) && Holds(maps, work, lp0, k, i, j, x))
  }

  ghost predicate FineUpTo(maps: Maps, work: seq<Table>, lp0: Loop, k: nat, i: nat, n: nat)
    requires Todo(work, lp0, i) && n <= |work[i].rows|
  {
    forall j: nat | j < n :: Fine(maps, work, lp0, k, i, j)
  }

  /** No row of the table fails in pass k. */
  ghost predicate Finished(maps: Maps, work: seq<Table>, lp0: Loop, k: nat, i: nat)
    requires Todo(work, lp0, i)
  {
    k >= 1 && FineUpTo(maps, work, lp0, k, i, |work[i].rows|)
  }

  /** How many of the first n rows of a table pass k adds. */
  ghost function Landings(maps: Maps, work: seq<Table>, lp0: Loop, k: nat, i: nat, n: nat): nat
    requires Todo(work, lp0, i) && n <= |work[i].rows|
  {
    if n == 0 then 0
    else Landings(maps, work, lp0, k, i, n - 1) + if Adds(maps, work, lp0, k, i, n - 1) then 1 else 0
  }

  // ---------- moving from turn to turn ----------

  lemma HoldsGrows(maps: Maps, work: seq<Table>, lp0: Loop, k: nat, i: nat, j: nat, k': nat, i': nat, j': nat, x: Key)
    requires Holds(maps, work, lp0, k, i, j, x) && (Before(k, i, j, k', i', j') || (k, i, j) == (k', i', j'))
    ensures Holds(maps, work, lp0, k', i', j', x)
  {
  }

  lemma AddedHolds(maps: Maps, work: seq<Table>, lp0: Loop, k: nat, i: nat, j: nat, k': nat, i': nat, j': nat, x: Key)
    requires IsRow(work, lp0, i, j) && Adds(maps, work, lp0, k, i, j) && x in RowKeys(work, i, j)
    requires Before(k, i, j, k', i', j')
    ensures Holds(maps, work, lp0, k', i', j', x)
  {
  }

  /** The row that took a key which was not there at the start. */
  lemma HolderOf(maps: Maps, work: seq<Table>, lp0: Loop, k: nat, i: nat, j: nat, x: Key)
    returns (k': nat, i': nat, j': nat)
    requires Holds(maps, work, lp0, k, i, j, x) && x !in lp0.st.dst
    ensures Before(k', i', j', k, i, j) && IsRow(work, lp0, i', j') && x in RowKeys(work, i', j')
    ensures Adds(maps, work, lp0, k', i', j')
  {
    k', i', j' :| Before(k', i', j', k, i, j) && IsRow(work, lp0, i', j') && x in RowKeys(work, i', j')
                  && Adds(maps, work, lp0, k', i', j');
  }

  lemma NextTurn(maps: Maps, work: seq<Table>, lp0: Loop, k: nat, i: nat, j: nat, j': nat, x: Key)
    requires IsRow(work, lp0, i, j) && j' == j + 1
    ensures Holds(maps, work, lp0, k, i, j', x) <==>
            Holds(maps, work, lp0, k, i, j, x) || (x in RowKeys(work, i, j) && Adds(maps, work, lp0, k, i, j))
  {
    if Holds(maps, work, lp0, k, i, j, x) { HoldsGrows(maps, work, lp0, k, i, j, k, i, j', x); }
    if Holds(maps, work, lp0, k, i, j', x) && x !in lp0.st.dst {
      var a, b, c := HolderOf(maps, work, lp0, k, i, j', x);
      if Before(a, b, c, k, i, j) { AddedHolds(maps, work, lp0, a, b, c, k, i, j, x); }
    }
  }

  /** Between two turns with no row in between nothing changes. */
  lemma NoTurnBetween(maps: Maps, work: seq<Table>, lp0: Loop, k: nat, i: nat, j: nat, k': nat, i': nat, j': nat, x: Key)
    requires Before(k, i, j, k', i', j')
    requires forall a: nat, b: nat, c: nat | Before(a, b, c, k', i', j') && IsRow(work, lp0, b, c)
                                             && Adds(maps, work, lp0, a, b, c) :: Before(a, b, c, k, i, j)
    ensures Holds(maps, work, lp0, k', i', j', x) <==> Holds(maps, work, lp0, k, i, j, x)
  {
    if Holds(maps, work, lp0, k, i, j, x) { HoldsGrows(maps, work, lp0, k, i, j, k', i', j', x); }
    if Holds(maps, work, lp0, k', i', j', x) && x !in lp0.st.dst {
      var a, b, c := HolderOf(maps, work, lp0, k', i', j', x);
      AddedHolds(maps, work, lp0, a, b, c, k, i, j, x);
    }
  }

  /** A row that did not fail in one pass does not fail, and is not added, in a later one. */
  lemma FineStays(maps: Maps, work: seq<Table>, lp0: Loop, k: nat, k': nat, i: nat, j: nat)
    requires IsRow(work, lp0, i, j) && Fine(maps, work, lp0, k, i, j) && k < k'
    ensures Fine(maps, work, lp0, k', i, j) && !Adds(maps, work, lp0, k', i, j)
  {
    OwnKey(work[i], work[i].rows[j]);
    var own := Ref(work[i].name, work[i].rows[j].pk);
    if Adds(maps, work, lp0, k, i, j) {
      AddedHolds(maps, work, lp0, k, i, j, k', i, j, own);
      assert own in RowKeys(work, i, j);
    } else {
      var x :| x in RowKeys(work, i, j) && Holds(maps, work, lp0, k, i, j, x);
      HoldsGrows(maps, work, lp0, k, i, j, k', i, j, x);
    }
  }

  // ---------- the loop follows the reading ----------

  ghost predicate Matches(maps: Maps, work: seq<Table>, lp0: Loop, k: nat, i: nat, j: nat, dst: set<Key>) {
    forall x :: x in dst <==> Holds(maps, work, lp0, k, i, j, x)
  }

  lemma TakenKeySettles(t: Table, r: Row, dst: set<Key>, x: Key)
    ensures x in KeysOf(t, r) && x in dst ==> Settled(t, r, dst)
  {
    if x in KeysOf(t, r) && x in dst { assert x in KeysOf(t, r) * dst; }
  }

  lemma TurnExactly(maps: Maps, work: seq<Table>, lp0: Loop, k: nat, i: nat, j: nat, dst: set<Key>)
    requires IsRow(work, lp0, i, j) && k >= 1 && Matches(maps, work, lp0, k, i, j, dst)
    ensures Attempt(maps, work[i], work[i].rows[j], dst).Add? <==> Adds(maps, work, lp0, k, i, j)
    ensures !Attempt(maps, work[i], work[i].rows[j], dst).Fail? <==> Fine(maps, work, lp0, k, i, j)
  {
    var t, r := work[i], work[i].rows[j];
    if Settled(t, r, dst) {
      var x :| x in KeysOf(t, r) * dst;
      assert x in RowKeys(work, i, j) && Holds(maps, work, lp0, k, i, j, x);
    } else {
      forall x | x in RowKeys(work, i, j)
        ensures !Holds(maps, work, lp0, k, i, j, x)
      {
        TakenKeySettles(t, r, dst, x);
      }
    }
  }

  /** One turn: what is held, what is counted as copied and what as skipped. */
  lemma RowTurn(maps: Maps, work: seq<Table>, lp0: Loop, k: nat, i: nat, j: nat, j': nat, s: St, s': St)
    requires IsRow(work, lp0, i, j) && k >= 1 && j' == j + 1 && Matches(maps, work, lp0, k, i, j, s.dst)
    requires s' == RowStep(maps, work[i], work[i].rows[j], s)
    ensures Matches(maps, work, lp0, k, i, j', s'.dst)
    ensures s'.copied == s.copied + (if Adds(maps, work, lp0, k, i, j) then 1 else 0)
    ensures s'.skips == s.skips + (if Fine(maps, work, lp0, k, i, j) then 0 else 1)
  {
    TurnExactly(maps, work, lp0, k, i, j, s.dst);
    forall x
      ensures x in s'.dst <==> Holds(maps, work, lp0, k, i, j', x)
    {
      NextTurn(maps, work, lp0, k, i, j, j', x);
    }
  }

  lemma FineUpToNext(maps: Maps, work: seq<Table>, lp0: Loop, k: nat, i: nat, n: nat, m: nat)
    requires IsRow(work, lp0, i, n) && m == n + 1
    ensures FineUpTo(maps, work, lp0, k, i, m) <==>
            FineUpTo(maps, work, lp0, k, i, n) && Fine(maps, work, lp0, k, i, n)
  {
  }

  /** A sweep adds the rows whose turn it is, and skips the ones that are not fine. */
  lemma {:induction false} SweepTurns(maps: Maps, work: seq<Table>, lp0: Loop, k: nat, i: nat, n: nat, s: St)
    requires Todo(work, lp0, i) && n <= |work[i].rows| && k >= 1 && Matches(maps, work, lp0, k, i, 0, s.dst)
    ensures var s' := Sweep(maps, work[i], n, s);
            && Matches(maps, work, lp0, k, i, n, s'.dst)
            && s'.copied == s.copied + Landings(maps, work, lp0, k, i, n)
            && s'.skips >= s.skips
            && (s'.skips == s.skips <==> FineUpTo(maps, work, lp0, k, i, n))
  {
    if n > 0 {
      SweepTurns(maps, work, lp0, k, i, n - 1, s);
      FineUpToNext(maps, work, lp0, k, i, n - 1, n);
      RowTurn(maps, work, lp0, k, i, n - 1, n, Sweep(maps, work[i], n - 1, s), Sweep(maps, work[i], n, s));
    }
  }

  lemma TableEnds(maps: Maps, work: seq<Table>, lp0: Loop, k: nat, i: nat, i': nat, n: nat, dst: set<Key>)
    requires i < |work| && i' == i + 1 && (Todo(work, lp0, i) ==> n == |work[i].rows|)
    requires Matches(maps, work, lp0, k, i, n, dst)
    ensures Matches(maps, work, lp0, k, i', 0, dst)
  {
    forall x
      ensures Holds(maps, work, lp0, k, i', 0, x) <==> Holds(maps, work, lp0, k, i, n, x)
    {
      NoTurnBetween(maps, work, lp0, k, i, n, k, i', 0, x);
    }
  }

  lemma PassEnds(maps: Maps, work: seq<Table>, lp0: Loop, k: nat, k': nat, dst: set<Key>)
    requires k' == k + 1 && Matches(maps, work, lp0, k, |work|, 0, dst)
    ensures Matches(maps, work, lp0, k', 0, 0, dst)
  {
    forall x
      ensures Holds(maps, work, lp0, k', 0, 0, x) <==> Holds(maps, work, lp0, k, |work|, 0, x)
    {
      NoTurnBetween(maps, work, lp0, k, |work|, 0, k', 0, 0, x);
    }
  }

  /** A finished table adds nothing in a later pass. */
  lemma {:induction false} FinishedTable(maps: Maps, work: seq<Table>, lp0: Loop, k: nat, k': nat, i: nat, n: nat, dst: set<Key>)
    requires Todo(work, lp0, i) && n <= |work[i].rows| && k < k' && Finished(maps, work, lp0, k, i)
    requires Matches(maps, work, lp0, k', i, 0, dst)
    ensures Matches(maps, work, lp0, k', i, n, dst) && Landings(maps, work, lp0, k', i, n) == 0
  {
    if n > 0 {
      FinishedTable(maps, work, lp0, k, k', i, n - 1, dst);
      FineStays(maps, work, lp0, k, k', i, n - 1);
      forall x
        ensures Holds(maps, work, lp0, k', i, n, x) <==> Holds(maps, work, lp0, k', i, n - 1, x)
      {
        NextTurn(maps, work, lp0, k', i, n - 1, n, x);
      }
    }
  }

  lemma FinishedStays(maps: Maps, work: seq<Table>, lp0: Loop, k: nat, k': nat, i: nat)
    requires Todo(work, lp0, i) && Finished(maps, work, lp0, k, i) && k < k'
    ensures Finished(maps, work, lp0, k', i)
  {
    forall j: nat | j < |work[i].rows|
      ensures Fine(maps, work, lp0, k', i, j)
    {
      FineStays(maps, work, lp0, k, k', i, j);
    }
  }

  /** In pass k, n tables have had their turn: done are the finished ones. */
  ghost predicate DoneAt(maps: Maps, work: seq<Table>, lp0: Loop, k: nat, n: nat, done: set<string>)
    requires k >= 1
  {
    lp0.done <= done &&
    forall i: nat | Todo(work, lp0, i) ::
      (work[i].name in done <==> Finished(maps, work, lp0, if i < n then k else k - 1, i))
  }

  /** Rows landed so far in this pass, table by table. */
  ghost predicate LandedAt(maps: Maps, work: seq<Table>, lp0: Loop, k: nat, n: nat, lp: Loop, at: Loop) {
    forall i: nat | Todo(work, lp0, i) ::
      Landed(lp, at, work[i].name) == if i < n then Landings(maps, work, lp0, k, i, |work[i].rows|) else 0
  }

  ghost predicate PassAt(maps: Maps, work: seq<Table>, lp0: Loop, k: nat, n: nat, lp: Loop, at: Loop)
    requires k >= 1
  {
    && Matches(maps, work, lp0, k, n, 0, at.st.dst)
    && DoneAt(maps, work, lp0, k, n, at.done)
    && LandedAt(maps, work, lp0, k, n, lp, at)
  }

  /** The turn of a table that is still to be done. */
  lemma OpenTable(maps: Maps, work: seq<Table>, lp0: Loop, k: nat, n: nat, at: Loop)
    requires Todo(work, lp0, n) && work[n].name !in at.done && k >= 1 && Matches(maps, work, lp0, k, n, 0, at.st.dst)
    ensures var at' := TableStep(maps, work[n], at);
            && Matches(maps, work, lp0, k, n + 1, 0, at'.st.dst)
            && (work[n].name in at'.done <==> Finished(maps, work, lp0, k, n))
            && Copied(maps, work[n], at.st) == Landings(maps, work, lp0, k, n, |work[n].rows|)
  {
    SweepTurns(maps, work, lp0, k, n, |work[n].rows|, at.st);
    TableEnds(maps, work, lp0, k, n, n + 1, |work[n].rows|, SweepAll(maps, work[n], at.st).dst);
  }

  /** The turn of a table that is done already, or is a merge table. */
  lemma ClosedTable(maps: Maps, work: seq<Table>, lp0: Loop, k: nat, n: nat, at: Loop)
    requires n < |work| && work[n].name in at.done && k >= 1 && Matches(maps, work, lp0, k, n, 0, at.st.dst)
    requires Todo(work, lp0, n) ==> k >= 2 && Finished(maps, work, lp0, k - 1, n)
    ensures Matches(maps, work, lp0, k, n + 1, 0, at.st.dst)
    ensures Todo(work, lp0, n) ==>
      Finished(maps, work, lp0, k, n) && Landings(maps, work, lp0, k, n, |work[n].rows|) == 0
  {
    if Todo(work, lp0, n) {
      FinishedTable(maps, work, lp0, k - 1, k, n, |work[n].rows|, at.st.dst);
      FinishedStays(maps, work, lp0, k - 1, k, n);
      TableEnds(maps, work, lp0, k, n, n + 1, |work[n].rows|, at.st.dst);
    } else {
      TableEnds(maps, work, lp0, k, n, n + 1, 0, at.st.dst);
    }
  }

  lemma TableTurn(maps: Maps, work: seq<Table>, lp0: Loop, k: nat, n: nat, lp: Loop, at: Loop)
    requires Named(work) && n < |work| && k >= 1 && PassAt(maps, work, lp0, k, n, lp, at)
    ensures PassAt(maps, work, lp0, k, n + 1, lp, TableStep(maps, work[n], at))
  {
    var at', name := TableStep(maps, work[n], at), work[n].name;
    if name !in at.done {
      OpenTable(maps, work, lp0, k, n, at);
    } else {
      ClosedTable(maps, work, lp0, k, n, at);
    }
    forall i: nat | Todo(work, lp0, i)
      ensures work[i].name in at'.done <==> Finished(maps, work, lp0, if i < n + 1 then k else k - 1, i)
      ensures Landed(lp, at', work[i].name) == if i < n + 1 then Landings(maps, work, lp0, k, i, |work[i].rows|) else 0
    {
      TurnOf(maps, work[n], lp, at, work[i].name);
    }
  }

  lemma {:induction false} PassTurns(maps: Maps, work: seq<Table>, lp0: Loop, k: nat, n: nat, lp: Loop)
    requires Named(work) && n <= |work| && k >= 1 && PassAt(maps, work, lp0, k, 0, lp, lp)
    ensures PassAt(maps, work, lp0, k, n, lp, PassOver(maps, work, n, lp))
  {
    if n == 0 {
      assert PassAt(maps, work, lp0, k, 0, lp, PassOver(maps, work, 0, lp));
    } else {
      PassTurns(maps, work, lp0, k, n - 1, lp);
      TableTurn(maps, work, lp0, k, n - 1, lp, PassOver(maps, work, n - 1, lp));
    }
  }

  lemma NothingHeldBefore(maps: Maps, work: seq<Table>, lp0: Loop, k: nat)
    requires k == 1
    ensures Matches(maps, work, lp0, k, 0, 0, lp0.st.dst)
  {
    forall x
      ensures Holds(maps, work, lp0, k, 0, 0, x) <==> x in lp0.st.dst
    {
      if Holds(maps, work, lp0, k, 0, 0, x) && x !in lp0.st.dst {
        var a, b, c := HolderOf(maps, work, lp0, k, 0, 0, x);
      }
    }
  }

  /** Before pass k the loop stands where the reading says. */
  lemma {:induction false} PassesTurn(maps: Maps, work: seq<Table>, lp0: Loop, k: nat)
    requires Named(work) && k >= 1
    ensures var lp := Passes(maps, work, lp0, k - 1);
            PassAt(maps, work, lp0, k, 0, lp, lp)
  {
    var lp := Passes(maps, work, lp0, k - 1);
    if k == 1 {
      NothingHeldBefore(maps, work, lp0, k);
    } else {
      var before := Passes(maps, work, lp0, k - 2);
      PassesTurn(maps, work, lp0, k - 1);
      PassTurns(maps, work, lp0, k - 1, |work|, before);
      PassEnds(maps, work, lp0, k - 1, k, lp.st.dst);
    }
  }

  // ---------- main results ----------

  /** Some row with this key is added in pass k or before. */
  ghost predicate AddedWithin(maps: Maps, work: seq<Table>, lp0: Loop, k: nat, x: Key) {
    exists k': nat, i: nat, j: nat ::
      k' <= k && IsRow(work, lp0, i, j) && x in RowKeys(work, i, j) && Adds(maps, work, lp0, k', i, j)
  }

  /** After k passes exactly the keys are held that were there or belong to a row added in one of those passes. */
  lemma PresentExactly(maps: Maps, work: seq<Table>, lp0: Loop, k: nat, x: Key)
    requires Named(work)
    ensures x in Passes(maps, work, lp0, k).st.dst <==> x in lp0.st.dst || AddedWithin(maps, work, lp0, k, x)
  {
    PassesTurn(maps, work, lp0, k + 1);
    assert x in Passes(maps, work, lp0, k).st.dst <==> Holds(maps, work, lp0, k + 1, 0, 0, x);
    if Holds(maps, work, lp0, k + 1, 0, 0, x) && x !in lp0.st.dst {
      var a, b, c := HolderOf(maps, work, lp0, k + 1, 0, 0, x);
    }
    if AddedWithin(maps, work, lp0, k, x) {
      var a: nat, b: nat, c: nat :|
        a <= k && IsRow(work, lp0, b, c) && x in RowKeys(work, b, c) && Adds(maps, work, lp0, a, b, c);
      AddedHolds(maps, work, lp0, a, b, c, k + 1, 0, 0, x);
    }
  }

  /** Tables done after k passes, and the rows a pass lands, are those of the reading. */
  lemma {:induction false} PassExactly(maps: Maps, work: seq<Table>, lp0: Loop, k: nat, i: nat)
    requires Named(work) && Todo(work, lp0, i)
    ensures work[i].name in Passes(maps, work, lp0, k).done <==> Finished(maps, work, lp0, k, i)
    ensures LandedIn(maps, work, lp0, k, work[i].name) ==
            if k == 0 then 0 else Landings(maps, work, lp0, k, i, |work[i].rows|)
  {
    PassesTurn(maps, work, lp0, k + 1);
    if k > 0 {
      PassesTurn(maps, work, lp0, k);
      PassTurns(maps, work, lp0, k, |work|, Passes(maps, work, lp0, k - 1));
    }
  }

  /** Pass k adds no row. */
  ghost predicate Idle(maps: Maps, work: seq<Table>, lp0: Loop, k: nat) {
    forall i: nat, j: nat | IsRow(work, lp0, i, j) :: !Adds(maps, work, lp0, k, i, j)
  }

  /** An idle pass changes nothing, any other pass does. */
  lemma IdleChangesNothing(maps: Maps, work: seq<Table>, lp0: Loop, k: nat, k': nat)
    requires k' == k + 1
    ensures Idle(maps, work, lp0, k) <==>
            forall x :: Holds(maps, work, lp0, k', 0, 0, x) <==> Holds(maps, work, lp0, k, 0, 0, x)
  {
    if Idle(maps, work, lp0, k) {
      forall x
        ensures Holds(maps, work, lp0, k', 0, 0, x) <==> Holds(maps, work, lp0, k, 0, 0, x)
      {
        NoTurnBetween(maps, work, lp0, k, 0, 0, k', 0, 0, x);
      }
    } else {
      var i: nat, j: nat :| IsRow(work, lp0, i, j) && Adds(maps, work, lp0, k, i, j);
      AddedIsNew(maps, work, lp0, k, k', i, j);
    }
  }

  lemma SameMatches(maps: Maps, work: seq<Table>, lp0: Loop, k: nat, k': nat, a: set<Key>, b: set<Key>)
    requires Matches(maps, work, lp0, k, 0, 0, a) && Matches(maps, work, lp0, k', 0, 0, b)
    ensures a == b <==> forall x :: Holds(maps, work, lp0, k', 0, 0, x) <==> Holds(maps, work, lp0, k, 0, 0, x)
  {
    if a == b {
      forall x
        ensures Holds(maps, work, lp0, k', 0, 0, x) <==> Holds(maps, work, lp0, k, 0, 0, x)
      {
        assert x in a <==> Holds(maps, work, lp0, k, 0, 0, x);
      }
    } else {
      var x :| (x in a) != (x in b);
      assert !(Holds(maps, work, lp0, k', 0, 0, x) <==> Holds(maps, work, lp0, k, 0, 0, x));
    }
  }

  /** What is held before pass k is what pass f = k - 1 left. */
  lemma HeldAfter(maps: Maps, work: seq<Table>, lp0: Loop, f: nat, k: nat)
    requires Named(work) && k == f + 1
    ensures Matches(maps, work, lp0, k, 0, 0, Passes(maps, work, lp0, f).st.dst)
  {
    PassesTurn(maps, work, lp0, k);
  }

  lemma IdleExactly(maps: Maps, work: seq<Table>, lp0: Loop, f: nat, k: nat)
    requires Named(work) && k == f + 1
    ensures Complete(maps, work, lp0, Passes(maps, work, lp0, f).st.dst) <==> Idle(maps, work, lp0, k)
  {
    IdlePassExactly(maps, work, lp0, f);
    HeldAfter(maps, work, lp0, f, k);
    HeldAfter(maps, work, lp0, k, k + 1);
    IdleChangesNothing(maps, work, lp0, k, k + 1);
    SameMatches(maps, work, lp0, k, k + 1, Passes(maps, work, lp0, f).st.dst, Passes(maps, work, lp0, k).st.dst);
  }

  /** The key of a row added in a pass is not held before the pass and held after it. */
  lemma AddedIsNew(maps: Maps, work: seq<Table>, lp0: Loop, k: nat, k': nat, i: nat, j: nat)
    requires IsRow(work, lp0, i, j) && Adds(maps, work, lp0, k, i, j) && k' == k + 1
    ensures exists x :: !Holds(maps, work, lp0, k, 0, 0, x) && Holds(maps, work, lp0, k', 0, 0, x)
  {
    OwnKey(work[i], work[i].rows[j]);
    var x := Ref(work[i].name, work[i].rows[j].pk);
    assert x in RowKeys(work, i, j);
    if Holds(maps, work, lp0, k, 0, 0, x) { HoldsGrows(maps, work, lp0, k, 0, 0, k, i, j, x); }
    AddedHolds(maps, work, lp0, k, i, j, k', 0, 0, x);
  }

  /** Pass k finishes the table, or adds more of its rows than the pass before. */
  ghost predicate TableGains(maps: Maps, work: seq<Table>, lp0: Loop, k: nat, i: nat)
    requires Todo(work, lp0, i) && k >= 1
  {
    var n := |work[i].rows|;
    && !Finished(maps, work, lp0, k - 1, i)
    && (Finished(maps, work, lp0, k, i)
        || Landings(maps, work, lp0, k, i, n) > if k == 1 then 0 else Landings(maps, work, lp0, k - 1, i, n))
  }

  ghost predicate SomeTableGains(maps: Maps, work: seq<Table>, lp0: Loop, k: nat)
    requires k >= 1
  {
    exists i: nat :: Todo(work, lp0, i) && TableGains(maps, work, lp0, k, i)
  }

  lemma GainsExactly(maps: Maps, work: seq<Table>, lp0: Loop, k: nat)
    requires Named(work) && k >= 1
    ensures Gains(maps, work, lp0, k) <==> SomeTableGains(maps, work, lp0, k)
  {
    PassesDone(maps, work, lp0, k - 1);
    forall i: nat | Todo(work, lp0, i)
      ensures GainsAt(maps, work, lp0, k, work[i].name) <==> TableGains(maps, work, lp0, k, i)
    {
      PassExactly(maps, work, lp0, k - 1, i);
      PassExactly(maps, work, lp0, k, i);
    }
  }

  /** Nothing is left for the pass after f, and every pass before f gained. */
  ghost predicate LandsAll(maps: Maps, work: seq<Table>, lp0: Loop, f: nat) {
    Idle(maps, work, lp0, f + 1) && forall k | 1 <= k < f :: SomeTableGains(maps, work, lp0, k)
  }

  /**
   * The loop compares how many rows a pass copied with the pass before, so it can stop while
   * rows are still landing.  It ends with nothing left to add exactly when, in the turns read
   * off the data, every pass before an idle one within the budget finishes a table or adds
   * more rows of some table than the pass before it.
   */
  lemma LoopCompleteExactly(maps: Maps, work: seq<Table>, lp0: Loop, maxPasses: nat, k: nat)
    requires Named(work) && lp0.prev == map[] && Executed(maps, work, lp0, maxPasses, k)
    ensures Complete(maps, work, lp0, Passes(maps, work, lp0, k).st.dst)
            <==> exists f: nat :: f <= maxPasses && LandsAll(maps, work, lp0, f)
  {
    CompleteByGainsExactly(maps, work, lp0, maxPasses, k);
    forall f: nat
      ensures GainsUntilComplete(maps, work, lp0, f) <==> LandsAll(maps, work, lp0, f)
    {
      IdleExactly(maps, work, lp0, f, f + 1);
      forall j | 1 <= j < f
        ensures Gains(maps, work, lp0, j) <==> SomeTableGains(maps, work, lp0, j)
      {
        GainsExactly(maps, work, lp0, j);
      }
    }
  }
}
