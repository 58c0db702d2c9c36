/**
 * When no two rows share a key, the pass in which a row lands follows from its references
 * alone: one when they are all there at the start, otherwise the latest landing pass among
 * them, plus one for a reference that stands later in the order of the tables and rows.
 */
module Landing {
  import opened LoadLoop
  import opened LoadTheorems
  import opened Turns

  predicate Earlier(i: nat, j: nat, i': nat, j': nat) { i < i' || (i == i' && j < j') }

  ghost predicate Apart(work: seq<Table>, lp0: Loop) {
    forall i: nat, j: nat, i': nat, j': nat |
      IsRow(work, lp0, i, j) && IsRow(work, lp0, i', j') && (i, j) != (i', j') ::
      RowKeys(work, i, j) !! RowKeys(work, i', j')
  }

  function NeedsAt(maps: Maps, work: seq<Table>, i: nat, j: nat): set<Key>
    requires i < |work| && j < |work[i].rows| && Able(maps, work[i], work[i].rows[j])
  {
    Needs(maps, work[i].rows[j], |work[i].rows[j].deps|).value
  }

  /** A reference that is there at the start, or the row's own key, costs no pass. */
  predicate Given(work: seq<Table>, lp0: Loop, i: nat, j: nat, x: Key)
    requires i < |work| && j < |work[i].rows|
  {
    x in RowKeys(work, i, j) || x in lp0.st.dst
  }

  /** Pass in which a referenced row has to land for its referrer to land in pass k. */
  function Due(i: nat, j: nat, i': nat, j': nat, k: nat): nat
    requires k >= 1
  {
    if Earlier(i', j', i, j) then k else k - 1
  }

  /** The landing pass of the row is at most k. */
  ghost predicate LandsWithin(maps: Maps, work: seq<Table>, lp0: Loop, k: nat, i: nat, j: nat)
    requires IsRow(work, lp0, i, j)
    decreases k, i, j, 1
  {
    && k >= 1 && Able(maps, work[i], work[i].rows[j]) && RowKeys(work, i, j) !! lp0.st.dst
    && forall x | x in NeedsAt(maps, work, i, j) && !Given(work, lp0, i, j, x) :: Met(maps, work, lp0, k, i, j, x)
  }

  /** Some row with the referenced key lands in time for row (i, j) to land in pass k. */
  ghost predicate Met(maps: Maps, work: seq<Table>, lp0: Loop, k: nat, i: nat, j: nat, x: Key)
    requires k >= 1
    decreases k, i, j, 0
  {
    exists i': nat, j': nat | IsRow(work, lp0, i', j') && x in RowKeys(work, i', j') && (i', j') != (i, j) ::
      if Earlier(i', j', i, j) then LandsWithin(maps, work, lp0, k, i', j')
      else LandsWithin(maps, work, lp0, k - 1, i', j')
  }

  ghost predicate LandsIn(maps: Maps, work: seq<Table>, lp0: Loop, k: nat, i: nat, j: nat)
    requires IsRow(work, lp0, i, j)
  {
    LandsWithin(maps, work, lp0, k, i, j) && !(k >= 1 && LandsWithin(maps, work, lp0, k - 1, i, j))
  }

  ghost predicate AddedBy(maps: Maps, work: seq<Table>, lp0: Loop, k: nat, i: nat, j: nat)
    requires IsRow(work, lp0, i, j)
  {
    exists k': nat :: k' <= k && Adds(maps, work, lp0, k', i, j)
  }

  /** A row is added at most once. */
  lemma AddedOnce(maps: Maps, work: seq<Table>, lp0: Loop, k: nat, i: nat, j: nat)
    requires IsRow(work, lp0, i, j) && k >= 1
    ensures Adds(maps, work, lp0, k, i, j) ==> !AddedBy(maps, work, lp0, k - 1, i, j)
  {
    if AddedBy(maps, work, lp0, k - 1, i, j) {
      var k': nat :| k' <= k - 1 && Adds(maps, work, lp0, k', i, j);
      FineStays(maps, work, lp0, k', k, i, j);
    }
  }

  lemma OneOwner(work: seq<Table>, lp0: Loop, i: nat, j: nat, b: nat, c: nat, x: Key)
    requires Apart(work, lp0) && IsRow(work, lp0, i, j) && IsRow(work, lp0, b, c)
    requires x in RowKeys(work, i, j) && x in RowKeys(work, b, c)
    ensures (b, c) == (i, j)
  {
  }

  // ---------- landing passes are the passes in which rows are added ----------

  /** A reference held at an earlier turn comes from a row that lands in time. */
  lemma NeedLands(maps: Maps, work: seq<Table>, lp0: Loop, k: nat, i: nat, j: nat, k': nat, x: Key)
    requires IsRow(work, lp0, i, j) && 1 <= k' <= k && !Given(work, lp0, i, j, x)
    requires Holds(maps, work, lp0, k', i, j, x)
    requires forall i': nat, j': nat | IsRow(work, lp0, i', j') && Earlier(i', j', i, j) && AddedBy(maps, work, lp0, k, i', j') ::
               LandsWithin(maps, work, lp0, k, i', j')
    requires forall i': nat, j': nat | IsRow(work, lp0, i', j') && AddedBy(maps, work, lp0, k - 1, i', j') ::
               LandsWithin(maps, work, lp0, k - 1, i', j')
    ensures Met(maps, work, lp0, k, i, j, x)
  {
    var a, b, c := HolderOf(maps, work, lp0, k', i, j, x);
    if Earlier(b, c, i, j) {
      assert AddedBy(maps, work, lp0, k, b, c);
    } else {
      assert AddedBy(maps, work, lp0, k - 1, b, c);
    }
  }

  lemma AddedLands(maps: Maps, work: seq<Table>, lp0: Loop, k: nat, i: nat, j: nat)
    requires IsRow(work, lp0, i, j) && AddedBy(maps, work, lp0, k, i, j)
    ensures LandsWithin(maps, work, lp0, k, i, j)
    decreases k, i, j
  {
    var k': nat :| k' <= k && Adds(maps, work, lp0, k', i, j);
    forall i': nat, j': nat | IsRow(work, lp0, i', j') && Earlier(i', j', i, j) && AddedBy(maps, work, lp0, k, i', j')
      ensures LandsWithin(maps, work, lp0, k, i', j')
    {
      AddedLands(maps, work, lp0, k, i', j');
    }
    forall i': nat, j': nat | IsRow(work, lp0, i', j') && AddedBy(maps, work, lp0, k - 1, i', j')
      ensures LandsWithin(maps, work, lp0, k - 1, i', j')
    {
      AddedLands(maps, work, lp0, k - 1, i', j');
    }
    forall x | x in NeedsAt(maps, work, i, j) && !Given(work, lp0, i, j, x)
      ensures Met(maps, work, lp0, k, i, j, x)
    {
      NeedLands(maps, work, lp0, k, i, j, k', x);
    }
    forall x | x in RowKeys(work, i, j)
      ensures x !in lp0.st.dst
    {
      assert !Holds(maps, work, lp0, k', i, j, x);
    }
  }

  /** A row whose keys are taken before its turn in pass k was added before. */
  lemma OnlyItself(maps: Maps, work: seq<Table>, lp0: Loop, k: nat, i: nat, j: nat, x: Key)
    requires Apart(work, lp0) && IsRow(work, lp0, i, j) && x in RowKeys(work, i, j) && x !in lp0.st.dst
    requires Holds(maps, work, lp0, k, i, j, x)
    ensures AddedBy(maps, work, lp0, k, i, j)
  {
    var a, b, c := HolderOf(maps, work, lp0, k, i, j, x);
    OneOwner(work, lp0, i, j, b, c, x);
  }

  lemma ReferredRow(maps: Maps, work: seq<Table>, lp0: Loop, k: nat, i: nat, j: nat, x: Key) returns (b: nat, c: nat)
    requires k >= 1 && Met(maps, work, lp0, k, i, j, x)
    ensures IsRow(work, lp0, b, c) && x in RowKeys(work, b, c) && (b, c) != (i, j)
    ensures LandsWithin(maps, work, lp0, Due(i, j, b, c, k), b, c)
  {
    b, c :| IsRow(work, lp0, b, c) && x in RowKeys(work, b, c) && (b, c) != (i, j)
      && if Earlier(b, c, i, j) then LandsWithin(maps, work, lp0, k, b, c)
         else LandsWithin(maps, work, lp0, k - 1, b, c);
  }

  lemma LandsAdded(maps: Maps, work: seq<Table>, lp0: Loop, k: nat, i: nat, j: nat)
    requires Apart(work, lp0) && IsRow(work, lp0, i, j) && LandsWithin(maps, work, lp0, k, i, j)
    ensures AddedBy(maps, work, lp0, k, i, j)
    decreases k, i, j
  {
    if x :| x in RowKeys(work, i, j) && Holds(maps, work, lp0, k, i, j, x) {
      OnlyItself(maps, work, lp0, k, i, j, x);
    } else {
      forall x | x in NeedsAt(maps, work, i, j) && !Given(work, lp0, i, j, x)
        ensures Holds(maps, work, lp0, k, i, j, x)
      {
        var b, c := ReferredRow(maps, work, lp0, k, i, j, x);
        var m := Due(i, j, b, c, k);
        LandsAdded(maps, work, lp0, m, b, c);
        var a: nat :| a <= m && Adds(maps, work, lp0, a, b, c);
        AddedHolds(maps, work, lp0, a, b, c, k, i, j, x);
      }
      assert Adds(maps, work, lp0, k, i, j);
    }
  }

  /** A row is added within the first k passes exactly when its landing pass is at most k. */
  lemma LandsExactly(maps: Maps, work: seq<Table>, lp0: Loop, k: nat, i: nat, j: nat)
    requires Apart(work, lp0) && IsRow(work, lp0, i, j)
    ensures AddedBy(maps, work, lp0, k, i, j) <==> LandsWithin(maps, work, lp0, k, i, j)
  {
    if AddedBy(maps, work, lp0, k, i, j) { AddedLands(maps, work, lp0, k, i, j); }
    if LandsWithin(maps, work, lp0, k, i, j) { LandsAdded(maps, work, lp0, k, i, j); }
  }

  // ---------- main results ----------

  /** Turn by turn: a row is added in pass k exactly when k is its landing pass. */
  lemma AddedInLandingPass(maps: Maps, work: seq<Table>, lp0: Loop, k: nat, i: nat, j: nat)
    requires Apart(work, lp0) && IsRow(work, lp0, i, j)
    ensures Adds(maps, work, lp0, k, i, j) <==> LandsIn(maps, work, lp0, k, i, j)
  {
    LandsExactly(maps, work, lp0, k, i, j);
    if k >= 1 {
      LandsExactly(maps, work, lp0, k - 1, i, j);
      AddedOnce(maps, work, lp0, k, i, j);
    }
  }

  /** After k passes a row that was not there at the start is present exactly when its landing pass is at most k. */
  lemma PresentInLandingPass(maps: Maps, work: seq<Table>, lp0: Loop, k: nat, i: nat, j: nat)
    requires Named(work) && Apart(work, lp0) && IsRow(work, lp0, i, j)
    requires Ref(work[i].name, work[i].rows[j].pk) !in lp0.st.dst
    ensures Ref(work[i].name, work[i].rows[j].pk) in Passes(maps, work, lp0, k).st.dst
            <==> LandsWithin(maps, work, lp0, k, i, j)
  {
    var own := Ref(work[i].name, work[i].rows[j].pk);
    OwnKey(work[i], work[i].rows[j]);
    PresentExactly(maps, work, lp0, k, own);
    LandsExactly(maps, work, lp0, k, i, j);
    if AddedWithin(maps, work, lp0, k, own) {
      var a: nat, b: nat, c: nat :|
        a <= k && IsRow(work, lp0, b, c) && own in RowKeys(work, b, c) && Adds(maps, work, lp0, a, b, c);
      OneOwner(work, lp0, i, j, b, c, own);
    }
    if AddedBy(maps, work, lp0, k, i, j) {
      var a: nat :| a <= k && Adds(maps, work, lp0, a, i, j);
      assert own in RowKeys(work, i, j);
    }
  }

  /**
   * The landing pass is the maximum: every reference lands in time for it, and after the
   * first pass some reference lands exactly when it is due.
   */
  lemma LandingIsMaximum(maps: Maps, work: seq<Table>, lp0: Loop, k: nat, i: nat, j: nat)
    requires Apart(work, lp0) && IsRow(work, lp0, i, j) && LandsIn(maps, work, lp0, k, i, j)
    ensures forall x | x in NeedsAt(maps, work, i, j) && !Given(work, lp0, i, j, x) :: Met(maps, work, lp0, k, i, j, x)
    ensures k > 1 ==> exists x :: x in NeedsAt(maps, work, i, j) && LandsWhenDue(maps, work, lp0, k, i, j, x)
  {
    if k > 1 {
      var x :| x in NeedsAt(maps, work, i, j) && !Given(work, lp0, i, j, x) && !Met(maps, work, lp0, k - 1, i, j, x);
      var b, c := ReferredRow(maps, work, lp0, k, i, j, x);
      assert LandsIn(maps, work, lp0, Due(i, j, b, c, k), b, c);
    }
  }

  ghost predicate LandsWhenDue(maps: Maps, work: seq<Table>, lp0: Loop, k: nat, i: nat, j: nat, x: Key)
    requires k >= 1
  {
    exists b: nat, c: nat ::
      IsRow(work, lp0, b, c) && x in RowKeys(work, b, c) && LandsIn(maps, work, lp0, Due(i, j, b, c, k), b, c)
  }

  // ---------- the loop in landing passes ----------

  /** No row of the table fails in pass k: all are absorbed by rows there at the start, or land by then. */
  ghost predicate AllLanded(maps: Maps, work: seq<Table>, lp0: Loop, k: nat, i: nat)
    requires Todo(work, lp0, i)
  {
    k >= 1 && forall j: nat | j < |work[i].rows| :: Lodged(maps, work, lp0, k, i, j)
  }

  ghost predicate Lodged(maps: Maps, work: seq<Table>, lp0: Loop, k: nat, i: nat, j: nat)
    requires IsRow(work, lp0, i, j)
  {
    Able(maps, work[i], work[i].rows[j])
    && (RowKeys(work, i, j) * lp0.st.dst != {} || LandsWithin(maps, work, lp0, k, i, j))
  }

  /** How many of the first n rows of a table have landing pass k. */
  ghost function LandingCount(maps: Maps, work: seq<Table>, lp0: Loop, k: nat, i: nat, n: nat): nat
    requires Todo(work, lp0, i) && n <= |work[i].rows|
  {
    if n == 0 then 0
    else LandingCount(maps, work, lp0, k, i, n - 1) + if LandsIn(maps, work, lp0, k, i, n - 1) then 1 else 0
  }

  lemma {:induction false} CountExactly(maps: Maps, work: seq<Table>, lp0: Loop, k: nat, i: nat, n: nat)
    requires Apart(work, lp0) && Todo(work, lp0, i) && n <= |work[i].rows|
    ensures LandingCount(maps, work, lp0, k, i, n) == Landings(maps, work, lp0, k, i, n)
  {
    if n > 0 {
      CountExactly(maps, work, lp0, k, i, n - 1);
      AddedInLandingPass(maps, work, lp0, k, i, n - 1);
    }
  }

  lemma LodgedExactly(maps: Maps, work: seq<Table>, lp0: Loop, k: nat, i: nat, j: nat)
    requires Apart(work, lp0) && IsRow(work, lp0, i, j) && k >= 1
    ensures Fine(maps, work, lp0, k, i, j) <==> Lodged(maps, work, lp0, k, i, j)
  {
    LandsExactly(maps, work, lp0, k, i, j);
    if Fine(maps, work, lp0, k, i, j) && !Adds(maps, work, lp0, k, i, j) {
      var x :| x in RowKeys(work, i, j) && Holds(maps, work, lp0, k, i, j, x);
      if x in lp0.st.dst {
        assert x in RowKeys(work, i, j) * lp0.st.dst;
      } else {
        OnlyItself(maps, work, lp0, k, i, j, x);
      }
    }
    if Lodged(maps, work, lp0, k, i, j) {
      LodgedIsFine(maps, work, lp0, k, i, j);
    }
  }

  lemma LodgedIsFine(maps: Maps, work: seq<Table>, lp0: Loop, k: nat, i: nat, j: nat)
    requires Apart(work, lp0) && IsRow(work, lp0, i, j) && k >= 1 && Lodged(maps, work, lp0, k, i, j)
    ensures Fine(maps, work, lp0, k, i, j)
  {
    if RowKeys(work, i, j) * lp0.st.dst != {} {
      var x :| x in RowKeys(work, i, j) * lp0.st.dst;
      assert x in RowKeys(work, i, j) && Holds(maps, work, lp0, k, i, j, x);
    } else {
      LandsAdded(maps, work, lp0, k, i, j);
      var a: nat :| a <= k && Adds(maps, work, lp0, a, i, j);
      if a < k { FineStays(maps, work, lp0, a, k, i, j); }
    }
  }

  lemma AllLandedExactly(maps: Maps, work: seq<Table>, lp0: Loop, k: nat, i: nat)
    requires Apart(work, lp0) && Todo(work, lp0, i)
    ensures Finished(maps, work, lp0, k, i) <==> AllLanded(maps, work, lp0, k, i)
  {
    if k >= 1 {
      forall j: nat | j < |work[i].rows|
        ensures Fine(maps, work, lp0, k, i, j) <==> Lodged(maps, work, lp0, k, i, j)
      {
        LodgedExactly(maps, work, lp0, k, i, j);
      }
    }
  }

  /** Pass k is the last landing pass of some table, or more rows of it land in pass k than in the pass before. */
  ghost predicate LandsMore(maps: Maps, work: seq<Table>, lp0: Loop, k: nat, i: nat)
    requires Todo(work, lp0, i) && k >= 1
  {
    var n := |work[i].rows|;
    && !AllLanded(maps, work, lp0, k - 1, i)
    && (AllLanded(maps, work, lp0, k, i)
        || LandingCount(maps, work, lp0, k, i, n) > if k == 1 then 0 else LandingCount(maps, work, lp0, k - 1, i, n))
  }

  lemma LandsMoreExactly(maps: Maps, work: seq<Table>, lp0: Loop, k: nat, i: nat)
    requires Apart(work, lp0) && Todo(work, lp0, i) && k >= 1
    ensures LandsMore(maps, work, lp0, k, i) <==> TableGains(maps, work, lp0, k, i)
  {
    AllLandedExactly(maps, work, lp0, k - 1, i);
    AllLandedExactly(maps, work, lp0, k, i);
    CountExactly(maps, work, lp0, k - 1, i, |work[i].rows|);
    CountExactly(maps, work, lp0, k, i, |work[i].rows|);
  }

  ghost predicate SomeLandsMore(maps: Maps, work: seq<Table>, lp0: Loop, k: nat)
    requires k >= 1
  {
    exists i: nat :: Todo(work, lp0, i) && LandsMore(maps, work, lp0, k, i)
  }

  /** No row lands after pass f, and in each pass before it some table lands more than in the pass before. */
  ghost predicate LandsSteadily(maps: Maps, work: seq<Table>, lp0: Loop, f: nat) {
    && (forall i: nat, j: nat | IsRow(work, lp0, i, j) :: !LandsIn(maps, work, lp0, f + 1, i, j))
    && forall k | 1 <= k < f :: SomeLandsMore(maps, work, lp0, k)
  }

  lemma SomeLandsMoreExactly(maps: Maps, work: seq<Table>, lp0: Loop, k: nat)
    requires Apart(work, lp0) && k >= 1
    ensures SomeLandsMore(maps, work, lp0, k) <==> SomeTableGains(maps, work, lp0, k)
  {
    forall i: nat | Todo(work, lp0, i)
      ensures LandsMore(maps, work, lp0, k, i) <==> TableGains(maps, work, lp0, k, i)
    {
      LandsMoreExactly(maps, work, lp0, k, i);
    }
  }

  lemma NoneLandsExactly(maps: Maps, work: seq<Table>, lp0: Loop, k: nat)
    requires Apart(work, lp0)
    ensures Idle(maps, work, lp0, k) <==> forall i: nat, j: nat | IsRow(work, lp0, i, j) :: !LandsIn(maps, work, lp0, k, i, j)
  {
    forall i: nat, j: nat | IsRow(work, lp0, i, j)
      ensures Adds(maps, work, lp0, k, i, j) <==> LandsIn(maps, work, lp0, k, i, j)
    {
      AddedInLandingPass(maps, work, lp0, k, i, j);
    }
  }

  lemma SteadilyExactly(maps: Maps, work: seq<Table>, lp0: Loop, f: nat)
    requires Apart(work, lp0)
    ensures LandsSteadily(maps, work, lp0, f) <==> LandsAll(maps, work, lp0, f)
  {
    NoneLandsExactly(maps, work, lp0, f + 1);
    forall k | 1 <= k < f
      ensures SomeLandsMore(maps, work, lp0, k) <==> SomeTableGains(maps, work, lp0, k)
    {
      SomeLandsMoreExactly(maps, work, lp0, k);
    }
  }

  /** The loop ends with nothing left to add exactly when the landing passes allow it within the budget. */
  lemma LoadedExactly(maps: Maps, work: seq<Table>, lp0: Loop, maxPasses: nat, k: nat)
    requires Named(work) && Apart(work, lp0) && lp0.prev == map[] && Executed(maps, work, lp0, maxPasses, k)
    ensures Complete(maps, work, lp0, Passes(maps, work, lp0, k).st.dst)
            <==> exists f: nat :: f <= maxPasses && LandsSteadily(maps, work, lp0, f)
  {
    LoopCompleteExactly(maps, work, lp0, maxPasses, k);
    forall f: nat
      ensures LandsSteadily(maps, work, lp0, f) <==> LandsAll(maps, work, lp0, f)
    {
      SteadilyExactly(maps, work, lp0, f);
    }
  }
}
