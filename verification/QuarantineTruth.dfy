/** The quarantine is the final truth, and what it does and does not account for. */
module QuarantineTruth {
  import opened Common
  import opened Utf8
  import opened LoadLoop
  import opened LoadTheorems
  import opened Quarantine

  /** The latest attempt recorded under a key. */
  function LastTry(log: seq<Try>, key: QKey): Option<Try> {
    if log == [] then None
    else if KeyOf(log[|log| - 1].t, log[|log| - 1].r) == key then Some(log[|log| - 1])
    else LastTry(log[..|log| - 1], key)
  }

  lemma LastTryAppend(log: seq<Try>, e: Try, key: QKey)
    ensures LastTry(log + [e], key) == if KeyOf(e.t, e.r) == key then Some(e) else LastTry(log, key)
  {
    assert (log + [e])[..|log|] == log;
  }

  /** Quarantined are exactly the keys whose latest attempt failed. */
  ghost predicate BadTruth(s: St) {
    forall key :: key in s.bad <==> LastTry(s.log, key).Some? && LastTry(s.log, key).value.outcome.Fail?
  }

  /** Rows at the destination, by primary key. */
  function Rows(dst: set<Key>): set<Key> { set x | x in dst && x.Ref? }

  /**
   * Attempts concern source rows, successes are settled, a failure would have been one at the
   * start too, and the counter is the growth.
   */
  ghost predicate LogTruth(maps: Maps, work: seq<Table>, lp0: Loop, s: St) {
    && (forall e | e in s.log :: e.t in work && e.r in e.t.rows && OutcomeTruth(maps, lp0, s, e))
    && lp0.st.dst <= s.dst && |Rows(s.dst)| + lp0.st.copied == |Rows(lp0.st.dst)| + s.copied
  }

  ghost predicate OutcomeTruth(maps: Maps, lp0: Loop, s: St, e: Try) {
    if e.outcome.Fail? then Attempt(maps, e.t, e.r, lp0.st.dst).Fail? else Settled(e.t, e.r, s.dst)
  }

  ghost predicate Truth(maps: Maps, work: seq<Table>, lp0: Loop, s: St) {
    BadTruth(s) && LogTruth(maps, work, lp0, s)
  }

  /** How one more attempt changes what the latest attempts are. */
  lemma LastTries(log: seq<Try>, e: Try)
    ensures forall key :: LastTry(log + [e], key) == if KeyOf(e.t, e.r) == key then Some(e) else LastTry(log, key)
  {
    forall key
      ensures LastTry(log + [e], key) == if KeyOf(e.t, e.r) == key then Some(e) else LastTry(log, key)
    {
      LastTryAppend(log, e, key);
    }
  }

  lemma RowBad(maps: Maps, t: Table, r: Row, s: St)
    requires BadTruth(s)
    ensures BadTruth(RowStep(maps, t, r, s))
  {
    LastTries(s.log, Try(t, r, Attempt(maps, t, r, s.dst)));
  }

  lemma RowGrowth(maps: Maps, t: Table, r: Row, s: St)
    ensures var s' := RowStep(maps, t, r, s);
            s.dst <= s'.dst && |Rows(s'.dst)| + s.copied == |Rows(s.dst)| + s'.copied
  {
    var own := Ref(t.name, r.pk);
    OwnKey(t, r);
    assert Rows(s.dst + KeysOf(t, r)) == Rows(s.dst) + {own};
    if own in s.dst { assert own in KeysOf(t, r) * s.dst; }
  }

  lemma RowLog(maps: Maps, work: seq<Table>, lp0: Loop, t: Table, r: Row, s: St)
    requires LogTruth(maps, work, lp0, s) && t in work && r in t.rows
    ensures LogTruth(maps, work, lp0, RowStep(maps, t, r, s))
  {
    var s' := RowStep(maps, t, r, s);
    RowGrowth(maps, t, r, s);
    forall e | e in s'.log
      ensures e.t in work && e.r in e.t.rows && OutcomeTruth(maps, lp0, s', e)
    {
      if e in s.log {
        if Settled(e.t, e.r, s.dst) { SettledGrows(e.t, e.r, s.dst, s'.dst); }
      } else {
        NewOutcome(maps, lp0, t, r, s);
      }
    }
  }

  lemma NewOutcome(maps: Maps, lp0: Loop, t: Table, r: Row, s: St)
    requires lp0.st.dst <= s.dst
    ensures OutcomeTruth(maps, lp0, RowStep(maps, t, r, s), Try(t, r, Attempt(maps, t, r, s.dst)))
  {
    if !Attempt(maps, t, r, lp0.st.dst).Fail? { AttemptMonotone(maps, t, r, lp0.st.dst, s.dst); }
    if !Attempt(maps, t, r, s.dst).Fail? { RowSettles(maps, t, r, s); }
  }

  lemma RowTruth(maps: Maps, work: seq<Table>, lp0: Loop, t: Table, r: Row, s: St)
    requires Truth(maps, work, lp0, s) && t in work && r in t.rows
    ensures Truth(maps, work, lp0, RowStep(maps, t, r, s))
  {
    RowBad(maps, t, r, s);
    RowLog(maps, work, lp0, t, r, s);
  }

  lemma {:induction false} SweepTruth(maps: Maps, work: seq<Table>, lp0: Loop, t: Table, n: nat, s: St)
    requires Truth(maps, work, lp0, s) && t in work && n <= |t.rows|
    ensures Truth(maps, work, lp0, Sweep(maps, t, n, s))
    decreases n
  {
    if n > 0 {
      SweepTruth(maps, work, lp0, t, n - 1, s);
      RowTruth(maps, work, lp0, t, t.rows[n - 1], Sweep(maps, t, n - 1, s));
    }
  }

  lemma {:induction false} PassTruth(maps: Maps, work: seq<Table>, lp0: Loop, n: nat, lp: Loop)
    requires Truth(maps, work, lp0, lp.st) && n <= |work|
    ensures Truth(maps, work, lp0, PassOver(maps, work, n, lp).st)
  {
    if n > 0 {
      PassTruth(maps, work, lp0, n - 1, lp);
      SweepTruth(maps, work, lp0, work[n - 1], |work[n - 1].rows|, PassOver(maps, work, n - 1, lp).st);
    }
  }

  lemma {:induction false} PassesTruth(maps: Maps, work: seq<Table>, lp0: Loop, k: nat)
    requires Starts(lp0)
    ensures Truth(maps, work, lp0, Passes(maps, work, lp0, k).st)
  {
    if k > 0 {
      PassesTruth(maps, work, lp0, k - 1);
      PassTruth(maps, work, lp0, |work|, Passes(maps, work, lp0, k - 1));
    }
  }

  /** Quarantined after any number of passes means: the latest attempt under that key failed. */
  lemma QuarantineIsLatestFailure(maps: Maps, work: seq<Table>, lp0: Loop, k: nat, key: QKey)
    requires Starts(lp0)
    ensures var s := Passes(maps, work, lp0, k).st;
            key in s.bad <==> LastTry(s.log, key).Some? && LastTry(s.log, key).value.outcome.Fail?
  {
    PassesTruth(maps, work, lp0, k);
  }

  /** RowsCopied counts the merge rows copied before and the rows newly present. */
  lemma RowsCopiedIsGrowth(maps: Maps, work: seq<Table>, lp0: Loop, k: nat)
    requires Starts(lp0)
    ensures var s := Passes(maps, work, lp0, k).st;
            lp0.st.dst <= s.dst && s.copied == lp0.st.copied + |Rows(s.dst - lp0.st.dst)|
  {
    PassesTruth(maps, work, lp0, k);
    var s := Passes(maps, work, lp0, k).st;
    assert Rows(s.dst) == Rows(lp0.st.dst) + Rows(s.dst - lp0.st.dst);
  }

  // ---------- which row the latest attempt under a key is about ----------

  /** Index of the last of the first n rows with this quarantine key. */
  function LastRow(t: Table, n: nat, key: QKey): (j: Option<nat>)
    requires n <= |t.rows|
    ensures j.Some? ==> j.value < n && KeyOf(t, t.rows[j.value]) == key
  {
    if n == 0 then None
    else if KeyOf(t, t.rows[n - 1]) == key then Some(n - 1)
    else LastRow(t, n - 1, key)
  }

  lemma LastRowExists(t: Table, n: nat, j: nat)
    requires j < n <= |t.rows|
    ensures LastRow(t, n, KeyOf(t, t.rows[j])).Some?
  {
  }

  ghost predicate TryOf(log: seq<Try>, key: QKey, t: Table, j: nat)
    requires j < |t.rows|
  {
    IsTry(LastTry(log, key), t, t.rows[j])
  }

  predicate IsTry(e: Option<Try>, t: Table, r: Row) { e.Some? && e.value.t == t && e.value.r == r }

  lemma RowLast(maps: Maps, t: Table, r: Row, s: St, key: QKey)
    ensures LastTry(RowStep(maps, t, r, s).log, key) ==
            if KeyOf(t, r) == key then Some(Try(t, r, Attempt(maps, t, r, s.dst))) else LastTry(s.log, key)
  {
    LastTryAppend(s.log, Try(t, r, Attempt(maps, t, r, s.dst)), key);
  }

  /** The latest attempt e under a key after n rows, when it was e0 before the sweep. */
  predicate SweptTo(t: Table, n: nat, key: QKey, e0: Option<Try>, e: Option<Try>)
    requires n <= |t.rows|
  {
    var j := LastRow(t, n, key);
    if j.Some? then IsTry(e, t, t.rows[j.value]) else e == e0
  }

  lemma SweptToNext(t: Table, n: nat, key: QKey, e0: Option<Try>, e: Option<Try>, o: Outcome)
    requires n < |t.rows| && SweptTo(t, n, key, e0, e)
    ensures SweptTo(t, n + 1, key, e0, if KeyOf(t, t.rows[n]) == key then Some(Try(t, t.rows[n], o)) else e)
  {
  }

  lemma {:induction false} SweepLast(maps: Maps, t: Table, n: nat, s: St, key: QKey)
    requires n <= |t.rows|
    ensures SweptTo(t, n, key, LastTry(s.log, key), LastTry(Sweep(maps, t, n, s).log, key))
  {
    if n > 0 {
      var before := Sweep(maps, t, n - 1, s);
      SweepLast(maps, t, n - 1, s, key);
      RowLast(maps, t, t.rows[n - 1], before, key);
      SweptToNext(t, n - 1, key, LastTry(s.log, key), LastTry(before.log, key), Attempt(maps, t, t.rows[n - 1], before.dst));
    }
  }

  /** In tables done or visited in this pass, the latest attempt under a key is about the last row with it. */
  ghost predicate VisitedLast(work: seq<Table>, lp0: Loop, n: nat, lp: Loop, key: QKey) {
    forall i | Todo(work, lp0, i) && (i < n || work[i].name in lp.done) ::
      LastTriedAt(work[i], lp.st.log, key)
  }

  ghost predicate LastTriedAt(t: Table, log: seq<Try>, key: QKey) {
    LastRow(t, |t.rows|, key).Some? ==> TryOf(log, key, t, LastRow(t, |t.rows|, key).value)
  }

  /** A key carries the name of its table, so other tables leave it alone. */
  lemma OtherTable(maps: Maps, t: Table, u: Table, s: St, key: QKey)
    requires t.name != u.name && LastTriedAt(u, s.log, key)
    ensures LastTriedAt(u, SweepAll(maps, t, s).log, key)
  {
    SweepLast(maps, t, |t.rows|, s, key);
  }

  lemma StepLast(maps: Maps, work: seq<Table>, lp0: Loop, n: nat, at: Loop, key: QKey)
    requires Named(work) && n < |work| && VisitedLast(work, lp0, n, at, key)
    ensures VisitedLast(work, lp0, n + 1, TableStep(maps, work[n], at), key)
  {
    var after := TableStep(maps, work[n], at);
    forall i | Todo(work, lp0, i) && (i < n + 1 || work[i].name in after.done)
      ensures LastTriedAt(work[i], after.st.log, key)
    {
      if work[n].name !in at.done {
        if i == n {
          SweepLast(maps, work[n], |work[n].rows|, at.st, key);
        } else {
          OtherTable(maps, work[n], work[i], at.st, key);
        }
      }
    }
  }

  lemma {:induction false} PassLast(maps: Maps, work: seq<Table>, lp0: Loop, n: nat, lp: Loop, key: QKey)
    requires Named(work) && n <= |work| && VisitedLast(work, lp0, 0, lp, key)
    ensures VisitedLast(work, lp0, n, PassOver(maps, work, n, lp), key)
  {
    if n > 0 {
      PassLast(maps, work, lp0, n - 1, lp, key);
      StepLast(maps, work, lp0, n - 1, PassOver(maps, work, n - 1, lp), key);
    }
  }

  lemma {:induction false} PassesLast(maps: Maps, work: seq<Table>, lp0: Loop, k: nat, key: QKey)
    requires Named(work)
    ensures VisitedLast(work, lp0, if k == 0 then 0 else |work|, Passes(maps, work, lp0, k), key)
  {
    if k > 0 {
      PassesLast(maps, work, lp0, k - 1, key);
      var lp := Passes(maps, work, lp0, k - 1);
      assert VisitedLast(work, lp0, 0, lp, key);
      PassLast(maps, work, lp0, |work|, lp, key);
    }
  }

  /** After the first pass the latest attempt under a row's key is about the last row with that key. */
  lemma LatestAttempt(maps: Maps, work: seq<Table>, lp0: Loop, k: nat, i: nat, j: nat)
    requires Named(work) && k >= 1 && Todo(work, lp0, i) && j < |work[i].rows|
    ensures var t, key := work[i], KeyOf(work[i], work[i].rows[j]);
            LastRow(t, |t.rows|, key).Some?
            && TryOf(Passes(maps, work, lp0, k).st.log, key, t, LastRow(t, |t.rows|, key).value)
  {
    LastRowExists(work[i], |work[i].rows|, j);
    PassesLast(maps, work, lp0, k, KeyOf(work[i], work[i].rows[j]));
    assert LastTriedAt(work[i], Passes(maps, work, lp0, k).st.log, KeyOf(work[i], work[i].rows[j]));
  }

  // ---------- is every row accounted for? ----------

  /** Keys that show where a row went: its own row, or also the rows that absorbed it. */
  function Evidence(t: Table, r: Row, ownRow: bool): set<Key> {
    if ownRow then {Ref(t.name, r.pk)} else KeysOf(t, r)
  }

  /** After k passes the row is at the destination (or absorbed there), or quarantined. */
  ghost predicate Accounted(maps: Maps, work: seq<Table>, lp0: Loop, k: nat, i: nat, j: nat, ownRow: bool)
    requires i < |work| && j < |work[i].rows|
  {
    var s := Passes(maps, work, lp0, k).st;
    Evidence(work[i], work[i].rows[j], ownRow) * s.dst != {} || KeyOf(work[i], work[i].rows[j]) in s.bad
  }

  /** The last row recorded under the same quarantine key takes no key but the row's evidence. */
  predicate Traceable(t: Table, j: nat, ownRow: bool)
    requires j < |t.rows|
  {
    var last := LastRow(t, |t.rows|, KeyOf(t, t.rows[j]));
    last.Some? && KeysOf(t, t.rows[last.value]) <= Evidence(t, t.rows[j], ownRow)
  }

  lemma TraceableIsAccounted(maps: Maps, work: seq<Table>, lp0: Loop, k: nat, i: nat, j: nat, ownRow: bool)
    requires Named(work) && Starts(lp0) && k >= 1 && Todo(work, lp0, i) && j < |work[i].rows|
    requires Traceable(work[i], j, ownRow)
    ensures Accounted(maps, work, lp0, k, i, j, ownRow)
  {
    var s, key := Passes(maps, work, lp0, k).st, KeyOf(work[i], work[i].rows[j]);
    PassesTruth(maps, work, lp0, k);
    LatestAttempt(maps, work, lp0, k, i, j);
    var e := LastTry(s.log, key).value;
    LastTryInLog(s.log, key);
    if !e.outcome.Fail? {
      assert Settled(e.t, e.r, s.dst);
      var x :| x in KeysOf(e.t, e.r) * s.dst;
      assert x in Evidence(work[i], work[i].rows[j], ownRow) * s.dst;
    }
  }

  lemma LastTryInLog(log: seq<Try>, key: QKey)
    requires LastTry(log, key).Some?
    ensures LastTry(log, key).value in log
  {
  }

  // ---------- the same texts under any circumstances ----------

  /** Same tables and cells; validity, references and the tables known to the destination may differ. */
  ghost predicate SameTexts(v: seq<Table>, w: seq<Table>) {
    && |v| == |w|
    && forall i | 0 <= i < |w| ::
         v[i].name == w[i].name && |v[i].rows| == |w[i].rows|
         && forall j | 0 <= j < |w[i].rows| :: SameCells(v[i].rows[j], w[i].rows[j])
  }

  predicate SameCells(a: Row, b: Row) { a.pk == b.pk && a.uniq == b.uniq && a.cells == b.cells }

  lemma {:induction false} LastRowSame(t: Table, u: Table, n: nat, key: QKey)
    requires t.name == u.name && n <= |t.rows| == |u.rows| && forall j | 0 <= j < |t.rows| :: SameCells(t.rows[j], u.rows[j])
    ensures LastRow(t, n, key) == LastRow(u, n, key)
  {
    if n > 0 {
      LastRowSame(t, u, n - 1, key);
      assert SameCells(t.rows[n - 1], u.rows[n - 1]);
    }
  }

  lemma TraceableSame(v: seq<Table>, w: seq<Table>, i: nat, j: nat, ownRow: bool)
    requires SameTexts(v, w) && i < |w| && j < |w[i].rows|
    ensures Traceable(v[i], j, ownRow) <==> Traceable(w[i], j, ownRow)
  {
    assert SameCells(v[i].rows[j], w[i].rows[j]);
    var key := KeyOf(w[i], w[i].rows[j]);
    LastRowSame(v[i], w[i], |w[i].rows|, key);
    LastRowExists(w[i], |w[i].rows|, j);
    var l := LastRow(w[i], |w[i].rows|, key).value;
    assert SameCells(v[i].rows[l], w[i].rows[l]);
  }

  /** Only row l of table i is good; it refers to nothing. */
  function Lone(w: seq<Table>, i: nat, l: nat): (v: seq<Table>)
    ensures |v| == |w|
  {
    seq(|w|, h requires 0 <= h < |w| =>
      Table(w[h].name, false, seq(|w[h].rows|, m requires 0 <= m < |w[h].rows| =>
        w[h].rows[m].(valid := h == i && m == l, deps := [], fks := {}))))
  }

  /** A row that is not traceable gets lost when the last row under its key is absorbed elsewhere and all others fail. */
  lemma UntraceableIsLost(w: seq<Table>, done: set<string>, i: nat, j: nat, ownRow: bool)
    returns (v: seq<Table>, lp0: Loop)
    requires Named(w) && i < |w| && w[i].name !in done && j < |w[i].rows| && !Traceable(w[i], j, ownRow)
    ensures SameTexts(v, w) && Starts(lp0) && lp0.done == done && Todo(v, lp0, i)
    ensures !Accounted(map[], v, lp0, 1, i, j, ownRow)
  {
    var t, key := w[i], KeyOf(w[i], w[i].rows[j]);
    LastRowExists(t, |t.rows|, j);
    var l := LastRow(t, |t.rows|, key).value;
    var x :| x in KeysOf(t, t.rows[l]) && x !in Evidence(t, t.rows[j], ownRow);
    v, lp0 := Lone(w, i, l), Begin({x}, done, 0);
    LoneStays(w, i, l, x, lp0);
    LoneLatest(w, i, j, l, x, lp0);
  }

  lemma LoneAttempt(w: seq<Table>, i: nat, l: nat, x: Key, h: nat, m: nat)
    requires i < |w| && l < |w[i].rows| && x in KeysOf(w[i], w[i].rows[l]) && h < |w| && m < |w[h].rows|
    ensures Attempt(map[], Lone(w, i, l)[h], Lone(w, i, l)[h].rows[m], {x}) == if (h, m) == (i, l) then Absorb else Fail
  {
    var v := Lone(w, i, l);
    assert Needs(map[], v[h].rows[m], 0) == Some({});
    if (h, m) == (i, l) { assert x in KeysOf(v[h], v[h].rows[m]) * {x}; }
  }

  lemma LoneStays(w: seq<Table>, i: nat, l: nat, x: Key, lp0: Loop)
    requires Named(w) && i < |w| && l < |w[i].rows| && x in KeysOf(w[i], w[i].rows[l]) && lp0.st.dst == {x}
    ensures Passes(map[], Lone(w, i, l), lp0, 1).st.dst == {x}
  {
    var v := Lone(w, i, l);
    forall h, m | Todo(v, lp0, h) && 0 <= m < |v[h].rows|
      ensures !Attempt(map[], v[h], v[h].rows[m], {x}).Add?
    {
      LoneAttempt(w, i, l, x, h, m);
    }
    assert Passes(map[], v, lp0, 0) == lp0;
    PassStays(map[], v, lp0, |v|, lp0);
  }

  lemma LoneLatest(w: seq<Table>, i: nat, j: nat, l: nat, x: Key, lp0: Loop)
    requires Named(w) && Starts(lp0) && i < |w| && w[i].name !in lp0.done && j < |w[i].rows|
    requires LastRow(w[i], |w[i].rows|, KeyOf(w[i], w[i].rows[j])) == Some(l)
    requires x in KeysOf(w[i], w[i].rows[l]) && lp0.st.dst == {x}
    ensures KeyOf(w[i], w[i].rows[j]) !in Passes(map[], Lone(w, i, l), lp0, 1).st.bad
  {
    var v, key := Lone(w, i, l), KeyOf(w[i], w[i].rows[j]);
    assert SameCells(v[i].rows[j], w[i].rows[j]);
    LastRowSame(v[i], w[i], |w[i].rows|, key);
    LatestAttempt(map[], v, lp0, 1, i, j);
    PassesTruth(map[], v, lp0, 1);
    LastTryInLog(Passes(map[], v, lp0, 1).st.log, key);
    LoneAttempt(w, i, l, x, i, l);
  }

  // ---------- main results ----------

  /** Every row of these texts is accounted for, whatever is valid, refers to what, and is there already. */
  ghost predicate NothingLost(work: seq<Table>, done: set<string>, ownRow: bool) {
    forall maps: Maps, v: seq<Table>, lp0: Loop, k: nat, i: nat, j: nat |
      SameTexts(v, work) && Starts(lp0) && lp0.done == done && k >= 1 && Todo(v, lp0, i) && j < |v[i].rows| ::
      Accounted(maps, v, lp0, k, i, j, ownRow)
  }

  /**
   * "Never silently drop": every row is at the destination, absorbed by a row holding one of its
   * unique keys, or quarantined, exactly when the last row recorded under each quarantine key has
   * no unique key that another row recorded under it lacks.  With `ownRow`, absorption by another
   * row does not count: then no row may have unique keys besides the primary key either.
   */
  lemma EveryRowAccountedExactly(work: seq<Table>, done: set<string>, ownRow: bool)
    requires Named(work)
    ensures NothingLost(work, done, ownRow) <==>
            forall i, j | 0 <= i < |work| && work[i].name !in done && 0 <= j < |work[i].rows| :: Traceable(work[i], j, ownRow)
  {
    if i, j :| 0 <= i < |work| && work[i].name !in done && 0 <= j < |work[i].rows| && !Traceable(work[i], j, ownRow) {
      UntraceableLosesSomething(work, done, i, j, ownRow);
    } else if !NothingLost(work, done, ownRow) {
      var maps: Maps, v: seq<Table>, lp0: Loop, k: nat, i: nat, j: nat :|
        SameTexts(v, work) && Starts(lp0) && lp0.done == done && k >= 1 && Todo(v, lp0, i) && j < |v[i].rows|
        && !Accounted(maps, v, lp0, k, i, j, ownRow);
      TraceableSame(v, work, i, j, ownRow);
      LostIsUntraceable(maps, v, lp0, k, i, j, ownRow);
    }
  }

  lemma UntraceableLosesSomething(work: seq<Table>, done: set<string>, i: nat, j: nat, ownRow: bool)
    requires Named(work) && i < |work| && work[i].name !in done && j < |work[i].rows| && !Traceable(work[i], j, ownRow)
    ensures !NothingLost(work, done, ownRow)
  {
    var maps: Maps := map[];
    var v, lp0 := UntraceableIsLost(work, done, i, j, ownRow);
    assert SameTexts(v, work) && j < |v[i].rows| && !Accounted(maps, v, lp0, 1, i, j, ownRow);
  }

  lemma LostIsUntraceable(maps: Maps, work: seq<Table>, lp0: Loop, k: nat, i: nat, j: nat, ownRow: bool)
    requires Named(work) && Starts(lp0) && k >= 1 && Todo(work, lp0, i) && j < |work[i].rows|
    requires !Accounted(maps, work, lp0, k, i, j, ownRow)
    ensures !Traceable(work[i], j, ownRow)
  {
    if Traceable(work[i], j, ownRow) { TraceableIsAccounted(maps, work, lp0, k, i, j, ownRow); }
  }

  /** The ordinary case: distinct, well-formed primary keys that quarantine records keep whole. */
  lemma ShortKeysAccounted(maps: Maps, work: seq<Table>, lp0: Loop, k: nat, i: nat, j: nat)
    requires Named(work) && Starts(lp0) && k >= 1 && Todo(work, lp0, i) && j < |work[i].rows|
    requires forall m | 0 <= m < |work[i].rows| :: |work[i].rows[m].pk| <= 300 && WellFormed(work[i].rows[m].pk)
    requires forall m, n | 0 <= m < n < |work[i].rows| :: work[i].rows[m].pk != work[i].rows[n].pk
    ensures Accounted(maps, work, lp0, k, i, j, false)
  {
    var t := work[i];
    LastRowExists(t, |t.rows|, j);
    var l := LastRow(t, |t.rows|, KeyOf(t, t.rows[j])).value;
    var a, b := [t.rows[j].pk] + t.rows[j].cells, [t.rows[l].pk] + t.rows[l].cells;
    assert QuarRow(a)[0] == Recorded(a[0]) == a[0] && QuarRow(b)[0] == Recorded(b[0]) == b[0];
    assert l == j;
    TraceableIsAccounted(maps, work, lp0, k, i, j, false);
  }

  /** What the quarantine compares: the table, and what is recorded of the primary key and of every other cell. */
  lemma SameKeyExactly(t: Table, u: Table, a: Row, b: Row)
    ensures KeyOf(t, a) == KeyOf(u, b) <==>
            && t.name == u.name && Recorded(a.pk) == Recorded(b.pk) && |a.cells| == |b.cells|
            && forall i | 0 <= i < |a.cells| :: Recorded(a.cells[i]) == Recorded(b.cells[i])
  {
    var x, y := [a.pk] + a.cells, [b.pk] + b.cells;
    assert x[0] == a.pk && y[0] == b.pk;
    assert forall i | 0 <= i < |a.cells| :: x[i + 1] == a.cells[i];
    assert forall i | 0 <= i < |b.cells| :: y[i + 1] == b.cells[i];
    if KeyOf(t, a) == KeyOf(u, b) {
      forall i | 0 <= i < |a.cells|
        ensures Recorded(a.cells[i]) == Recorded(b.cells[i])
      {
        assert QuarRow(x)[i + 1] == QuarRow(y)[i + 1];
      }
      assert QuarRow(x)[0] == QuarRow(y)[0];
    }
  }

  // ---------- two rows that get lost ----------

  function Fill(n: nat): string { seq(n, _ => 'x') }

  /** Keys that differ after the 300th byte. */
  function LongKey(last: char): string { Fill(300) + [last] }

  /** Keys that end in a three-byte character of which two bytes are kept. */
  function CutKey(second: char, third: char): string { Fill(298) + ['\U{E2}', second, third] }

  lemma LongKeysConfused()
    ensures LongKey('1') != LongKey('2') && Recorded(LongKey('1')) == Recorded(LongKey('2'))
  {
    var a, b := LongKey('1'), LongKey('2');
    assert a[300] != b[300] && a[..300] == Fill(300) == b[..300];
    RecordConfusesExactly(a, b);
  }

  /** The euro sign and the sign for degrees Celsius: the kept bytes differ, what is recorded does not. */
  lemma CutKeysConfused()
    ensures var a, b := CutKey('\U{82}', '\U{AC}'), CutKey('\U{84}', '\U{83}');
            a[..300] != b[..300] && Recorded(a) == Recorded(b)
  {
    var a, b := CutKey('\U{82}', '\U{AC}'), CutKey('\U{84}', '\U{83}');
    assert a[..300][299] != b[..300][299];
    HalfCharacter(a, '\U{82}');
    HalfCharacter(b, '\U{84}');
    RecordConfusesExactly(a, b);
  }

  lemma HalfCharacter(s: string, second: char)
    requires |s| > 300 && s[..298] == Fill(298) && s[298] == '\U{E2}' && s[299] == second
    requires 0x80 <= second as int <= 0xBF
    ensures Blank(s[..300]) == Fill(298) + [BAD, BAD]
  {
    var tail := ['\U{E2}', second];
    assert s[..300] == Fill(298) + tail;
    BlankPlain(Fill(298), tail);
    assert tail[1..] == [second] && [second][1..] == "" && CharLen(tail) == 0 && CharLen([second]) == 0;
    assert Blank([second]) == [BAD];
  }

  /** A failing row before a good one. */
  function PairTable(a: string, b: string): Table {
    Table("t", false, [Row(a, {}, [], [], {}, false), Row(b, {}, [], [], {}, true)])
  }

  lemma OnePass(maps: Maps, t: Table, lp0: Loop)
    requires t.name !in lp0.done
    ensures Passes(maps, [t], lp0, 1).st == SweepAll(maps, t, lp0.st)
  {
    var at := lp0.(progress := false, allDone := true);
    assert PassOver(maps, [t], 0, lp0) == at && PassOver(maps, [t], 1, lp0) == TableStep(maps, t, at);
    assert Passes(maps, [t], lp0, 0) == lp0 && Passes(maps, [t], lp0, 1) == Pass(maps, [t], lp0);
  }

  lemma FailThenAdd(t: Table, s: St)
    requires |t.rows| == 2 && !t.absent && !t.rows[0].valid && t.rows[1].valid
    requires t.rows[1].deps == [] && t.rows[1].fks == {} && !Settled(t, t.rows[1], s.dst)
    requires KeyOf(t, t.rows[0]) == KeyOf(t, t.rows[1])
    ensures SweepAll(map[], t, s).dst == s.dst + KeysOf(t, t.rows[1])
    ensures SweepAll(map[], t, s).bad == s.bad - {KeyOf(t, t.rows[0])}
  {
    var s1 := RowStep(map[], t, t.rows[0], s);
    assert Sweep(map[], t, 0, s) == s && Sweep(map[], t, 1, s) == s1;
    assert SweepAll(map[], t, s) == RowStep(map[], t, t.rows[1], s1);
    assert Needs(map[], t.rows[1], 0) == Some({});
  }

  /**
   * Two keys confused in the record: the good row's copy clears the failing row's record, so one
   * is present and the other leaves no trace.
   */
  lemma ConfusedRowsLoseEvidence(a: string, b: string, t: Table, lp0: Loop)
    requires a != b && Recorded(a) == Recorded(b) && t == PairTable(a, b) && lp0 == Begin({}, {}, 0)
    ensures var s := Passes(map[], [t], lp0, 1).st;
            s.dst == {Ref("t", b)} && s.bad == {}
  {
    assert QuarRow([a] + []) == QuarRow([b] + []);
    OnePass(map[], t, lp0);
    FailThenAdd(t, lp0.st);
    assert KeysOf(t, t.rows[1]) == {Ref("t", b)};
  }

  /** A user whose address another user already has. */
  function TakenAddress(): Table {
    Table("users", false, [Row("u2", {"email=a"}, ["a"], [], {}, true)])
  }

  lemma OneAbsorbed(t: Table, s: St)
    requires |t.rows| == 1 && !t.absent && t.rows[0].valid && t.rows[0].deps == [] && Settled(t, t.rows[0], s.dst)
    ensures SweepAll(map[], t, s).dst == s.dst && SweepAll(map[], t, s).bad == s.bad - {KeyOf(t, t.rows[0])}
  {
    assert Sweep(map[], t, 0, s) == s && SweepAll(map[], t, s) == RowStep(map[], t, t.rows[0], s);
    assert Needs(map[], t.rows[0], 0).Some?;
  }

  /** The row is absorbed: it is neither present nor quarantined. */
  lemma {:induction false} TakenAddressLosesRow(t: Table, lp0: Loop)
    requires t == TakenAddress() && lp0 == Begin({Ref("users", "u1"), Uniq("users", "email=a")}, {}, 0)
    ensures var s := Passes(map[], [t], lp0, 1).st;
            Ref("users", "u2") !in s.dst && s.bad == {}
  {
    assert Uniq("users", "email=a") in KeysOf(t, t.rows[0]) * lp0.st.dst;
    OnePass(map[], t, lp0);
    OneAbsorbed(t, lp0.st);
  }
}
