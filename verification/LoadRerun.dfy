/**
 * The load loop over any quarantine table: what the table holds after each pass, read off the
 * data and the leftovers alone.
 */
module LoadRerun {
  import opened Common
  import opened LoadLoop
  import opened LoadTheorems
  import opened Quarantine
  import opened QuarantineRerun
  import opened QuarantineTruth
  import opened Turns

  // ---------- the log and its events ----------

  /** The latest attempt under the key failed. */
  predicate LatestFails(log: seq<Try>, key: QKey) {
    LastTry(log, key).Some? && LastTry(log, key).value.outcome.Fail?
  }

  lemma {:induction false} FailingIsLatest(maps: Maps, log: seq<Try>, key: QKey)
    ensures Failing(EventLog(maps, log), key) <==> LatestFails(log, key)
  {
    if log != [] {
      var before, e := log[..|log| - 1], log[|log| - 1];
      FailingIsLatest(maps, before, key);
      var events := EventLog(maps, before);
      assert (events + [EventOf(maps, e)])[..|events|] == events;
    }
  }

  /** An attempt that failed under the key for a reason the starting table does not hold. */
  predicate IsAnew(maps: Maps, start: set<Entry>, e: Try, key: QKey) {
    e.outcome.Fail? && KeyOf(e.t, e.r) == key && Entry(key, Reason(maps, e.t, e.r)) !in start
  }

  ghost predicate AnewInLog(maps: Maps, start: set<Entry>, log: seq<Try>, key: QKey) {
    exists e :: e in log && IsAnew(maps, start, e, key)
  }

  lemma AnewNext(maps: Maps, start: set<Entry>, log: seq<Try>, last: Try, key: QKey)
    ensures AnewInLog(maps, start, log + [last], key) <==> AnewInLog(maps, start, log, key) || IsAnew(maps, start, last, key)
  {
    if AnewInLog(maps, start, log, key) {
      var e :| e in log && IsAnew(maps, start, e, key);
      assert e in log + [last];
    }
    assert last in log + [last];
  }

  lemma FailedAnewNext(start: set<Entry>, events: seq<Event>, e: Event, key: QKey)
    ensures FailedAnew(start, events + [e], key) <==>
            FailedAnew(start, events, key) || (e.Failed? && e.entry.key == key && e.entry !in start)
  {
    assert (events + [e])[..|events|] == events;
  }

  lemma AnewEvent(maps: Maps, start: set<Entry>, e: Try, key: QKey)
    ensures var event := EventOf(maps, e);
            IsAnew(maps, start, e, key) <==> event.Failed? && event.entry.key == key && event.entry !in start
  {
  }

  lemma {:induction false} AnewIsLogged(maps: Maps, start: set<Entry>, log: seq<Try>, key: QKey)
    ensures FailedAnew(start, EventLog(maps, log), key) <==> AnewInLog(maps, start, log, key)
  {
    if log != [] {
      var before, last := log[..|log| - 1], log[|log| - 1];
      AnewIsLogged(maps, start, before, key);
      FailedAnewNext(start, EventLog(maps, before), EventOf(maps, last), key);
      AnewEvent(maps, start, last, key);
      AnewNext(maps, start, before, last, key);
      assert log == before + [last];
    }
  }

  // ---------- attempts, turn by turn ----------

  /** An attempt at the turn of row j of table i in pass k. */
  ghost predicate TryAt(maps: Maps, work: seq<Table>, lp0: Loop, k: nat, i: nat, j: nat, e: Try)
    requires IsRow(work, lp0, i, j)
  {
    e.t == work[i] && e.r == work[i].rows[j] && (e.outcome.Fail? <==> !Fine(maps, work, lp0, k, i, j))
  }

  lemma TurnTry(maps: Maps, work: seq<Table>, lp0: Loop, k: nat, i: nat, j: nat, s: St) returns (e: Try)
    requires IsRow(work, lp0, i, j) && k >= 1 && Matches(maps, work, lp0, k, i, j, s.dst)
    ensures RowStep(maps, work[i], work[i].rows[j], s).log == s.log + [e] && TryAt(maps, work, lp0, k, i, j, e)
  {
    e := Try(work[i], work[i].rows[j], Attempt(maps, work[i], work[i].rows[j], s.dst));
    TurnExactly(maps, work, lp0, k, i, j, s.dst);
  }

  /** Whether the latest attempt failed, after n rows of table i in pass k, when it stood at `before` at the start. */
  ghost predicate SweptLatest(maps: Maps, work: seq<Table>, lp0: Loop, k: nat, i: nat, n: nat, key: QKey, before: bool, fails: bool)
    requires Todo(work, lp0, i) && n <= |work[i].rows|
  {
    var j := LastRow(work[i], n, key);
    fails <==> if j.Some? then !Fine(maps, work, lp0, k, i, j.value) else before
  }

  lemma SweptLatestNext(maps: Maps, work: seq<Table>, lp0: Loop, k: nat, i: nat, n: nat, m: nat, key: QKey,
                        before: bool, fails: bool, fails': bool)
    requires IsRow(work, lp0, i, n) && m == n + 1 && SweptLatest(maps, work, lp0, k, i, n, key, before, fails)
    requires fails' <==> if KeyOf(work[i], work[i].rows[n]) == key then !Fine(maps, work, lp0, k, i, n) else fails
    ensures SweptLatest(maps, work, lp0, k, i, m, key, before, fails')
  {
  }

  lemma LatestNext(log: seq<Try>, e: Try, key: QKey)
    ensures LatestFails(log + [e], key) <==> if KeyOf(e.t, e.r) == key then e.outcome.Fail? else LatestFails(log, key)
  {
    LastTryAppend(log, e, key);
  }

  lemma RowLatest(maps: Maps, work: seq<Table>, lp0: Loop, k: nat, i: nat, n: nat, m: nat, key: QKey, before: bool, s: St, s': St)
    requires IsRow(work, lp0, i, n) && m == n + 1 && k >= 1 && Matches(maps, work, lp0, k, i, n, s.dst)
    requires SweptLatest(maps, work, lp0, k, i, n, key, before, LatestFails(s.log, key))
    requires s' == RowStep(maps, work[i], work[i].rows[n], s)
    ensures SweptLatest(maps, work, lp0, k, i, m, key, before, LatestFails(s'.log, key))
  {
    var e := TurnTry(maps, work, lp0, k, i, n, s);
    LatestNext(s.log, e, key);
    SweptLatestNext(maps, work, lp0, k, i, n, m, key, before, LatestFails(s.log, key), LatestFails(s'.log, key));
  }

  /** A sweep up to its n-th row. */
  lemma SweepUpTo(maps: Maps, work: seq<Table>, lp0: Loop, k: nat, i: nat, n: nat, s: St, at: St)
    requires Todo(work, lp0, i) && n <= |work[i].rows| && k >= 1 && Matches(maps, work, lp0, k, i, 0, s.dst)
    requires at == Sweep(maps, work[i], n, s)
    ensures Matches(maps, work, lp0, k, i, n, at.dst)
  {
    SweepTurns(maps, work, lp0, k, i, n, s);
  }

  lemma {:induction false} SweepLatest(maps: Maps, work: seq<Table>, lp0: Loop, k: nat, i: nat, n: nat, s: St, at: St, key: QKey)
    requires Todo(work, lp0, i) && n <= |work[i].rows| && k >= 1 && Matches(maps, work, lp0, k, i, 0, s.dst)
    requires at == Sweep(maps, work[i], n, s)
    ensures SweptLatest(maps, work, lp0, k, i, n, key, LatestFails(s.log, key), LatestFails(at.log, key))
  {
    if n > 0 {
      var before := Sweep(maps, work[i], n - 1, s);
      SweepLatest(maps, work, lp0, k, i, n - 1, s, before, key);
      SweepUpTo(maps, work, lp0, k, i, n - 1, s, before);
      RowLatest(maps, work, lp0, k, i, n - 1, n, key, LatestFails(s.log, key), before, at);
    }
  }

  /** The log has the attempt of this turn. */
  ghost predicate TurnTried(maps: Maps, work: seq<Table>, lp0: Loop, k: nat, i: nat, j: nat, log: seq<Try>)
    requires IsRow(work, lp0, i, j)
  {
    exists e :: e in log && TryAt(maps, work, lp0, k, i, j, e)
  }

  /** Every attempt of a sweep belongs to a turn, and every turn has its attempt. */
  ghost predicate SweptLog(maps: Maps, work: seq<Table>, lp0: Loop, k: nat, i: nat, n: nat, log0: seq<Try>, log: seq<Try>)
    requires Todo(work, lp0, i) && n <= |work[i].rows|
  {
    && (forall e | e in log0 :: e in log)
    && (forall e | e in log && e !in log0 :: exists j: nat :: j < n && TryAt(maps, work, lp0, k, i, j, e))
    && (forall j: nat | j < n :: TurnTried(maps, work, lp0, k, i, j, log))
  }

  lemma SweptLogNext(maps: Maps, work: seq<Table>, lp0: Loop, k: nat, i: nat, n: nat, m: nat, log0: seq<Try>, log: seq<Try>, e: Try)
    requires IsRow(work, lp0, i, n) && m == n + 1 && SweptLog(maps, work, lp0, k, i, n, log0, log)
    requires TryAt(maps, work, lp0, k, i, n, e)
    ensures SweptLog(maps, work, lp0, k, i, m, log0, log + [e])
  {
    forall x | x in log + [e] && x !in log0
      ensures exists j: nat :: j < m && TryAt(maps, work, lp0, k, i, j, x)
    {
      if x in log {
        var j: nat :| j < n && TryAt(maps, work, lp0, k, i, j, x);
        assert j < m;
      }
    }
    forall j: nat | j < m
      ensures TurnTried(maps, work, lp0, k, i, j, log + [e])
    {
      if j < n {
        assert TurnTried(maps, work, lp0, k, i, j, log);
        var x :| x in log && TryAt(maps, work, lp0, k, i, j, x);
        assert x in log + [e];
      } else {
        assert e in log + [e];
      }
    }
  }

  lemma {:induction false} SweepLogs(maps: Maps, work: seq<Table>, lp0: Loop, k: nat, i: nat, n: nat, s: St)
    requires Todo(work, lp0, i) && n <= |work[i].rows| && k >= 1 && Matches(maps, work, lp0, k, i, 0, s.dst)
    ensures SweptLog(maps, work, lp0, k, i, n, s.log, Sweep(maps, work[i], n, s).log)
  {
    if n > 0 {
      var before := Sweep(maps, work[i], n - 1, s);
      SweepLogs(maps, work, lp0, k, i, n - 1, s);
      SweepUpTo(maps, work, lp0, k, i, n - 1, s, before);
      var e := TurnTry(maps, work, lp0, k, i, n - 1, before);
      SweptLogNext(maps, work, lp0, k, i, n - 1, n, s.log, before.log, e);
    }
  }

  // ---------- after n tables of pass k ----------

  /** The latest attempts: visited tables have had theirs in pass k, the others in the pass before. */
  ghost predicate LatestAt(maps: Maps, work: seq<Table>, lp0: Loop, k: nat, n: nat, log: seq<Try>, key: QKey)
    requires k >= 1
  {
    forall i: nat | Todo(work, lp0, i) && LastRow(work[i], |work[i].rows|, key).Some? && (i < n || k > 1) ::
      LatestFails(log, key) <==>
        !Fine(maps, work, lp0, if i < n then k else k - 1, i, LastRow(work[i], |work[i].rows|, key).value)
  }

  /** Every logged failure is one of the first pass too, and those are all logged once their table has been visited. */
  ghost predicate LoggedAt(maps: Maps, work: seq<Table>, lp0: Loop, k: nat, n: nat, log: seq<Try>)
    requires k >= 1
  {
    && (forall e | e in log && e.outcome.Fail? :: FailsAtFirst(maps, work, lp0, e))
    && forall i: nat, j: nat | IsRow(work, lp0, i, j) && (i < n || k > 1) && !Fine(maps, work, lp0, 1, i, j) ::
         FailureLogged(work, lp0, i, j, log)
  }

  ghost predicate FailsAtFirst(maps: Maps, work: seq<Table>, lp0: Loop, e: Try) {
    exists i: nat, j: nat ::
      IsRow(work, lp0, i, j) && e.t == work[i] && e.r == work[i].rows[j] && !Fine(maps, work, lp0, 1, i, j)
  }

  ghost predicate FailureLogged(work: seq<Table>, lp0: Loop, i: nat, j: nat, log: seq<Try>)
    requires IsRow(work, lp0, i, j)
  {
    exists e :: e in log && e.t == work[i] && e.r == work[i].rows[j] && e.outcome.Fail?
  }

  /** A row that fails in some pass has failed in the first. */
  lemma FailsFirst(maps: Maps, work: seq<Table>, lp0: Loop, k: nat, i: nat, j: nat)
    requires IsRow(work, lp0, i, j) && k >= 1 && !Fine(maps, work, lp0, k, i, j)
    ensures !Fine(maps, work, lp0, 1, i, j)
  {
    if k > 1 && Fine(maps, work, lp0, 1, i, j) { FineStays(maps, work, lp0, 1, k, i, j); }
  }

  lemma LastRowNamed(t: Table, n: nat, key: QKey)
    requires n <= |t.rows| && LastRow(t, n, key).Some?
    ensures key.table == t.name
  {
  }

  lemma TurnLatest(maps: Maps, work: seq<Table>, lp0: Loop, k: nat, n: nat, m: nat, lp: Loop, at: Loop, at': Loop, key: QKey)
    requires Named(work) && n < |work| && m == n + 1 && k >= 1 && PassAt(maps, work, lp0, k, n, lp, at)
    requires LatestAt(maps, work, lp0, k, n, at.st.log, key) && at' == TableStep(maps, work[n], at)
    ensures LatestAt(maps, work, lp0, k, m, at'.st.log, key)
  {
    forall i: nat | Todo(work, lp0, i) && LastRow(work[i], |work[i].rows|, key).Some? && (i < m || k > 1)
      ensures LatestFails(at'.st.log, key) <==>
              !Fine(maps, work, lp0, if i < m then k else k - 1, i, LastRow(work[i], |work[i].rows|, key).value)
    {
      LastRowNamed(work[i], |work[i].rows|, key);
      if work[n].name !in at.done {
        SweepLatest(maps, work, lp0, k, n, |work[n].rows|, at.st, at'.st, key);
        if i != n { NoForeignRow(work[n], |work[n].rows|, key); }
      } else if i == n {
        DoneLater(maps, work, lp0, k, n, lp, at);
        FineStays(maps, work, lp0, k - 1, k, i, LastRow(work[i], |work[i].rows|, key).value);
      }
    }
  }

  lemma NoForeignRow(t: Table, n: nat, key: QKey)
    requires n <= |t.rows| && key.table != t.name
    ensures LastRow(t, n, key).None?
  {
  }

  /** No table is done before the first pass. */
  lemma DoneLater(maps: Maps, work: seq<Table>, lp0: Loop, k: nat, n: nat, lp: Loop, at: Loop)
    requires k >= 1 && PassAt(maps, work, lp0, k, n, lp, at) && Todo(work, lp0, n) && work[n].name in at.done
    ensures k > 1 && Finished(maps, work, lp0, k - 1, n)
  {
  }

  lemma TurnLogged(maps: Maps, work: seq<Table>, lp0: Loop, k: nat, n: nat, m: nat, lp: Loop, at: Loop, at': Loop)
    requires Named(work) && n < |work| && m == n + 1 && k >= 1 && PassAt(maps, work, lp0, k, n, lp, at)
    requires LoggedAt(maps, work, lp0, k, n, at.st.log) && at' == TableStep(maps, work[n], at)
    ensures LoggedAt(maps, work, lp0, k, m, at'.st.log)
  {
    if work[n].name !in at.done {
      SweepLogs(maps, work, lp0, k, n, |work[n].rows|, at.st);
      SweptIsLogged(maps, work, lp0, k, n, m, at.st.log, at'.st.log);
    } else {
      forall i: nat, j: nat | IsRow(work, lp0, i, j) && (i < m || k > 1) && !Fine(maps, work, lp0, 1, i, j)
        ensures FailureLogged(work, lp0, i, j, at'.st.log)
      {
        if i == n { DoneLater(maps, work, lp0, k, n, lp, at); }
      }
    }
  }

  lemma SweptIsLogged(maps: Maps, work: seq<Table>, lp0: Loop, k: nat, n: nat, m: nat, log: seq<Try>, log': seq<Try>)
    requires Todo(work, lp0, n) && m == n + 1 && k >= 1 && LoggedAt(maps, work, lp0, k, n, log)
    requires SweptLog(maps, work, lp0, k, n, |work[n].rows|, log, log')
    ensures LoggedAt(maps, work, lp0, k, m, log')
  {
    forall e | e in log' && e.outcome.Fail?
      ensures FailsAtFirst(maps, work, lp0, e)
    {
      if e !in log {
        var j: nat :| j < |work[n].rows| && TryAt(maps, work, lp0, k, n, j, e);
        FailsFirst(maps, work, lp0, k, n, j);
      }
    }
    forall i: nat, j: nat | IsRow(work, lp0, i, j) && (i < m || k > 1) && !Fine(maps, work, lp0, 1, i, j)
      ensures FailureLogged(work, lp0, i, j, log')
    {
      if i < n || k > 1 {
        var e :| e in log && e.t == work[i] && e.r == work[i].rows[j] && e.outcome.Fail?;
        assert e in log';
      } else {
        assert TurnTried(maps, work, lp0, k, n, j, log');
        var e :| e in log' && TryAt(maps, work, lp0, k, n, j, e);
      }
    }
  }

  /** A pass up to its n-th table. */
  lemma PassUpTo(maps: Maps, work: seq<Table>, lp0: Loop, k: nat, n: nat, lp: Loop, at: Loop)
    requires Named(work) && n <= |work| && k >= 1 && PassAt(maps, work, lp0, k, 0, lp, lp)
    requires at == PassOver(maps, work, n, lp)
    ensures PassAt(maps, work, lp0, k, n, lp, at)
  {
    PassTurns(maps, work, lp0, k, n, lp);
  }

  lemma {:induction false} PassLatest(maps: Maps, work: seq<Table>, lp0: Loop, k: nat, n: nat, lp: Loop, at: Loop, key: QKey)
    requires Named(work) && n <= |work| && k >= 1 && PassAt(maps, work, lp0, k, 0, lp, lp)
    requires LatestAt(maps, work, lp0, k, 0, lp.st.log, key) && at == PassOver(maps, work, n, lp)
    ensures LatestAt(maps, work, lp0, k, n, at.st.log, key)
  {
    if n > 0 {
      var before := PassOver(maps, work, n - 1, lp);
      PassLatest(maps, work, lp0, k, n - 1, lp, before, key);
      PassUpTo(maps, work, lp0, k, n - 1, lp, before);
      TurnLatest(maps, work, lp0, k, n - 1, n, lp, before, at, key);
    }
  }

  lemma {:induction false} PassLogged(maps: Maps, work: seq<Table>, lp0: Loop, k: nat, n: nat, lp: Loop, at: Loop)
    requires Named(work) && n <= |work| && k >= 1 && PassAt(maps, work, lp0, k, 0, lp, lp)
    requires LoggedAt(maps, work, lp0, k, 0, lp.st.log) && at == PassOver(maps, work, n, lp)
    ensures LoggedAt(maps, work, lp0, k, n, at.st.log)
  {
    if n > 0 {
      var before := PassOver(maps, work, n - 1, lp);
      PassLogged(maps, work, lp0, k, n - 1, lp, before);
      PassUpTo(maps, work, lp0, k, n - 1, lp, before);
      TurnLogged(maps, work, lp0, k, n - 1, n, lp, before, at);
    }
  }

  /** After pass k. */
  lemma {:induction false} PassesLog(maps: Maps, work: seq<Table>, lp0: Loop, k: nat, key: QKey)
    requires Named(work) && Starts(lp0) && k >= 1
    ensures LatestAt(maps, work, lp0, k, |work|, Passes(maps, work, lp0, k).st.log, key)
    ensures LoggedAt(maps, work, lp0, k, |work|, Passes(maps, work, lp0, k).st.log)
  {
    var lp, lp' := Passes(maps, work, lp0, k - 1), Passes(maps, work, lp0, k);
    if k > 1 { PassesLog(maps, work, lp0, k - 1, key); }
    PassesTurn(maps, work, lp0, k);
    PassLatest(maps, work, lp0, k, |work|, lp, lp', key);
    PassLogged(maps, work, lp0, k, |work|, lp, lp');
  }

  // ---------- main results ----------

  /** The last row recorded under the key fails in pass k. */
  ghost predicate StillFails(maps: Maps, work: seq<Table>, lp0: Loop, k: nat, key: QKey) {
    exists i: nat :: Todo(work, lp0, i) && LastRow(work[i], |work[i].rows|, key).Some?
                     && !Fine(maps, work, lp0, k, i, LastRow(work[i], |work[i].rows|, key).value)
  }

  /** A row recorded under the key fails in the first pass for a reason the leftovers do not give. */
  ghost predicate FailsAnew(maps: Maps, work: seq<Table>, lp0: Loop, start: set<Entry>, key: QKey) {
    exists i: nat, j: nat ::
      IsRow(work, lp0, i, j) && !Fine(maps, work, lp0, 1, i, j) && KeyOf(work[i], work[i].rows[j]) == key
      && Entry(key, Reason(maps, work[i], work[i].rows[j])) !in start
  }

  /** The latest attempt under a key failed exactly when the data says so. */
  lemma LatestOnData(maps: Maps, work: seq<Table>, lp0: Loop, k: nat, key: QKey)
    requires Named(work) && Starts(lp0) && k >= 1
    ensures LatestFails(Passes(maps, work, lp0, k).st.log, key) <==> StillFails(maps, work, lp0, k, key)
  {
    var log := Passes(maps, work, lp0, k).st.log;
    PassesLog(maps, work, lp0, k, key);
    if LatestFails(log, key) {
      var e := LastTry(log, key).value;
      LatestIsOf(log, key);
      assert FailsAtFirst(maps, work, lp0, e);
      var i: nat, j: nat :|
        IsRow(work, lp0, i, j) && e.t == work[i] && e.r == work[i].rows[j] && !Fine(maps, work, lp0, 1, i, j);
      LastRowExists(work[i], |work[i].rows|, j);
      assert !Fine(maps, work, lp0, k, i, LastRow(work[i], |work[i].rows|, key).value);
    }
  }

  lemma LatestIsOf(log: seq<Try>, key: QKey)
    requires LastTry(log, key).Some?
    ensures LastTry(log, key).value in log && KeyOf(LastTry(log, key).value.t, LastTry(log, key).value.r) == key
  {
  }

  lemma AnewOnData(maps: Maps, work: seq<Table>, lp0: Loop, k: nat, start: set<Entry>, key: QKey)
    requires Named(work) && Starts(lp0) && k >= 1
    ensures FailedAnew(start, EventLog(maps, Passes(maps, work, lp0, k).st.log), key)
            <==> FailsAnew(maps, work, lp0, start, key)
  {
    var log := Passes(maps, work, lp0, k).st.log;
    PassesLog(maps, work, lp0, k, key);
    AnewIsLogged(maps, start, log, key);
    if e :| e in log && IsAnew(maps, start, e, key) {
      assert FailsAtFirst(maps, work, lp0, e);
    }
    if FailsAnew(maps, work, lp0, start, key) {
      var i: nat, j: nat :|
        IsRow(work, lp0, i, j) && !Fine(maps, work, lp0, 1, i, j) && KeyOf(work[i], work[i].rows[j]) == key
        && Entry(key, Reason(maps, work[i], work[i].rows[j])) !in start;
      assert FailureLogged(work, lp0, i, j, log);
      var e :| e in log && e.t == work[i] && e.r == work[i].rows[j] && e.outcome.Fail?;
      assert IsAnew(maps, start, e, key);
    }
  }

  /** The quarantine table after k passes of a run that found `start` in it. */
  function TableAfter(maps: Maps, work: seq<Table>, lp0: Loop, k: nat, start: set<Entry>): set<Entry> {
    Track(start, EventLog(maps, Passes(maps, work, lp0, k).st.log)).entries
  }

  /** From an empty table, the list in memory, the table and the rows whose latest attempt failed are the same. */
  lemma ListTableAndTruthAgree(maps: Maps, work: seq<Table>, lp0: Loop, k: nat)
    requires Starts(lp0)
    ensures var s := Passes(maps, work, lp0, k).st;
            var q := Track({}, EventLog(maps, s.log));
            q.listed == s.bad == EntryKeys(q.entries) && forall key :: key in s.bad <==> LatestFails(s.log, key)
  {
    var s := Passes(maps, work, lp0, k).st;
    var events := EventLog(maps, s.log);
    forall key
      ensures key in Track({}, events).listed <==> key in s.bad
      ensures key in EntryKeys(Track({}, events).entries) <==> key in s.bad
      ensures key in s.bad <==> LatestFails(s.log, key)
    {
      QuarantineIsLatestFailure(maps, work, lp0, k, key);
      FailingIsLatest(maps, s.log, key);
      RowFollows({}, events, key);
      KeyHasEntries(Track({}, events).entries, key);
    }
  }

  /** The table holds exactly the rows whose latest attempt failed. */
  ghost predicate TellsTheTruth(maps: Maps, work: seq<Table>, lp0: Loop, k: nat, start: set<Entry>) {
    forall key :: key in EntryKeys(TableAfter(maps, work, lp0, k, start))
                  <==> LatestFails(Passes(maps, work, lp0, k).st.log, key)
  }

  lemma TrueOnData(maps: Maps, work: seq<Table>, lp0: Loop, k: nat, start: set<Entry>, key: QKey)
    requires Named(work) && Starts(lp0) && k >= 1
    ensures (key in EntryKeys(TableAfter(maps, work, lp0, k, start)) <==> LatestFails(Passes(maps, work, lp0, k).st.log, key))
            <==> (key in EntryKeys(start) ==> StillFails(maps, work, lp0, k, key) || FailsAnew(maps, work, lp0, start, key))
  {
    var log := Passes(maps, work, lp0, k).st.log;
    TrueExactly(start, EventLog(maps, log), key);
    FailingIsLatest(maps, log, key);
    LatestOnData(maps, work, lp0, k, key);
    AnewOnData(maps, work, lp0, k, start, key);
  }

  /**
   * The loop over any quarantine table: after k passes the table holds exactly the rows whose
   * latest attempt failed if and only if, for every leftover, the data makes its row fail in
   * pass k, or fail in the first pass for a reason not left over.
   */
  lemma LoadTruthExactly(maps: Maps, work: seq<Table>, lp0: Loop, k: nat, start: set<Entry>)
    requires Named(work) && Starts(lp0) && k >= 1
    ensures TellsTheTruth(maps, work, lp0, k, start) <==>
            forall key | key in EntryKeys(start) ::
              StillFails(maps, work, lp0, k, key) || FailsAnew(maps, work, lp0, start, key)
  {
    forall key
      ensures (key in EntryKeys(TableAfter(maps, work, lp0, k, start)) <==> LatestFails(Passes(maps, work, lp0, k).st.log, key))
              <==> (key in EntryKeys(start) ==> StillFails(maps, work, lp0, k, key) || FailsAnew(maps, work, lp0, start, key))
    {
      TrueOnData(maps, work, lp0, k, start, key);
    }
  }

  // ---------- what the entries say ----------

  /** The attempt failed for the reason the text gives. */
  predicate Explains(maps: Maps, e: Try, reason: string) {
    e.outcome.Fail? &&
    if e.t.absent then reason == "table absent on PG"
    else if exists i :: 0 <= i < |e.r.deps| && !Known(maps, e.r.deps[i]) then reason == "unresolvable reference"
    else reason == "insert failed"
  }

  lemma ReasonExplains(maps: Maps, e: Try)
    requires e.outcome.Fail?
    ensures Explains(maps, e, Reason(maps, e.t, e.r))
  {
    NeedsExactly(maps, e.r, |e.r.deps|);
  }

  /** Every entry that is not a leftover was written by a failed attempt under its key, and says why it failed. */
  lemma {:induction false} EntriesSayWhy(maps: Maps, start: set<Entry>, log: seq<Try>, entry: Entry)
    requires entry in Track(start, EventLog(maps, log)).entries && entry !in start
    ensures exists e :: e in log && KeyOf(e.t, e.r) == entry.key && Explains(maps, e, entry.reason)
  {
    if log != [] {
      var before, last := log[..|log| - 1], log[|log| - 1];
      assert log == before + [last];
      EventLogNext(maps, start, before, last);
      if entry in Track(start, EventLog(maps, before)).entries {
        EntriesSayWhy(maps, start, before, entry);
        var e :| e in before && KeyOf(e.t, e.r) == entry.key && Explains(maps, e, entry.reason);
        assert e in log;
      } else {
        ReasonExplains(maps, last);
        assert last in log;
      }
    }
  }
}
