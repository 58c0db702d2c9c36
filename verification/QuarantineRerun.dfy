/**
 * A run that meets a quarantine table left by an earlier one: entries found there are not
 * listed in memory, and only listed rows are cleared.
 */
module QuarantineRerun {
  import opened Quarantine

  /** What happens to a row: it fails for a reason, or it is copied (or absorbed). */
  datatype Event = Failed(entry: Entry) | Passed(passed: QKey)

  function KeyOfEvent(e: Event): QKey { if e.Failed? then e.entry.key else e.passed }

  function Track(start: set<Entry>, log: seq<Event>): Records {
    if log == [] then Records({}, start)
    else
      var before, e := Track(start, log[..|log| - 1]), log[|log| - 1];
      if e.Failed? then Noted(before, e.entry) else Cleared(before, e.passed)
  }

  /** The latest event of the row is a failure. */
  predicate Failing(log: seq<Event>, key: QKey) {
    log != [] &&
    if KeyOfEvent(log[|log| - 1]) == key then log[|log| - 1].Failed? else Failing(log[..|log| - 1], key)
  }

  /** The row has failed for a reason the starting table does not hold. */
  predicate FailedAnew(start: set<Entry>, log: seq<Event>, key: QKey) {
    log != [] &&
    (FailedAnew(start, log[..|log| - 1], key)
     || (log[|log| - 1].Failed? && log[|log| - 1].entry.key == key && log[|log| - 1].entry !in start))
  }

  function EntriesOf(entries: set<Entry>, key: QKey): set<Entry> { set e | e in entries && e.key == key }

  function EntryKeys(entries: set<Entry>): set<QKey> { set e | e in entries :: e.key }

  /** One row: untouched leftovers, or a list and a table that follow its latest event. */
  ghost predicate Tracked(start: set<Entry>, log: seq<Event>, key: QKey) {
    var q := Track(start, log);
    if FailedAnew(start, log, key) || EntriesOf(start, key) == {} then
      (key in q.listed <==> Failing(log, key)) && (EntriesOf(q.entries, key) != {} <==> Failing(log, key))
    else key !in q.listed && EntriesOf(q.entries, key) == EntriesOf(start, key)
  }

  lemma EntryIsOf(entries: set<Entry>, e: Entry)
    ensures e in entries <==> e in EntriesOf(entries, e.key)
  {
  }

  lemma NotedOf(q: Records, e: Entry, key: QKey)
    ensures EntriesOf(Noted(q, e).entries, key) ==
            EntriesOf(q.entries, key) + if e.key == key && key !in q.listed then {e} else {}
  {
  }

  lemma ClearedOf(q: Records, passed: QKey, key: QKey)
    ensures EntriesOf(Cleared(q, passed).entries, key) ==
            if passed == key && key in q.listed then {} else EntriesOf(q.entries, key)
  {
  }

  lemma {:induction false} RowFollows(start: set<Entry>, log: seq<Event>, key: QKey)
    ensures Tracked(start, log, key)
  {
    if log != [] {
      var before, e := log[..|log| - 1], log[|log| - 1];
      RowFollows(start, before, key);
      if e.Failed? {
        NotedOf(Track(start, before), e.entry, key);
        EntryIsOf(Track(start, before).entries, e.entry);
        EntryIsOf(start, e.entry);
      } else {
        ClearedOf(Track(start, before), e.passed, key);
      }
    }
  }

  lemma KeyHasEntries(entries: set<Entry>, key: QKey)
    ensures key in EntryKeys(entries) <==> EntriesOf(entries, key) != {}
  {
    if EntriesOf(entries, key) != {} {
      var e :| e in EntriesOf(entries, key);
    }
    if key in EntryKeys(entries) {
      var e :| e in entries && e.key == key;
      assert e in EntriesOf(entries, key);
    }
  }

  /** A row whose table entry tells the truth. */
  lemma TrueExactly(start: set<Entry>, log: seq<Event>, key: QKey)
    ensures (key in EntryKeys(Track(start, log).entries) <==> Failing(log, key))
            <==> (key in EntryKeys(start) ==> Failing(log, key) || FailedAnew(start, log, key))
  {
    RowFollows(start, log, key);
    KeyHasEntries(start, key);
    KeyHasEntries(Track(start, log).entries, key);
  }

  /**
   * After a run over any starting table, the table holds exactly the rows whose latest attempt
   * failed if and only if every row it held at the start is failing, or has failed in this run
   * for a reason not recorded before.  An empty table always qualifies.
   */
  lemma RerunTruthExactly(start: set<Entry>, log: seq<Event>)
    ensures (forall key :: key in EntryKeys(Track(start, log).entries) <==> Failing(log, key))
            <==> forall key | key in EntryKeys(start) :: Failing(log, key) || FailedAnew(start, log, key)
  {
    forall key
      ensures (key in EntryKeys(Track(start, log).entries) <==> Failing(log, key))
              <==> (key in EntryKeys(start) ==> Failing(log, key) || FailedAnew(start, log, key))
    {
      TrueExactly(start, log, key);
    }
  }

  /** The table holds exactly the rows whose latest attempt failed. */
  ghost predicate TellsTruth(start: set<Entry>, log: seq<Event>) {
    forall key :: key in EntryKeys(Track(start, log).entries) <==> Failing(log, key)
  }

  /** No starting table but the empty one is true to every run. */
  lemma AlwaysTrueExactly(start: set<Entry>)
    ensures (forall log :: TellsTruth(start, log)) <==> start == {}
  {
    if start == {} {
      forall log
        ensures TellsTruth(start, log)
      {
        RerunTruthExactly(start, log);
      }
    } else {
      var e :| e in start;
      LeftoverStays(start, e);
      assert !TellsTruth(start, [Passed(e.key)]);
    }
  }

  /** A leftover whose row is copied without failing first: the copy clears nothing. */
  lemma LeftoverStays(start: set<Entry>, e: Entry)
    requires e in start
    ensures var log := [Passed(e.key)];
            Track(start, log).entries == start && e.key in EntryKeys(start) && !Failing(log, e.key)
  {
    var log := [Passed(e.key)];
    assert log[..0] == [] && Track(start, log[..0]) == Records({}, start);
  }
}
