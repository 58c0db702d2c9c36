/**
 * Phase 2 of the data migration (internal/datamigrate/migrate.go): plain tables are
 * copied in passes until nothing is skipped or a pass makes no progress.
 *
 * The destination is the set of unique keys its rows hold: primary keys, and the values of
 * other unique columns.  An insert fails on a bad value or a missing reference, is absorbed
 * when one of its keys is taken, or adds the row and takes all its keys.
 */
module LoadLoop {
  import opened Common
  import opened MergeMap
  import opened Quarantine
  import opened QuarantineRerun

  /** A primary key, or the value of another unique column, tagged with that column. */
  datatype Key = Ref(table: string, pk: string) | Uniq(table: string, value: string)

  /** A column that points into a merged table, holding an id or a name as text. */
  datatype Dep = Dep(table: string, raw: string)

  /** uniq: its other unique values.  valid: no cell breaks a type, NOT NULL or CHECK rule.  fks: other non-null references. */
  datatype Row = Row(pk: string, uniq: set<string>, cells: seq<string>, deps: seq<Dep>, fks: set<Key>, valid: bool)

  /** absent: the destination has no such table. */
  datatype Table = Table(name: string, absent: bool, rows: seq<Row>)

  datatype Outcome = Fail | Absorb | Add

  type Maps = map<string, Ids>

  // ---------- one row ----------

  /** All references of a row after remapping; None when a name does not resolve. */
  function Needs(maps: Maps, r: Row, n: nat): Option<set<Key>>
    requires n <= |r.deps|
  {
    if n == 0 then Some(r.fks)
    else
      var before := Needs(maps, r, n - 1);
      var d := r.deps[n - 1];
      if before.None? || d.raw == "" then before
      else if d.table !in maps then None
      else
        var id := Resolve(maps[d.table], d.raw);
        if id.None? then None else Some(before.value + {Ref(d.table, id.value)})
  }

  /** The destination row a column points to, when its name resolves. */
  predicate PointsTo(maps: Maps, d: Dep, x: Key) {
    d.raw != "" && d.table in maps && Resolve(maps[d.table], d.raw).Some?
    && x == Ref(d.table, Resolve(maps[d.table], d.raw).value)
  }

  /** The name is empty, or some map has it. */
  predicate Known(maps: Maps, d: Dep) {
    d.raw == "" || (d.table in maps && Resolve(maps[d.table], d.raw).Some?)
  }

  /** Every column that is not empty must resolve; an empty one asks for nothing. */
  lemma {:induction false} NeedsExactly(maps: Maps, r: Row, n: nat)
    requires n <= |r.deps|
    ensures Needs(maps, r, n).Some? <==> forall i | 0 <= i < n :: Known(maps, r.deps[i])
    ensures Needs(maps, r, n).Some? ==>
              forall x :: x in Needs(maps, r, n).value <==> x in r.fks || exists i :: 0 <= i < n && PointsTo(maps, r.deps[i], x)
  {
    if n > 0 {
      NeedsExactly(maps, r, n - 1);
      var d := r.deps[n - 1];
      if Needs(maps, r, n).Some? {
        forall x
          ensures x in Needs(maps, r, n).value <==> x in r.fks || exists i :: 0 <= i < n && PointsTo(maps, r.deps[i], x)
        {
          assert x in Needs(maps, r, n).value <==> x in Needs(maps, r, n - 1).value || PointsTo(maps, d, x);
        }
      }
    }
  }

  function KeysOf(t: Table, r: Row): set<Key> {
    {Ref(t.name, r.pk)} + set u | u in r.uniq :: Uniq(t.name, u)
  }

  function Insert(dst: set<Key>, keys: set<Key>, valid: bool, needs: set<Key>): Outcome {
    if !valid then Fail
    else if keys * dst != {} then Absorb
    else if needs <= dst + keys then Add
    else Fail
  }

  function Attempt(maps: Maps, t: Table, r: Row, dst: set<Key>): Outcome {
    var needs := Needs(maps, r, |r.deps|);
    if t.absent || needs.None? then Fail else Insert(dst, KeysOf(t, r), r.valid, needs.value)
  }

  function KeyOf(t: Table, r: Row): QKey {
    QKey(t.name, QuarRow([r.pk] + r.cells))
  }

  /** Why a row fails, as its quarantine entry says. */
  function Reason(maps: Maps, t: Table, r: Row): string {
    if t.absent then "table absent on PG"
    else if Needs(maps, r, |r.deps|).None? then "unresolvable reference"
    else "insert failed"
  }

  // ---------- tables, passes, runs ----------

  datatype Try = Try(t: Table, r: Row, outcome: Outcome)

  /** What an attempt means to the quarantine. */
  function EventOf(maps: Maps, e: Try): Event {
    var key := KeyOf(e.t, e.r);
    if e.outcome.Fail? then Failed(Entry(key, Reason(maps, e.t, e.r))) else Passed(key)
  }

  function EventLog(maps: Maps, log: seq<Try>): seq<Event> {
    if log == [] then [] else EventLog(maps, log[..|log| - 1]) + [EventOf(maps, log[|log| - 1])]
  }

  /** dst: keys held.  bad: quarantined keys.  log: every attempt so far, oldest first. */
  datatype St = St(dst: set<Key>, bad: set<QKey>, log: seq<Try>, copied: nat, skips: nat)

  function RowStep(maps: Maps, t: Table, r: Row, s: St): St {
    var key, o := KeyOf(t, r), Attempt(maps, t, r, s.dst);
    var log := s.log + [Try(t, r, o)];
    match o
    case Fail => s.(bad := s.bad + {key}, log := log, skips := s.skips + 1)
    case Absorb => s.(bad := s.bad - {key}, log := log)
    case Add => s.(dst := s.dst + KeysOf(t, r), bad := s.bad - {key}, log := log, copied := s.copied + 1)
  }

  /** The first n rows of a table, in order. */
  function Sweep(maps: Maps, t: Table, n: nat, s: St): St
    requires n <= |t.rows|
  {
    if n == 0 then s else RowStep(maps, t, t.rows[n - 1], Sweep(maps, t, n - 1, s))
  }

  function SweepAll(maps: Maps, t: Table, s: St): St { Sweep(maps, t, |t.rows|, s) }

  datatype Loop = Loop(st: St, done: set<string>, prev: map<string, nat>, progress: bool, allDone: bool)

  function PrevOf(lp: Loop, name: string): nat { if name in lp.prev then lp.prev[name] else 0 }

  lemma {:induction false} CountersGrow(maps: Maps, t: Table, n: nat, s: St)
    requires n <= |t.rows|
    ensures Sweep(maps, t, n, s).skips >= s.skips && Sweep(maps, t, n, s).copied >= s.copied
  {
    if n > 0 { CountersGrow(maps, t, n - 1, s); }
  }

  /** Rows a sweep copied and skipped. */
  function Copied(maps: Maps, t: Table, s: St): nat {
    CountersGrow(maps, t, |t.rows|, s);
    SweepAll(maps, t, s).copied - s.copied
  }

  function Skipped(maps: Maps, t: Table, s: St): nat {
    CountersGrow(maps, t, |t.rows|, s);
    SweepAll(maps, t, s).skips - s.skips
  }

  function TableStep(maps: Maps, t: Table, lp: Loop): Loop {
    if t.name in lp.done then lp
    else
      var s, copied, skipped := SweepAll(maps, t, lp.st), Copied(maps, t, lp.st), Skipped(maps, t, lp.st);
      if skipped == 0 then lp.(st := s, done := lp.done + {t.name}, progress := true)
      else lp.(st := s, allDone := false, progress := lp.progress || copied > PrevOf(lp, t.name),
               prev := lp.prev[t.name := copied])
  }

  function PassOver(maps: Maps, work: seq<Table>, n: nat, lp: Loop): Loop
    requires n <= |work|
  {
    if n == 0 then lp.(progress := false, allDone := true)
    else TableStep(maps, work[n - 1], PassOver(maps, work, n - 1, lp))
  }

  function Pass(maps: Maps, work: seq<Table>, lp: Loop): Loop { PassOver(maps, work, |work|, lp) }

  function Passes(maps: Maps, work: seq<Table>, lp: Loop, k: nat): Loop {
    if k == 0 then lp else Pass(maps, work, Passes(maps, work, lp, k - 1))
  }

  /** The break condition at the end of a pass. */
  predicate Stops(lp: Loop) { lp.allDone || !lp.progress }

  /** State before the first pass: merge tables are done already, and their new rows are counted. */
  function Begin(dst: set<Key>, done: set<string>, copied: nat): Loop {
    Loop(St(dst, {}, [], copied, 0), done, map[], false, false)
  }

  /** k passes are executed: none of the earlier ones stops the loop, and the last one does or the budget is out. */
  ghost predicate Executed(maps: Maps, work: seq<Table>, lp: Loop, maxPasses: nat, k: nat) {
    && k <= maxPasses
    && (forall j | 1 <= j < k :: !Stops(Passes(maps, work, lp, j)))
    && (k < maxPasses ==> k >= 1 && Stops(Passes(maps, work, lp, k)))
  }

  // ---------- the code ----------

  /** Destination side: the keys its rows hold, and the quarantine table. */
  class Target {
    var rows: set<Key>
    const quarantine: QuarantineTable

    constructor (rows: set<Key>)
      ensures this.rows == rows && fresh(quarantine) && quarantine.entries == {}
    {
      this.rows := rows;
      quarantine := new QuarantineTable();
    }

    /** INSERT .. ON CONFLICT DO NOTHING RETURNING 1: None is an error, else whether a row was added. */
    method ExecInsert(keys: set<Key>, valid: bool, needs: set<Key>) returns (inserted: Option<bool>)
      modifies this
      ensures var o := Insert(old(rows), keys, valid, needs);
              && inserted == (if o.Fail? then None else Some(o.Add?))
              && rows == if o.Add? then old(rows) + keys else old(rows)
    {
      if !valid {
        return None;
      }
      if keys * rows != {} {
        return Some(false);
      }
      if needs <= rows + keys {
        rows := rows + keys;
        return Some(true);
      }
      return None;
    }
  }

  /** List and table in step with each other and with the attempts logged. */
  ghost predicate Evidence(maps: Maps, start: set<Entry>, listed: map<QKey, Entry>, entries: set<Entry>, log: seq<Try>) {
    InStep(start, listed, entries) && Records(listed.Keys, entries) == Track(start, EventLog(maps, log))
  }

  /** Summary and destination agree with the specification state; `start` is what the quarantine table held before the run. */
  ghost predicate Shows(maps: Maps, sum: Summary, pg: Target, start: set<Entry>, s: St)
    reads sum, pg, pg.quarantine
  {
    && sum.Valid() && Evidence(maps, start, sum.Listed(), pg.quarantine.entries, s.log)
    && pg.rows == s.dst && sum.RowsCopied == s.copied
  }

  lemma EventLogNext(maps: Maps, start: set<Entry>, log: seq<Try>, e: Try)
    ensures EventLog(maps, log + [e]) == EventLog(maps, log) + [EventOf(maps, e)]
    ensures var q, event := Track(start, EventLog(maps, log)), EventOf(maps, e);
            Track(start, EventLog(maps, log + [e])) ==
              if event.Failed? then Noted(q, event.entry) else Quarantine.Cleared(q, event.passed)
  {
    assert (log + [e])[..|log|] == log;
    var events := EventLog(maps, log);
    assert (events + [EventOf(maps, e)])[..|events|] == events;
  }

  lemma EvidenceOfFailure(maps: Maps, start: set<Entry>, listed: map<QKey, Entry>, entries: set<Entry>, log: seq<Try>, e: Try)
    requires Evidence(maps, start, listed, entries, log) && e.outcome.Fail?
    ensures var entry := Entry(KeyOf(e.t, e.r), Reason(maps, e.t, e.r));
            if entry.key in listed || entry in entries then Evidence(maps, start, listed, entries, log + [e])
            else Evidence(maps, start, listed[entry.key := entry], entries + {entry}, log + [e])
  {
    var entry := Entry(KeyOf(e.t, e.r), Reason(maps, e.t, e.r));
    EventLogNext(maps, start, log, e);
    if entry.key !in listed && entry !in entries {
      QuarKeepsStep(start, listed, entries, entry);
      assert listed[entry.key := entry].Keys == listed.Keys + {entry.key};
    }
  }

  lemma EvidenceOfSuccess(maps: Maps, start: set<Entry>, listed: map<QKey, Entry>, entries: set<Entry>, log: seq<Try>, e: Try)
    requires Evidence(maps, start, listed, entries, log) && !e.outcome.Fail?
    ensures var key := KeyOf(e.t, e.r);
            if key in listed then Evidence(maps, start, listed - {key}, WithoutKey(entries, key), log + [e])
            else Evidence(maps, start, listed, entries, log + [e])
  {
    var key := KeyOf(e.t, e.r);
    EventLogNext(maps, start, log, e);
    UnquarKeepsStep(start, listed, entries, key);
    assert (listed - {key}).Keys == listed.Keys - {key};
  }

  /** The row of this attempt fails: its entry is recorded. */
  method Quarantined(maps: Maps, t: Table, r: Row, reason: string, sum: Summary, pg: Target, ghost start: set<Entry>, ghost s: St)
    requires Shows(maps, sum, pg, start, s) && Attempt(maps, t, r, s.dst).Fail? && reason == Reason(maps, t, r)
    modifies sum, pg.quarantine
    ensures Shows(maps, sum, pg, start, RowStep(maps, t, r, s))
  {
    var e := Entry(KeyOf(t, r), reason);
    EvidenceOfFailure(maps, start, sum.Listed(), pg.quarantine.entries, s.log, Try(t, r, Fail));
    assert e in pg.quarantine.entries ==> pg.quarantine.entries + {e} == pg.quarantine.entries;
    sum.Quar(pg.quarantine, e, false);
  }

  /** The row is at the destination; rows and counter show it already. */
  method Cleared(maps: Maps, t: Table, r: Row, sum: Summary, pg: Target, ghost start: set<Entry>, ghost s: St)
    requires Shows(maps, sum, pg, start, s.(dst := pg.rows, copied := sum.RowsCopied))
    requires !Attempt(maps, t, r, s.dst).Fail?
    requires pg.rows == RowStep(maps, t, r, s).dst && sum.RowsCopied == RowStep(maps, t, r, s).copied
    modifies sum, pg.quarantine
    ensures Shows(maps, sum, pg, start, RowStep(maps, t, r, s))
  {
    EvidenceOfSuccess(maps, start, sum.Listed(), pg.quarantine.entries, s.log, Try(t, r, Attempt(maps, t, r, s.dst)));
    sum.Unquar(pg.quarantine, KeyOf(t, r), false);
  }

  /** Remaps the dependent columns of one row; None when a name does not resolve. */
  method ResolveDeps(maps: Maps, r: Row) returns (needs: Option<set<Key>>)
    ensures needs == Needs(maps, r, |r.deps|)
  {
    var acc := r.fks;
    for i := 0 to |r.deps|
      invariant Needs(maps, r, i) == Some(acc)
    {
      var d := r.deps[i];
      if d.raw == "" {
        continue;
      }
      if d.table !in maps {
        NeedsNone(maps, r, i + 1, |r.deps|);
        return None;
      }
      var id := Resolve(maps[d.table], d.raw);
      if id.None? {
        NeedsNone(maps, r, i + 1, |r.deps|);
        return None;
      }
      acc := acc + {Ref(d.table, id.value)};
    }
    return Some(acc);
  }

  lemma NeedsNone(maps: Maps, r: Row, i: nat, n: nat)
    requires i <= n <= |r.deps| && Needs(maps, r, i).None?
    ensures Needs(maps, r, n).None?
  {
    if i < n { NeedsNone(maps, r, i, n - 1); }
  }

  method CopyRow(maps: Maps, t: Table, r: Row, sum: Summary, pg: Target, ghost start: set<Entry>, ghost s: St)
    returns (o: Outcome)
    requires Shows(maps, sum, pg, start, s)
    modifies sum, pg, pg.quarantine
    ensures Shows(maps, sum, pg, start, RowStep(maps, t, r, s)) && o == Attempt(maps, t, r, s.dst)
  {
    if t.absent {
      Quarantined(maps, t, r, "table absent on PG", sum, pg, start, s);
      return Fail;
    }
    var needs := ResolveDeps(maps, r);
    if needs.None? {
      Quarantined(maps, t, r, "unresolvable reference", sum, pg, start, s);
      return Fail;
    }
    var inserted := pg.ExecInsert(KeysOf(t, r), r.valid, needs.value);
    if inserted.None? {
      Quarantined(maps, t, r, "insert failed", sum, pg, start, s);
      return Fail;
    }
    if inserted.value {
      sum.RowsCopied := sum.RowsCopied + 1;
    }
    Cleared(maps, t, r, sum, pg, start, s);
    return if inserted.value then Add else Absorb;
  }

  method CopyTable(maps: Maps, t: Table, sum: Summary, pg: Target, ghost start: set<Entry>, ghost s: St)
    returns (copied: nat, skipped: nat)
    requires Shows(maps, sum, pg, start, s)
    modifies sum, pg, pg.quarantine
    ensures Shows(maps, sum, pg, start, SweepAll(maps, t, s))
    ensures copied == Copied(maps, t, s) && skipped == Skipped(maps, t, s)
  {
    copied, skipped := 0, 0;
    ghost var at := s;
    for i := 0 to |t.rows|
      invariant at == Sweep(maps, t, i, s) && Shows(maps, sum, pg, start, at)
      invariant copied == at.copied - s.copied && skipped == at.skips - s.skips
    {
      var r := t.rows[i];
      var o := CopyRow(maps, t, r, sum, pg, start, at);
      match o {
        case Fail => skipped := skipped + 1;
        case Absorb =>
        case Add => copied := copied + 1;
      }
      at := RowStep(maps, t, r, at);
    }
  }

  /** One pass over all tables. */
  method PassTables(maps: Maps, work: seq<Table>, done: set<string>, prevCopied: map<string, nat>,
                    sum: Summary, pg: Target, ghost start: set<Entry>, ghost lp: Loop)
    returns (done': set<string>, prevCopied': map<string, nat>, progress: bool, allDone: bool)
    requires Shows(maps, sum, pg, start, lp.st) && done == lp.done && prevCopied == lp.prev
    modifies sum, pg, pg.quarantine
    ensures var lp' := Pass(maps, work, lp);
            && Shows(maps, sum, pg, start, lp'.st) && done' == lp'.done && prevCopied' == lp'.prev
            && progress == lp'.progress && allDone == lp'.allDone
  {
    done', prevCopied' := done, prevCopied;
    progress, allDone := false, true;
    ghost var at := lp.(progress := false, allDone := true);
    for i := 0 to |work|
      invariant at == PassOver(maps, work, i, lp) && Shows(maps, sum, pg, start, at.st)
      invariant done' == at.done && prevCopied' == at.prev
      invariant progress == at.progress && allDone == at.allDone
    {
      var t := work[i];
      if t.name !in done' {
        var copied, skipped := CopyTable(maps, t, sum, pg, start, at.st);
        if skipped == 0 {
          done' := done' + {t.name};
          progress := true;
        } else {
          allDone := false;
          if copied > if t.name in prevCopied' then prevCopied'[t.name] else 0 {
            progress := true;
          }
          prevCopied' := prevCopied'[t.name := copied];
        }
      }
      at := TableStep(maps, t, at);
    }
  }

  /** The pass loop over all tables; those in `merged` are done already.  Returns the number of passes executed. */
  method LoadTables(maps: Maps, work: seq<Table>, merged: set<string>, maxPasses: nat, sum: Summary, pg: Target)
    returns (executed: nat)
    requires sum.Valid() && sum.Listed() == map[]
    modifies sum, pg, pg.quarantine
    ensures var lp0 := Begin(old(pg.rows), merged, old(sum.RowsCopied));
            && Executed(maps, work, lp0, maxPasses, executed)
            && Shows(maps, sum, pg, old(pg.quarantine.entries), Passes(maps, work, lp0, executed).st)
  {
    ghost var lp0, start := Begin(pg.rows, merged, sum.RowsCopied), pg.quarantine.entries;
    ghost var lp := lp0;
    var done, prevCopied := merged, map[];
    executed := 0;
    while executed < maxPasses
      invariant executed <= maxPasses && lp == Passes(maps, work, lp0, executed)
      invariant Shows(maps, sum, pg, start, lp.st) && done == lp.done && prevCopied == lp.prev
      invariant forall j | 1 <= j <= executed :: !Stops(Passes(maps, work, lp0, j))
    {
      var progress, allDone;
      done, prevCopied, progress, allDone := PassTables(maps, work, done, prevCopied, sum, pg, start, lp);
      lp := Pass(maps, work, lp);
      executed := executed + 1;
      if allDone || !progress {
        break;
      }
    }
  }
}
