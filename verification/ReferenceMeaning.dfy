/** Both phases together: where the references of a copied row point after the migration. */
module ReferenceMeaning {
  import opened Common
  import opened MergeMap
  import opened LoadLoop

  // ---------- every added row has its references in place ----------

  /** The references of every row added so far are present. */
  ghost predicate Grounded(maps: Maps, s: St) {
    forall e | e in s.log && e.outcome.Add? :: Lands(maps, e.r, s.dst)
  }

  ghost predicate Lands(maps: Maps, r: Row, dst: set<Key>) {
    Needs(maps, r, |r.deps|).Some? && Needs(maps, r, |r.deps|).value <= dst
  }

  lemma RowGrounded(maps: Maps, t: Table, r: Row, s: St)
    requires Grounded(maps, s)
    ensures Grounded(maps, RowStep(maps, t, r, s))
  {
  }

  lemma {:induction false} SweepGrounded(maps: Maps, t: Table, n: nat, s: St)
    requires n <= |t.rows| && Grounded(maps, s)
    ensures Grounded(maps, Sweep(maps, t, n, s))
  {
    if n > 0 {
      SweepGrounded(maps, t, n - 1, s);
      RowGrounded(maps, t, t.rows[n - 1], Sweep(maps, t, n - 1, s));
    }
  }

  lemma {:induction false} PassGrounded(maps: Maps, work: seq<Table>, n: nat, lp: Loop)
    requires n <= |work| && Grounded(maps, lp.st)
    ensures Grounded(maps, PassOver(maps, work, n, lp).st)
  {
    if n > 0 {
      PassGrounded(maps, work, n - 1, lp);
      SweepGrounded(maps, work[n - 1], |work[n - 1].rows|, PassOver(maps, work, n - 1, lp).st);
    }
  }

  /** Every pass keeps it; an insert adds a row only with its references in place. */
  lemma {:induction false} PassesGrounded(maps: Maps, work: seq<Table>, lp0: Loop, k: nat)
    requires lp0.st.log == []
    ensures Grounded(maps, Passes(maps, work, lp0, k).st)
  {
    if k > 0 {
      PassesGrounded(maps, work, lp0, k - 1);
      PassGrounded(maps, work, |work|, Passes(maps, work, lp0, k - 1));
    }
  }

  // ---------- and they name the rows they named at the source ----------

  /** What phase 1 hands to phase 2: for every merge table, the refreshed map of its merge. */
  ghost predicate FromMerge(maps: Maps, seeds: map<string, map<string, string>>, src: map<string, seq<SrcRow>>) {
    && seeds.Keys == maps.Keys && src.Keys == maps.Keys
    && forall t | t in maps :: Clean(src[t]) && maps[t] == MergedMap(seeds[t], src[t])
  }

  function MergedMap(seed: map<string, string>, rows: seq<SrcRow>): Ids {
    var (m, dst) := MergeAll(Ids(seed, map[]), seed, rows);
    Refreshed(m, dst)
  }

  /** The destination table, natural key to id, after the merge. */
  function MergedTable(seed: map<string, string>, rows: seq<SrcRow>): map<string, string> {
    MergeAll(Ids(seed, map[]), seed, rows).1
  }

  lemma {:induction false} NeedsOf(maps: Maps, r: Row, i: nat, n: nat)
    requires i < n <= |r.deps| && r.deps[i].raw != "" && Needs(maps, r, n).Some?
    ensures var d := r.deps[i];
            d.table in maps && Resolve(maps[d.table], d.raw).Some?
            && Ref(d.table, Resolve(maps[d.table], d.raw).value) in Needs(maps, r, n).value
  {
    if i < n - 1 { NeedsOf(maps, r, i, n - 1); }
  }

  /**
   * A row the migration added, one of whose columns named merge row q at the source, by id or
   * by natural key: after every pass the destination row carrying q's natural key is present
   * under the id the column was rewritten to.
   */
  lemma {:induction false} CopiedReferenceNamesSameRow(
    maps: Maps, seeds: map<string, map<string, string>>, src: map<string, seq<SrcRow>>,
    work: seq<Table>, lp0: Loop, k: nat, e: Try, i: nat, q: SrcRow)
    requires FromMerge(maps, seeds, src) && lp0.st.log == []
    requires e in Passes(maps, work, lp0, k).st.log && e.outcome.Add?
    requires i < |e.r.deps| && e.r.deps[i].raw != ""
    requires e.r.deps[i].table in maps && q in src[e.r.deps[i].table]
    requires e.r.deps[i].raw == q.id || e.r.deps[i].raw == q.key
    requires NoClash(seeds[e.r.deps[i].table], q)
    ensures var d := e.r.deps[i];
            var dst := MergedTable(seeds[d.table], src[d.table]);
            && q.key in dst
            && Resolve(maps[d.table], d.raw) == Some(dst[q.key])
            && Ref(d.table, dst[q.key]) in Passes(maps, work, lp0, k).st.dst
  {
    var d := e.r.deps[i];
    PassesGrounded(maps, work, lp0, k);
    NeedsOf(maps, e.r, i, |e.r.deps|);
    ResolveNamesSameRow(seeds[d.table], src[d.table], q);
  }
}
