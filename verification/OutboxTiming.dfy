/**
 * What holds when live workers settle in time: the send timeout and the settling
 * statement together stay within `bound`, and `bound` does not exceed staleAfter.
 */
module OutboxTiming {
  import opened Outbox
  import opened OutboxProtocol

  predicate Timely(s: State, bound: int) {
    forall w | 0 <= w < |s.workers| && Holding(s.workers[w]) :: s.now <= s.workers[w].at + bound
  }

  predicate TimelyRun(cfg: Config, bound: int, s: State, steps: seq<Step>, s': State)
    decreases |steps|
  {
    Timely(s, bound) &&
    if steps == [] then s' == s
    else Enabled(cfg, s, steps[0]) && TimelyRun(cfg, bound, Apply(cfg, s, steps[0]), steps[1..], s')
  }

  lemma {:induction false} TimelyRunIsRun(cfg: Config, bound: int, s: State, steps: seq<Step>, s': State)
    requires TimelyRun(cfg, bound, s, steps, s')
    ensures Run(cfg, s, steps, s')
    decreases |steps|
  {
    if steps != [] { TimelyRunIsRun(cfg, bound, Apply(cfg, s, steps[0]), steps[1..], s'); }
  }

  /** The row carries the mark of the claim held on it. */
  ghost predicate HoldOk(s: State, p: Phase) {
    Holding(p) ==> p.id in s.rows && s.rows[p.id].status == Sending && s.rows[p.id].nextAttempt == p.at
  }

  predicate Delivering(s: State, w: nat, id: RowId) {
    w < |s.workers| && s.workers[w].Answered? && s.workers[w].ok && s.workers[w].id == id
  }

  predicate HeldBy(s: State, w: nat, id: RowId) {
    w < |s.workers| && Holding(s.workers[w]) && s.workers[w].id == id
  }

  predicate HasClaim(s: State, w: nat) { w < |s.workers| && Holding(s.workers[w]) }

  ghost predicate Exclusive(s: State) {
    && (forall w | 0 <= w < |s.workers| :: HoldOk(s, s.workers[w]))
    && (forall v, w | 0 <= v < w < |s.workers| && Holding(s.workers[v]) && Holding(s.workers[w]) ::
          s.workers[v].id != s.workers[w].id)
  }

  ghost predicate OksOk(s: State, id: RowId)
    requires id in s.rows && id in s.hist
  {
    && (s.hist[id].oks <= s.hist[id].lost + 1)
    && (s.hist[id].oks <= s.hist[id].lost || s.rows[id].status == Sent || exists w :: Delivering(s, w, id))
    && (s.rows[id].status == Sending ==> s.hist[id].lost >= 1 || exists w :: HeldBy(s, w, id))
  }

  ghost predicate TInv(s: State) {
    && s.rows.Keys == s.hist.Keys
    && Exclusive(s)
    && (forall id | id in s.rows :: OksOk(s, id))
  }

  lemma HolderUnique(s: State, v: nat, w: nat, id: RowId)
    requires Exclusive(s) && HeldBy(s, v, id) && HeldBy(s, w, id)
    ensures v == w
  {
  }

  /** A timely live claim is never stale. */
  lemma LiveClaimNotReaped(cfg: Config, bound: int, s: State, w: nat)
    requires TInv(s) && Timely(s, bound) && bound <= cfg.staleAfter
    requires w < |s.workers| && Holding(s.workers[w])
    ensures ReapRow(cfg, s.now, s.rows[s.workers[w].id]) == s.rows[s.workers[w].id]
  {
    assert HoldOk(s, s.workers[w]);
  }

  /** The reaper frees only rows no live worker holds, and only after their claim was lost. */
  lemma ReaperFreesOnlyLostClaims(cfg: Config, bound: int, s: State, id: RowId)
    requires TInv(s) && Timely(s, bound) && bound <= cfg.staleAfter
    requires id in s.rows && ReapRow(cfg, s.now, s.rows[id]) != s.rows[id]
    ensures forall w :: !HeldBy(s, w, id)
    ensures s.hist[id].lost >= 1
  {
    forall w
      ensures !HeldBy(s, w, id)
    {
      if HeldBy(s, w, id) { LiveClaimNotReaped(cfg, bound, s, w); }
    }
    assert OksOk(s, id);
  }

  /** Rows and histories other than `id`'s, and the claims of workers other than w, are as before. */
  ghost predicate Elsewhere(s: State, t: State, w: nat, id: RowId) {
    && t.rows.Keys == s.rows.Keys && t.hist.Keys == s.hist.Keys
    && |t.workers| == |s.workers|
    && (forall i | i in s.rows && i != id :: t.rows[i] == s.rows[i])
    && (forall i | i in s.hist && i != id :: t.hist[i] == s.hist[i])
    && (forall v | 0 <= v < |s.workers| && v != w :: t.workers[v] == s.workers[v])
    && (HasClaim(s, w) ==> s.workers[w].id == id)
    && (HasClaim(t, w) ==> t.workers[w].id == id)
  }

  lemma OksElsewhere(s: State, t: State, w: nat, id: RowId, i: RowId)
    requires s.rows.Keys == s.hist.Keys && Elsewhere(s, t, w, id) && i in s.rows && i != id && OksOk(s, i)
    ensures OksOk(t, i)
  {
    if v :| Delivering(s, v, i) { assert Delivering(t, v, i); }
    if v :| HeldBy(s, v, i) { assert HeldBy(t, v, i); }
  }

  /** Step of worker w about row `id`: enough to look at that row and that worker. */
  lemma LocalStep(s: State, t: State, w: nat, id: RowId)
    requires TInv(s) && Elsewhere(s, t, w, id) && w < |s.workers|
    requires id in t.rows ==> OksOk(t, id)
    requires HoldOk(t, t.workers[w])
    requires forall v | 0 <= v < |s.workers| && v != w :: Holding(s.workers[v]) ==>
      s.workers[v].id != id || (!Holding(t.workers[w]) && HoldOk(t, s.workers[v]))
    ensures TInv(t)
  {
    forall i | i in t.rows
      ensures OksOk(t, i)
    {
      if i != id { OksElsewhere(s, t, w, id, i); }
    }
    forall v | 0 <= v < |t.workers| && v != w
      ensures HoldOk(t, t.workers[v])
    {
      assert HoldOk(s, s.workers[v]);
    }
  }

  /** A worker without a claim moves to another phase without a claim; no row changes. */
  lemma QuietMove(s: State, t: State, w: nat)
    requires TInv(s) && w < |s.workers| && t.rows == s.rows && t.hist == s.hist
    requires |t.workers| == |s.workers| && !Holding(s.workers[w]) && !Holding(t.workers[w])
    requires t.workers == s.workers[w := t.workers[w]]
    ensures TInv(t)
  {
    forall i | i in t.rows
      ensures OksOk(t, i)
    {
      OksElsewhere(s, t, w, i + 1, i);
    }
    forall v | 0 <= v < |t.workers|
      ensures HoldOk(t, t.workers[v])
    {
      assert v != w ==> HoldOk(s, s.workers[v]);
    }
  }

  /** Rows change, workers do not, and rows under a claim stay as they are. */
  lemma RowsMove(s: State, t: State)
    requires TInv(s) && t.workers == s.workers && t.rows.Keys == t.hist.Keys && s.rows.Keys <= t.rows.Keys
    requires forall w | 0 <= w < |s.workers| && Holding(s.workers[w]) ::
      t.rows[s.workers[w].id] == s.rows[s.workers[w].id]
    requires forall id | id in t.rows :: if id in s.rows
      then t.hist[id] == s.hist[id] && (t.rows[id].status == s.rows[id].status || t.rows[id].status == Failed)
           && (s.rows[id].status == Sent ==> t.rows[id].status == Sent)
      else t.hist[id].oks == 0 && t.rows[id].status != Sending
    ensures TInv(t)
  {
    forall id | id in t.rows
      ensures OksOk(t, id)
    {
      if id in s.rows {
        assert OksOk(s, id);
        if w :| Delivering(s, w, id) { assert Delivering(t, w, id); }
        if w :| HeldBy(s, w, id) { assert HeldBy(t, w, id); }
      }
    }
    forall v | 0 <= v < |t.workers|
      ensures HoldOk(t, t.workers[v])
    {
      assert HoldOk(s, s.workers[v]);
    }
  }

  /** A reap cannot meet a live claim: every claim is young, or the one worker reaps only between claims. */
  ghost predicate SparesLive(cfg: Config, bound: int, s: State) {
    |s.workers| <= 1 || (Timely(s, bound) && bound <= cfg.staleAfter)
  }

  lemma TReap(cfg: Config, bound: int, s: State, w: nat)
    requires TInv(s) && SparesLive(cfg, bound, s) && Enabled(cfg, s, Reap(w))
    ensures TInv(Apply(cfg, s, Reap(w)))
  {
    var t := Apply(cfg, s, Reap(w));
    assert t.rows.Keys == s.rows.Keys;
    forall v | 0 <= v < |s.workers| && Holding(s.workers[v])
      ensures s.workers[v].id in s.rows && t.rows[s.workers[v].id] == s.rows[s.workers[v].id]
    {
      assert HoldOk(s, s.workers[v]);
      if |s.workers| > 1 { LiveClaimNotReaped(cfg, bound, s, v); }
    }
    RowsMove(s, t);
  }

  lemma TPushBack(cfg: Config, s: State, waiting: set<RowId>, until: int)
    requires TInv(s) && Enabled(cfg, s, PushBack(waiting, until))
    ensures TInv(Apply(cfg, s, PushBack(waiting, until)))
  {
    var t := Apply(cfg, s, PushBack(waiting, until));
    assert t.rows.Keys == s.rows.Keys;
    forall v | 0 <= v < |s.workers| && Holding(s.workers[v])
      ensures s.workers[v].id in s.rows && t.rows[s.workers[v].id] == s.rows[s.workers[v].id]
    {
      assert HoldOk(s, s.workers[v]);
    }
    RowsMove(s, t);
  }

  lemma TClaim(cfg: Config, s: State, w: nat)
    requires TInv(s) && Enabled(cfg, s, Claim(w)) && Open(s.rows[s.workers[w].id])
    ensures TInv(Apply(cfg, s, Claim(w)))
  {
    var id, t := s.workers[w].id, Apply(cfg, s, Claim(w));
    forall v | 0 <= v < |s.workers|
      ensures !HeldBy(s, v, id) && !Delivering(s, v, id)
    {
      assert HoldOk(s, s.workers[v]);
    }
    assert OksOk(s, id);
    assert HeldBy(t, w, id);
    LocalStep(s, t, w, id);
  }

  lemma TSend(cfg: Config, s: State, w: nat, ok: bool)
    requires TInv(s) && Enabled(cfg, s, Send(w, ok))
    ensures TInv(Apply(cfg, s, Send(w, ok)))
  {
    var id, t := s.workers[w].id, Apply(cfg, s, Send(w, ok));
    assert HoldOk(s, s.workers[w]) && OksOk(s, id) && HeldBy(s, w, id);
    forall v | 0 <= v < |s.workers|
      ensures !Delivering(s, v, id) && (v != w ==> !HeldBy(s, v, id))
    {
      if HeldBy(s, v, id) { HolderUnique(s, v, w, id); }
    }
    assert HeldBy(t, w, id) && (ok ==> Delivering(t, w, id));
    LocalStep(s, t, w, id);
  }

  lemma TSettle(cfg: Config, s: State, w: nat)
    requires TInv(s) && Enabled(cfg, s, Settle(w))
    ensures TInv(Apply(cfg, s, Settle(w)))
  {
    var id, t := s.workers[w].id, Apply(cfg, s, Settle(w));
    assert HoldOk(s, s.workers[w]) && OksOk(s, id) && HeldBy(s, w, id);
    forall v | 0 <= v < |s.workers| && v != w
      ensures !Delivering(s, v, id) && !HeldBy(s, v, id)
    {
      if HeldBy(s, v, id) { HolderUnique(s, v, w, id); }
    }
    LocalStep(s, t, w, id);
  }

  lemma TRelease(cfg: Config, s: State, w: nat, step: Step)
    requires TInv(s) && (step == Skip(w) || step == Crash(w)) && Enabled(cfg, s, step) && Holding(s.workers[w])
    ensures TInv(Apply(cfg, s, step))
  {
    var id, t := s.workers[w].id, Apply(cfg, s, step);
    assert HoldOk(s, s.workers[w]) && OksOk(s, id) && HeldBy(s, w, id);
    LocalStep(s, t, w, id);
  }

  lemma TEnqueue(cfg: Config, s: State, id: RowId)
    requires TInv(s) && Enabled(cfg, s, Enqueue(id))
    ensures TInv(Apply(cfg, s, Enqueue(id)))
  {
    forall v | 0 <= v < |s.workers| && Holding(s.workers[v])
      ensures s.workers[v].id in s.rows
    {
      assert HoldOk(s, s.workers[v]);
    }
    RowsMove(s, Apply(cfg, s, Enqueue(id)));
  }

  lemma TStep(cfg: Config, bound: int, s: State, step: Step)
    requires TInv(s) && SparesLive(cfg, bound, s) && Enabled(cfg, s, step)
    ensures TInv(Apply(cfg, s, step))
  {
    match step
    case Enqueue(id) => TEnqueue(cfg, s, id);
    case Reap(w) => TReap(cfg, bound, s, w);
    case Poll(w, _) => QuietMove(s, Apply(cfg, s, step), w);
    case Read(w) => QuietMove(s, Apply(cfg, s, step), w);
    case Claim(w) =>
      if Open(s.rows[s.workers[w].id]) {
        TClaim(cfg, s, w);
      } else {
        QuietMove(s, Apply(cfg, s, step), w);
      }
    case Send(w, ok) => TSend(cfg, s, w, ok);
    case Settle(w) => TSettle(cfg, s, w);
    case Skip(w) =>
      if Holding(s.workers[w]) { TRelease(cfg, s, w, step); } else { QuietMove(s, Apply(cfg, s, step), w); }
    case Crash(w) =>
      if Holding(s.workers[w]) { TRelease(cfg, s, w, step); } else { QuietMove(s, Apply(cfg, s, step), w); }
    case Tick(_) => RowsMove(s, Apply(cfg, s, step));
    case PushBack(ids, until) => TPushBack(cfg, s, ids, until);
  }

  lemma {:induction false} TRun(cfg: Config, bound: int, s: State, steps: seq<Step>, s': State)
    requires TInv(s) && TimelyRun(cfg, bound, s, steps, s') && bound <= cfg.staleAfter
    ensures TInv(s') && Timely(s', bound)
    decreases |steps|
  {
    if steps != [] {
      TStep(cfg, bound, s, steps[0]);
      TRun(cfg, bound, Apply(cfg, s, steps[0]), steps[1..], s');
    }
  }

  /** At most one live worker is ever between claim and settle on a row. */
  lemma OneSenderAtATime(cfg: Config, bound: int, n: nat, now: int, steps: seq<Step>, s: State, v: nat, w: nat, id: RowId)
    requires bound <= cfg.staleAfter && TimelyRun(cfg, bound, Start(n, now), steps, s)
    requires HeldBy(s, v, id) && HeldBy(s, w, id)
    ensures v == w
  {
    TRun(cfg, bound, Start(n, now), steps, s);
  }

  /** Successful sends of a row never exceed one plus the claims lost on it. */
  lemma DeliveriesBoundedByLosses(cfg: Config, bound: int, n: nat, now: int, steps: seq<Step>, s: State, id: RowId)
    requires bound <= cfg.staleAfter && TimelyRun(cfg, bound, Start(n, now), steps, s) && id in s.rows
    ensures id in s.hist && s.hist[id].oks <= 1 + s.hist[id].lost
  {
    TRun(cfg, bound, Start(n, now), steps, s);
    assert OksOk(s, id);
  }

  /** In a timely run, whatever the reaper frees was abandoned by its claimer. */
  lemma ReaperSound(cfg: Config, bound: int, n: nat, now: int, steps: seq<Step>, s: State, id: RowId)
    requires bound <= cfg.staleAfter && TimelyRun(cfg, bound, Start(n, now), steps, s)
    requires id in s.rows && ReapRow(cfg, s.now, s.rows[id]) != s.rows[id]
    ensures (forall w :: !HeldBy(s, w, id)) && id in s.hist && s.hist[id].lost >= 1
  {
    TRun(cfg, bound, Start(n, now), steps, s);
    ReaperFreesOnlyLostClaims(cfg, bound, s, id);
  }
}
