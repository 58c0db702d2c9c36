/**
 * Does a row whose attempts are spent always end `sent` or `dead`?  Not always: a row
 * can stay `failed` with no attempts left.  This file says exactly when.
 */
module OutboxExhaustion {
  import opened Outbox
  import opened OutboxProtocol
  import opened OutboxTiming

  /** `failed`, out of attempts, and in no worker's hands. */
  ghost predicate Stuck(cfg: Config, s: State, id: RowId) {
    && id in s.rows && s.rows[id].status == Failed && s.rows[id].attempts >= cfg.maxAttempts
    && forall w | 0 <= w < |s.workers| :: !Has(s.workers[w], Waiting, id)
  }

  /** No step settles such a row or counts another attempt: only a push-back may move its next attempt, which no poll heeds. */
  lemma {:induction false} StuckForever(cfg: Config, s: State, steps: seq<Step>, s': State, id: RowId)
    requires Stuck(cfg, s, id) && Run(cfg, s, steps, s')
    ensures Stuck(cfg, s', id) && s'.rows[id] == s.rows[id].(nextAttempt := s'.rows[id].nextAttempt)
    decreases |steps|
  {
    if steps != [] {
      var t := Apply(cfg, s, steps[0]);
      forall w | 0 <= w < |t.workers|
        ensures !Has(t.workers[w], Waiting, id)
      {
        assert !Has(s.workers[w], Waiting, id);
      }
      StuckForever(cfg, t, steps[1..], s', id);
    }
  }

  // ---------- when it cannot happen ----------

  /** A single worker's view of the attempt count is never out of date. */
  ghost predicate Fresh(s: State, p: Phase) {
    match p
    case Loaded(id, read, _) => id in s.rows && s.rows[id].attempts == read
    case Claimed(id, read, _, _) => id in s.rows && s.rows[id].attempts == read + 1
    case Answered(id, read, _, _, _) => id in s.rows && s.rows[id].attempts == read + 1
    case _ => true
  }

  ghost predicate Spent(cfg: Config, r: Row) { r.status == Failed && r.attempts >= cfg.maxAttempts }

  ghost predicate EInv(cfg: Config, s: State) {
    && TInv(s)
    && (|s.workers| <= 1 ==> forall w | 0 <= w < |s.workers| :: Fresh(s, s.workers[w]))
    && (forall id | id in s.rows && Spent(cfg, s.rows[id]) :: s.hist[id].lost >= 1)
    && (forall id | id in s.rows && s.rows[id].status == Pending :: s.rows[id].attempts == 0)
  }

  lemma FreshStep(cfg: Config, s: State, step: Step)
    requires |s.workers| <= 1 && Enabled(cfg, s, step)
    requires forall w | 0 <= w < |s.workers| :: Fresh(s, s.workers[w])
    ensures forall w | 0 <= w < |s.workers| :: Fresh(Apply(cfg, s, step), Apply(cfg, s, step).workers[w])
  {
    var t := Apply(cfg, s, step);
    forall w | 0 <= w < |s.workers|
      ensures Fresh(t, t.workers[w])
    {
      assert Fresh(s, s.workers[w]);
    }
  }

  /** A settling update never leaves the row spent: either the count read was current, or one attempt is all there is. */
  lemma SettleNotSpent(cfg: Config, s: State, w: nat)
    requires EInv(cfg, s) && Enabled(cfg, s, Settle(w))
    requires (|s.workers| <= 1 || cfg.maxAttempts <= 1) && cfg.maxAttempts >= 1
    ensures !Spent(cfg, Apply(cfg, s, Settle(w)).rows[s.workers[w].id])
  {
    assert HoldOk(s, s.workers[w]);
    assert |s.workers| <= 1 ==> Fresh(s, s.workers[w]);
  }

  lemma ReapedWasLost(cfg: Config, bound: int, s: State, w: nat, id: RowId)
    requires TInv(s) && SparesLive(cfg, bound, s) && Enabled(cfg, s, Reap(w))
    requires id in s.rows && ReapRow(cfg, s.now, s.rows[id]) != s.rows[id]
    ensures s.hist[id].lost >= 1
  {
    if |s.workers| <= 1 {
      assert OksOk(s, id) && forall v :: !HeldBy(s, v, id);
    } else {
      ReaperFreesOnlyLostClaims(cfg, bound, s, id);
    }
  }

  lemma SpentStep(cfg: Config, bound: int, s: State, step: Step, id: RowId)
    requires EInv(cfg, s) && SparesLive(cfg, bound, s) && Enabled(cfg, s, step)
    requires (|s.workers| <= 1 || cfg.maxAttempts <= 1) && cfg.maxAttempts >= 1
    requires id in Apply(cfg, s, step).rows && Spent(cfg, Apply(cfg, s, step).rows[id])
    ensures id in Apply(cfg, s, step).hist && Apply(cfg, s, step).hist[id].lost >= 1
  {
    if step.Reap? {
      if !Spent(cfg, s.rows[id]) { ReapedWasLost(cfg, bound, s, step.w, id); }
    } else if step.Settle? && s.workers[step.w].id == id {
      SettleNotSpent(cfg, s, step.w);
    } else {
      assert id in s.rows && Spent(cfg, s.rows[id]);
    }
  }

  lemma EStep(cfg: Config, bound: int, s: State, step: Step)
    requires EInv(cfg, s) && SparesLive(cfg, bound, s) && Enabled(cfg, s, step)
    requires (|s.workers| <= 1 || cfg.maxAttempts <= 1) && cfg.maxAttempts >= 1
    ensures EInv(cfg, Apply(cfg, s, step))
  {
    var t := Apply(cfg, s, step);
    TStep(cfg, bound, s, step);
    assert |t.workers| == |s.workers|;
    if |s.workers| <= 1 { FreshStep(cfg, s, step); }
    PendingStep(cfg, s, step);
    forall id | id in t.rows && Spent(cfg, t.rows[id])
      ensures t.hist[id].lost >= 1
    {
      SpentStep(cfg, bound, s, step, id);
    }
  }

  lemma PendingStep(cfg: Config, s: State, step: Step)
    requires Enabled(cfg, s, step) && forall id | id in s.rows && s.rows[id].status == Pending :: s.rows[id].attempts == 0
    ensures var t := Apply(cfg, s, step);
            forall id | id in t.rows && t.rows[id].status == Pending :: t.rows[id].attempts == 0
  {
    var t := Apply(cfg, s, step);
    forall id | id in t.rows && t.rows[id].status == Pending
      ensures t.rows[id].attempts == 0
    {
      assert id in s.rows ==> s.rows[id].status == Pending;
    }
  }

  lemma {:induction false} ERun(cfg: Config, bound: int, s: State, steps: seq<Step>, s': State)
    requires EInv(cfg, s) && TimelyRun(cfg, bound, s, steps, s') && bound <= cfg.staleAfter
    requires (|s.workers| <= 1 || cfg.maxAttempts <= 1) && cfg.maxAttempts >= 1
    ensures EInv(cfg, s')
    decreases |steps|
  {
    if steps != [] {
      EStep(cfg, bound, s, steps[0]);
      ERun(cfg, bound, Apply(cfg, s, steps[0]), steps[1..], s');
    }
  }

  /** A single worker needs no bound on its delays. */
  lemma {:induction false} ERunAlone(cfg: Config, s: State, steps: seq<Step>, s': State)
    requires EInv(cfg, s) && Run(cfg, s, steps, s') && |s.workers| <= 1 && cfg.maxAttempts >= 1
    ensures EInv(cfg, s')
    decreases |steps|
  {
    if steps != [] {
      EStep(cfg, 0, s, steps[0]);
      var t := Apply(cfg, s, steps[0]);
      assert |t.workers| == |s.workers|;
      ERunAlone(cfg, t, steps[1..], s');
    }
  }

  // ---------- when it can ----------

  lemma {:induction false} Extend(cfg: Config, bound: int, s0: State, steps: seq<Step>, s: State, step: Step)
    requires TimelyRun(cfg, bound, s0, steps, s) && Enabled(cfg, s, step) && Timely(Apply(cfg, s, step), bound)
    ensures TimelyRun(cfg, bound, s0, steps + [step], Apply(cfg, s, step))
    decreases |steps|
  {
    var all := steps + [step];
    if steps == [] {
      assert all[0] == step && all[1..] == [];
      assert TimelyRun(cfg, bound, Apply(cfg, s, step), [], Apply(cfg, s, step));
    } else {
      assert all[0] == steps[0] && all[1..] == steps[1..] + [step];
      Extend(cfg, bound, Apply(cfg, s0, steps[0]), steps[1..], s, step);
    }
  }

  /** Row 0 is due with k attempts behind it; worker 0 is idle and nobody is sending. */
  ghost predicate Due(cfg: Config, s: State, k: nat) {
    && 0 in s.rows && 0 in s.hist && Open(s.rows[0])
    && s.rows[0].attempts == k && s.rows[0].nextAttempt <= s.now && s.hist[0].lost == 0
    && |s.workers| >= 1 && s.workers[0].Idle?
    && forall w | 0 <= w < |s.workers| :: !Holding(s.workers[w])
  }

  /** Worker 0 polls, loads and claims the row. */
  lemma ToClaim(cfg: Config, bound: int, s0: State, steps: seq<Step>, s: State, k: nat)
    returns (steps': seq<Step>, t: State)
    requires TimelyRun(cfg, bound, s0, steps, s) && Due(cfg, s, k) && k < cfg.maxAttempts && bound >= 0
    ensures TimelyRun(cfg, bound, s0, steps', t)
    ensures t == s.(rows := s.rows[0 := Row(Sending, k + 1, s.now)],
                    hist := s.hist[0 := s.hist[0].(claims := s.hist[0].claims + 1)],
                    workers := s.workers[0 := Claimed(0, k, s.now, [])])
  {
    var a := Apply(cfg, s, Poll(0, [0]));
    Extend(cfg, bound, s0, steps, s, Poll(0, [0]));
    var b := Apply(cfg, a, Read(0));
    Extend(cfg, bound, s0, steps + [Poll(0, [0])], a, Read(0));
    t := Apply(cfg, b, Claim(0));
    Extend(cfg, bound, s0, steps + [Poll(0, [0])] + [Read(0)], b, Claim(0));
    steps' := steps + [Poll(0, [0])] + [Read(0)] + [Claim(0)];
    assert a.workers[0] == Queue([0]) && b.workers[0] == Loaded(0, k, []);
    assert t.workers == s.workers[0 := Claimed(0, k, s.now, [])];
  }

  /** One failed try by worker 0 that leaves budget, and the wait until the next one. */
  lemma FailOnce(cfg: Config, bound: int, s0: State, steps: seq<Step>, s: State, k: nat)
    returns (steps': seq<Step>, t: State)
    requires TimelyRun(cfg, bound, s0, steps, s) && Due(cfg, s, k) && k + 1 < cfg.maxAttempts && bound >= 0
    ensures TimelyRun(cfg, bound, s0, steps', t) && Due(cfg, t, k + 1) && t.workers == s.workers
  {
    var claimed, c := ToClaim(cfg, bound, s0, steps, s, k);
    var d := Apply(cfg, c, Send(0, false));
    Extend(cfg, bound, s0, claimed, c, Send(0, false));
    var e := Apply(cfg, d, Settle(0));
    Extend(cfg, bound, s0, claimed + [Send(0, false)], d, Settle(0));
    var wait := Backoff(cfg.backoff, k);
    var tick := Tick(if wait < 0 then 0 else wait);
    t := Apply(cfg, e, tick);
    Extend(cfg, bound, s0, claimed + [Send(0, false)] + [Settle(0)], e, tick);
    steps' := claimed + [Send(0, false)] + [Settle(0)] + [tick];
    assert t.workers == s.workers;
  }

  lemma {:induction false} FailUntil(cfg: Config, bound: int, s0: State, steps: seq<Step>, s: State, k: nat)
    returns (steps': seq<Step>, t: State)
    requires TimelyRun(cfg, bound, s0, steps, s) && Due(cfg, s, k) && k < cfg.maxAttempts && bound >= 0
    ensures TimelyRun(cfg, bound, s0, steps', t) && Due(cfg, t, cfg.maxAttempts - 1) && t.workers == s.workers
    decreases cfg.maxAttempts - k
  {
    steps', t := steps, s;
    if k + 1 < cfg.maxAttempts {
      steps', t := FailOnce(cfg, bound, s0, steps, s, k);
      steps', t := FailUntil(cfg, bound, s0, steps', t, k + 1);
    }
  }

  ghost predicate EndsStuck(cfg: Config, bound: int, n: nat, now: int, steps: seq<Step>, s: State, id: RowId, lost: nat) {
    TimelyRun(cfg, bound, Start(n, now), steps, s) && Stuck(cfg, s, id) && id in s.hist && s.hist[id].lost == lost
  }

  lemma FirstRow(cfg: Config, bound: int, n: nat, now: int) returns (steps: seq<Step>, s: State)
    requires n >= 1
    ensures TimelyRun(cfg, bound, Start(n, now), steps, s) && Due(cfg, s, 0) && s.workers == Start(n, now).workers
  {
    var s0 := Start(n, now);
    assert TimelyRun(cfg, bound, s0, [], s0);
    Extend(cfg, bound, s0, [], s0, Enqueue(0));
    steps, s := [] + [Enqueue(0)], Apply(cfg, s0, Enqueue(0));
  }

  /** Worker w polls the row and loads its attempt count. */
  lemma ToLoaded(cfg: Config, bound: int, s0: State, steps: seq<Step>, s: State, w: nat, k: nat)
    returns (steps': seq<Step>, t: State)
    requires TimelyRun(cfg, bound, s0, steps, s) && Due(cfg, s, k) && k < cfg.maxAttempts
    requires w < |s.workers| && s.workers[w].Idle?
    ensures TimelyRun(cfg, bound, s0, steps', t) && t == s.(workers := s.workers[w := Loaded(0, k, [])])
  {
    var a := Apply(cfg, s, Poll(w, [0]));
    Extend(cfg, bound, s0, steps, s, Poll(w, [0]));
    t := Apply(cfg, a, Read(w));
    assert a.workers[w] == Queue([0]);
    Extend(cfg, bound, s0, steps + [Poll(w, [0])], a, Read(w));
    steps' := steps + [Poll(w, [0])] + [Read(w)];
    assert a.workers[w].todo[1..] == [] && t.workers == s.workers[w := Loaded(0, k, [])];
  }

  /** Worker w, holding an old count, claims the row, fails to send and settles. */
  lemma FailFromLoaded(cfg: Config, bound: int, s0: State, steps: seq<Step>, s: State, w: nat, k: nat, read: nat)
    returns (steps': seq<Step>, t: State)
    requires TimelyRun(cfg, bound, s0, steps, s) && Due(cfg, s, k) && bound >= 0
    requires w < |s.workers| && s.workers[w] == Loaded(0, read, [])
    ensures TimelyRun(cfg, bound, s0, steps', t) && t.workers == s.workers[w := Idle]
    ensures 0 in t.rows && t.rows[0].attempts == k + 1
    ensures t.rows[0].status == if read + 1 >= cfg.maxAttempts then Dead else Failed
    ensures 0 in t.hist && t.hist[0].lost == 0
  {
    var d := Apply(cfg, s, Claim(w));
    Extend(cfg, bound, s0, steps, s, Claim(w));
    var f := Apply(cfg, d, Send(w, false));
    Extend(cfg, bound, s0, steps + [Claim(w)], d, Send(w, false));
    t := Apply(cfg, f, Settle(w));
    Extend(cfg, bound, s0, steps + [Claim(w)] + [Send(w, false)], f, Settle(w));
    steps' := steps + [Claim(w)] + [Send(w, false)] + [Settle(w)];
    assert t.workers == s.workers[w := Idle];
  }

  /** Two workers suffice: one loads the count early, the other spends the attempts. */
  lemma StaleReadSticks(cfg: Config, bound: int, n: nat, now: int) returns (steps: seq<Step>, s: State)
    requires n >= 2 && cfg.maxAttempts >= 2 && bound >= 0
    ensures EndsStuck(cfg, bound, n, now, steps, s, 0, 0)
  {
    var s0 := Start(n, now);
    steps, s := FirstRow(cfg, bound, n, now);
    steps, s := ToLoaded(cfg, bound, s0, steps, s, 1, 0);
    steps, s := FailUntil(cfg, bound, s0, steps, s, 0);
    steps, s := FailFromLoaded(cfg, bound, s0, steps, s, 1, cfg.maxAttempts - 1, 0);
    assert forall w | 0 <= w < |s.workers| :: s.workers[w].Idle?;
  }

  /** Long enough for the reaper. */
  function Stale(cfg: Config): int { if cfg.staleAfter < 0 then 0 else cfg.staleAfter + 1 }

  /** Worker w holds an unsent claim on row 0, and nobody else holds any. */
  ghost predicate Sole(s: State, w: nat) {
    && w < |s.workers| && 0 in s.rows && 0 in s.hist
    && s.workers[w].Claimed? && s.workers[w].id == 0 && s.workers[w].rest == [] && s.workers[w].at <= s.now
    && s.rows[0].status == Sending && s.rows[0].nextAttempt == s.workers[w].at
    && forall v | 0 <= v < |s.workers| && v != w :: !Holding(s.workers[v])
  }

  /** Worker w crashes with the claim in hand, and comes back to reap it. */
  lemma LoseClaim(cfg: Config, bound: int, s0: State, steps: seq<Step>, s: State, w: nat)
    returns (steps': seq<Step>, t: State)
    requires TimelyRun(cfg, bound, s0, steps, s) && Sole(s, w) && bound >= 0
    ensures TimelyRun(cfg, bound, s0, steps', t) && t.workers == s.workers[w := Idle] && t.now >= s.now
    ensures 0 in t.rows && t.rows[0] == s.rows[0].(status := Failed)
    ensures 0 in t.hist && t.hist[0] == s.hist[0].(lost := s.hist[0].lost + 1)
  {
    var f := Apply(cfg, s, Crash(w));
    Extend(cfg, bound, s0, steps, s, Crash(w));
    var tick := Tick(Stale(cfg));
    var g := Apply(cfg, f, tick);
    Extend(cfg, bound, s0, steps + [Crash(w)], f, tick);
    t := Apply(cfg, g, Reap(w));
    Extend(cfg, bound, s0, steps + [Crash(w)] + [tick], g, Reap(w));
    steps' := steps + [Crash(w)] + [tick] + [Reap(w)];
  }

  lemma Unhanded(s: State, id: RowId)
    requires forall w | 0 <= w < |s.workers| :: s.workers[w].Idle?
    ensures forall w | 0 <= w < |s.workers| :: !Has(s.workers[w], Waiting, id)
  {
  }

  /** One worker and one crash on the last attempt suffice too: the reaper frees a row nobody may poll. */
  lemma CrashSticks(cfg: Config, bound: int, n: nat, now: int) returns (steps: seq<Step>, s: State)
    requires n >= 1 && cfg.maxAttempts >= 1 && bound >= 0
    ensures EndsStuck(cfg, bound, n, now, steps, s, 0, 1)
  {
    var s0 := Start(n, now);
    steps, s := FirstRow(cfg, bound, n, now);
    steps, s := FailUntil(cfg, bound, s0, steps, s, 0);
    steps, s := ToClaim(cfg, bound, s0, steps, s, cfg.maxAttempts - 1);
    steps, s := LoseClaim(cfg, bound, s0, steps, s, 0);
    Unhanded(s, 0);
  }

  /** The last attempt is reaped by another worker while its sender is still busy; the failure that follows settles nothing. */
  lemma ReapWhileSending(cfg: Config, bound: int, s0: State, steps: seq<Step>, s: State)
    returns (steps': seq<Step>, t: State)
    requires TimelyRun(cfg, bound, s0, steps, s) && Sole(s, 0) && bound >= Stale(cfg)
    requires |s.workers| >= 2 && s.workers[1].Idle? && s.now == s.workers[0].at
    ensures TimelyRun(cfg, bound, s0, steps', t) && t.workers == s.workers[0 := Idle]
    ensures 0 in t.rows && t.rows[0] == s.rows[0].(status := Failed)
    ensures 0 in t.hist && t.hist[0].lost == s.hist[0].lost
  {
    var tick := Tick(Stale(cfg));
    var f := Apply(cfg, s, tick);
    Extend(cfg, bound, s0, steps, s, tick);
    var g := Apply(cfg, f, Reap(1));
    Extend(cfg, bound, s0, steps + [tick], f, Reap(1));
    var h := Apply(cfg, g, Send(0, false));
    Extend(cfg, bound, s0, steps + [tick] + [Reap(1)], g, Send(0, false));
    t := Apply(cfg, h, Settle(0));
    Extend(cfg, bound, s0, steps + [tick] + [Reap(1)] + [Send(0, false)], h, Settle(0));
    steps' := steps + [tick] + [Reap(1)] + [Send(0, false)] + [Settle(0)];
  }

  /** Two workers and one slow send suffice for any number of attempts. */
  lemma SlowSendSticks(cfg: Config, n: nat, now: int) returns (steps: seq<Step>, s: State)
    requires n >= 2 && cfg.maxAttempts >= 1
    ensures EndsStuck(cfg, Stale(cfg), n, now, steps, s, 0, 0)
    ensures forall w: nat :: !HeldBy(s, w, 0)
  {
    var s0 := Start(n, now);
    steps, s := FirstRow(cfg, Stale(cfg), n, now);
    steps, s := FailUntil(cfg, Stale(cfg), s0, steps, s, 0);
    steps, s := ToClaim(cfg, Stale(cfg), s0, steps, s, cfg.maxAttempts - 1);
    steps, s := ReapWhileSending(cfg, Stale(cfg), s0, steps, s);
    Unhanded(s, 0);
  }

  // ---------- the exact condition ----------

  /**
   * Without lost claims, a timely run can leave a spent row stuck in `failed`
   * exactly when at least two workers run and at least two attempts are allowed.
   */
  lemma StuckWithoutLossExactly(cfg: Config, bound: int, n: nat, now: int)
    requires cfg.maxAttempts >= 1 && 0 <= bound <= cfg.staleAfter
    ensures (exists steps, s, id :: EndsStuck(cfg, bound, n, now, steps, s, id, 0))
            <==> n >= 2 && cfg.maxAttempts >= 2
  {
    if n >= 2 && cfg.maxAttempts >= 2 {
      var steps, s := StaleReadSticks(cfg, bound, n, now);
    } else if steps, s, id :| EndsStuck(cfg, bound, n, now, steps, s, id, 0) {
      ERun(cfg, bound, Start(n, now), steps, s);
      assert Spent(cfg, s.rows[id]);
    }
  }

  ghost predicate SticksUnlost(cfg: Config, n: nat, now: int, steps: seq<Step>, s: State, id: RowId) {
    Run(cfg, Start(n, now), steps, s) && Stuck(cfg, s, id) && id in s.hist && s.hist[id].lost == 0
  }

  /** With no bound on delays two workers are enough, whatever the number of attempts; one worker never is. */
  lemma StuckUntimelyExactly(cfg: Config, n: nat, now: int)
    requires cfg.maxAttempts >= 1
    ensures (exists steps, s, id :: SticksUnlost(cfg, n, now, steps, s, id)) <==> n >= 2
  {
    if n >= 2 {
      var steps, s := SlowSendSticks(cfg, n, now);
      TimelyRunIsRun(cfg, Stale(cfg), Start(n, now), steps, s);
      assert SticksUnlost(cfg, n, now, steps, s, 0);
    } else if steps, s, id :| SticksUnlost(cfg, n, now, steps, s, id) {
      ERunAlone(cfg, Start(n, now), steps, s);
      assert Spent(cfg, s.rows[id]);
    }
  }

  /** With lost claims allowed, every configuration can. */
  lemma StuckWithLossAlways(cfg: Config, bound: int, n: nat, now: int)
    requires cfg.maxAttempts >= 1 && bound >= 0 && n >= 1
    ensures exists steps, s :: EndsStuck(cfg, bound, n, now, steps, s, 0, 1)
  {
    var steps, s := CrashSticks(cfg, bound, n, now);
  }

  // ---------- when rows do end ----------

  /** All attempts have been made, none was lost, and no worker is sending. */
  ghost predicate AllTried(cfg: Config, s: State, id: RowId) {
    && id in s.rows && id in s.hist && s.rows[id].attempts >= cfg.maxAttempts && s.hist[id].lost == 0
    && forall w: nat :: !HeldBy(s, w, id)
  }

  ghost predicate Ended(s: State, id: RowId)
    requires id in s.rows
  {
    s.rows[id].status == Sent || s.rows[id].status == Dead
  }

  lemma AllTriedEnds(cfg: Config, s: State, id: RowId)
    requires EInv(cfg, s) && AllTried(cfg, s, id) && cfg.maxAttempts >= 1
    ensures Ended(s, id)
  {
    assert OksOk(s, id);
    assert !Spent(cfg, s.rows[id]);
  }

  ghost predicate TriedInTime(cfg: Config, bound: int, n: nat, now: int, steps: seq<Step>, s: State, id: RowId) {
    TimelyRun(cfg, bound, Start(n, now), steps, s) && AllTried(cfg, s, id)
  }

  /** In timely runs every row tried in full ends sent or dead exactly when at most one worker runs or one attempt is allowed. */
  lemma TriedRowsEndExactly(cfg: Config, bound: int, n: nat, now: int)
    requires cfg.maxAttempts >= 1 && 0 <= bound <= cfg.staleAfter
    ensures (forall steps, s, id | TriedInTime(cfg, bound, n, now, steps, s, id) :: Ended(s, id))
            <==> n <= 1 || cfg.maxAttempts <= 1
  {
    if n <= 1 || cfg.maxAttempts <= 1 {
      forall steps, s, id | TriedInTime(cfg, bound, n, now, steps, s, id)
        ensures Ended(s, id)
      {
        ERun(cfg, bound, Start(n, now), steps, s);
        AllTriedEnds(cfg, s, id);
      }
    } else {
      var steps, s := StaleReadSticks(cfg, bound, n, now);
      StuckIsTried(cfg, bound, n, now, steps, s);
    }
  }

  /** Nobody is sending the stuck row: its latest claim has been settled, in time. */
  lemma StuckIsTried(cfg: Config, bound: int, n: nat, now: int, steps: seq<Step>, s: State)
    requires 0 <= bound <= cfg.staleAfter && EndsStuck(cfg, bound, n, now, steps, s, 0, 0)
    ensures TriedInTime(cfg, bound, n, now, steps, s, 0) && !Ended(s, 0)
  {
    TRun(cfg, bound, Start(n, now), steps, s);
    forall w: nat
      ensures !HeldBy(s, w, 0)
    {
      HeldIsSending(s, w, 0);
    }
  }

  lemma HeldIsSending(s: State, w: nat, id: RowId)
    requires TInv(s)
    ensures HeldBy(s, w, id) ==> id in s.rows && s.rows[id].status == Sending
  {
    if HeldBy(s, w, id) { assert HoldOk(s, s.workers[w]); }
  }

  ghost predicate TriedAnyhow(cfg: Config, n: nat, now: int, steps: seq<Step>, s: State, id: RowId) {
    Run(cfg, Start(n, now), steps, s) && AllTried(cfg, s, id)
  }

  /** With no bound on delays, exactly when at most one worker runs. */
  lemma TriedRowsEndUntimelyExactly(cfg: Config, n: nat, now: int)
    requires cfg.maxAttempts >= 1
    ensures (forall steps, s, id | TriedAnyhow(cfg, n, now, steps, s, id) :: Ended(s, id)) <==> n <= 1
  {
    if n <= 1 {
      forall steps, s, id | TriedAnyhow(cfg, n, now, steps, s, id)
        ensures Ended(s, id)
      {
        ERunAlone(cfg, Start(n, now), steps, s);
        AllTriedEnds(cfg, s, id);
      }
    } else {
      var steps, s := SlowSendSticks(cfg, n, now);
      TimelyRunIsRun(cfg, Stale(cfg), Start(n, now), steps, s);
      assert TriedAnyhow(cfg, n, now, steps, s, 0) && !Ended(s, 0);
    }
  }

  // ---------- the bound on claims is reached ----------

  /** Workers before w have crashed and reaped; the others still hold row 0 from their poll. */
  ghost predicate Lined(cfg: Config, n: nat, s: State, w: nat) {
    && w <= n == |s.workers| && 0 in s.rows && 0 in s.hist
    && Open(s.rows[0]) && s.rows[0].attempts == cfg.maxAttempts - 1 + w
    && forall v | 0 <= v < n :: s.workers[v] == if v < w then Idle else Queue([0])
  }

  /** Workers before w have polled row 0. */
  ghost predicate Polling(cfg: Config, n: nat, s: State, w: nat) {
    && w <= n == |s.workers| && 0 in s.rows && 0 in s.hist
    && Eligible(cfg, s.now, s.rows[0]) && s.rows[0].attempts == cfg.maxAttempts - 1
    && forall v | 0 <= v < n :: s.workers[v] == if v < w then Queue([0]) else Idle
  }

  lemma {:induction false} AllPoll(cfg: Config, n: nat, s0: State, steps: seq<Step>, s: State, w: nat)
    returns (steps': seq<Step>, t: State)
    requires cfg.maxAttempts >= 1 && TimelyRun(cfg, 0, s0, steps, s) && Polling(cfg, n, s, w)
    ensures TimelyRun(cfg, 0, s0, steps', t) && Lined(cfg, n, t, 0)
    decreases n - w
  {
    steps', t := steps, s;
    if w < n {
      t := Apply(cfg, s, Poll(w, [0]));
      Extend(cfg, 0, s0, steps, s, Poll(w, [0]));
      steps', t := AllPoll(cfg, n, s0, steps + [Poll(w, [0])], t, w + 1);
    }
  }

  /** The next worker in line claims the row, whatever its attempts, and crashes. */
  lemma ClaimAndCrash(cfg: Config, n: nat, s0: State, steps: seq<Step>, s: State, w: nat)
    returns (steps': seq<Step>, t: State)
    requires cfg.maxAttempts >= 1 && TimelyRun(cfg, 0, s0, steps, s) && Lined(cfg, n, s, w) && w < n
    ensures TimelyRun(cfg, 0, s0, steps', t) && Lined(cfg, n, t, w + 1)
  {
    assert s.workers[w] == Queue([0]);
    var a := Apply(cfg, s, Read(w));
    Extend(cfg, 0, s0, steps, s, Read(w));
    assert a.workers[w] == Loaded(0, s.rows[0].attempts, []);
    var b := Apply(cfg, a, Claim(w));
    Extend(cfg, 0, s0, steps + [Read(w)], a, Claim(w));
    assert Sole(b, w);
    steps', t := LoseClaim(cfg, 0, s0, steps + [Read(w)] + [Claim(w)], b, w);
    assert t.workers == s.workers[w := Idle];
  }

  lemma {:induction false} AllClaim(cfg: Config, n: nat, s0: State, steps: seq<Step>, s: State, w: nat)
    returns (steps': seq<Step>, t: State)
    requires cfg.maxAttempts >= 1 && TimelyRun(cfg, 0, s0, steps, s) && Lined(cfg, n, s, w)
    ensures TimelyRun(cfg, 0, s0, steps', t) && Lined(cfg, n, t, n)
    decreases n - w
  {
    steps', t := steps, s;
    if w < n {
      steps', t := ClaimAndCrash(cfg, n, s0, steps, s, w);
      steps', t := AllClaim(cfg, n, s0, steps', t, w + 1);
    }
  }

  /** Some run makes exactly maxAttempts + W - 1 claims on one row: the bound cannot be lowered. */
  lemma ClaimsBoundReached(cfg: Config, n: nat, now: int) returns (steps: seq<Step>, s: State)
    requires cfg.maxAttempts >= 1 && n >= 1
    ensures Run(cfg, Start(n, now), steps, s)
    ensures 0 in s.hist && s.hist[0].claims == cfg.maxAttempts + n - 1
  {
    var s0 := Start(n, now);
    steps, s := FirstRow(cfg, 0, n, now);
    steps, s := FailUntil(cfg, 0, s0, steps, s, 0);
    assert Polling(cfg, n, s, 0);
    steps, s := AllPoll(cfg, n, s0, steps, s, 0);
    steps, s := AllClaim(cfg, n, s0, steps, s, 0);
    TimelyRunIsRun(cfg, 0, s0, steps, s);
    ClaimsBounded(cfg, n, now, steps, s, 0);
  }
}
