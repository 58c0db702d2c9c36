/** When a row comes up again: after a failed attempt, and after a lost claim. */
module OutboxRetry {
  import opened Common
  import opened Outbox
  import opened OutboxProtocol

  // ---------- what a poll takes ----------

  /** A poll takes up to 100 different rows, all of them open, due and with attempts left; and any of those. */
  lemma PollExactly(cfg: Config, s: State, w: nat, ids: seq<RowId>)
    requires w < |s.workers| && s.workers[w].Idle?
    ensures Enabled(cfg, s, Poll(w, ids)) <==>
            && |ids| <= 100 && (forall i, j | 0 <= i < j < |ids| :: ids[i] != ids[j])
            && forall id | id in ids ::
                 && id in s.rows && (s.rows[id].status == Pending || s.rows[id].status == Failed)
                 && s.rows[id].nextAttempt <= s.now && s.rows[id].attempts < cfg.maxAttempts
  {
  }

  /** A new row can be polled at once, unless no attempt is allowed at all. */
  lemma NewRowIsDue(cfg: Config, s: State, w: nat, id: RowId)
    requires w < |s.workers| && s.workers[w].Idle? && id !in s.rows
    ensures Enabled(cfg, Apply(cfg, s, Enqueue(id)), Poll(w, [id])) <==> cfg.maxAttempts > 0
  {
  }

  // ---------- after a failed attempt ----------

  /** Worker w is about to settle a failed attempt that leaves attempts, on a row that is still its own. */
  predicate Fails(cfg: Config, s: State, w: nat, id: RowId) {
    && w < |s.workers| && s.workers[w].Answered? && s.workers[w].id == id && !s.workers[w].ok
    && id in s.rows && s.rows[id].status == Sending && s.workers[w].read + 1 < cfg.maxAttempts
  }

  ghost predicate InHand(s: State, id: RowId) {
    exists v: nat :: v < |s.workers| && Has(s.workers[v], Waiting, id)
  }

  /** No message spacing moves the row. */
  predicate Spares(step: Step, id: RowId) { step.PushBack? ==> id !in step.waiting }

  lemma OneStepWaits(cfg: Config, s: State, step: Step, id: RowId, r: Row)
    requires Enabled(cfg, s, step) && Spares(step, id) && id in s.rows && s.rows[id] == r && r.status == Failed
    ensures var t := Apply(cfg, s, step);
            && id in t.rows && t.rows[id].attempts >= r.attempts && (t.rows[id].attempts == r.attempts ==> t.rows[id] == r)
            && t.now >= s.now
  {
  }

  lemma {:induction false} OnlyGrows(cfg: Config, s: State, steps: seq<Step>, s': State, id: RowId)
    requires Run(cfg, s, steps, s') && id in s.rows
    ensures id in s'.rows && s'.rows[id].attempts >= s.rows[id].attempts && s'.now >= s.now
    decreases |steps|
  {
    if steps != [] {
      var t := Apply(cfg, s, steps[0]);
      assert id in t.rows && t.rows[id].attempts >= s.rows[id].attempts && t.now >= s.now;
      OnlyGrows(cfg, t, steps[1..], s', id);
    }
  }

  /** Until it is claimed again, a failed row stays as it is. */
  lemma {:induction false} FailedRowWaits(cfg: Config, s: State, steps: seq<Step>, s': State, id: RowId, r: Row)
    requires Run(cfg, s, steps, s') && id in s.rows && s.rows[id] == r && r.status == Failed
    requires forall i | 0 <= i < |steps| :: Spares(steps[i], id)
    requires id in s'.rows && s'.rows[id].attempts == r.attempts
    ensures s'.rows[id] == r
    decreases |steps|
  {
    if steps != [] {
      var t := Apply(cfg, s, steps[0]);
      OneStepWaits(cfg, s, steps[0], id, r);
      OnlyGrows(cfg, t, steps[1..], s', id);
      FailedRowWaits(cfg, t, steps[1..], s', id, r);
    }
  }

  /** While it is not due, no worker gets hold of the row that does not have it in hand. */
  lemma NobodyTakes(cfg: Config, s: State, step: Step, id: RowId)
    requires Enabled(cfg, s, step) && Spares(step, id) && id in s.rows && s.rows[id].status == Failed
    requires s.now < s.rows[id].nextAttempt && !InHand(s, id)
    ensures !InHand(Apply(cfg, s, step), id) && Apply(cfg, s, step).rows[id] == s.rows[id]
  {
    var t := Apply(cfg, s, step);
    forall v: nat | v < |t.workers|
      ensures !Has(t.workers[v], Waiting, id)
    {
      assert !Has(s.workers[v], Waiting, id);
    }
    if step.Claim? { assert !Has(s.workers[step.w], Waiting, id); }
  }

  lemma {:induction false} NobodyComes(cfg: Config, s: State, steps: seq<Step>, s': State, id: RowId, r: Row)
    requires Run(cfg, s, steps, s') && id in s.rows && s.rows[id] == r && r.status == Failed
    requires forall i | 0 <= i < |steps| :: Spares(steps[i], id)
    requires s'.now < r.nextAttempt && !InHand(s, id)
    ensures !InHand(s', id) && id in s'.rows && s'.rows[id] == r
    decreases |steps|
  {
    if steps != [] {
      OnlyGrows(cfg, s, steps, s', id);
      NobodyTakes(cfg, s, steps[0], id);
      NobodyComes(cfg, Apply(cfg, s, steps[0]), steps[1..], s', id, r);
    }
  }

  /** The settlement itself: failed, the attempts as claimed, due after the backoff. */
  lemma FailureIsDated(cfg: Config, s: State, w: nat, id: RowId)
    requires Fails(cfg, s, w, id)
    ensures var r := Apply(cfg, s, Settle(w)).rows[id];
            && r.status == Failed && r.attempts == s.rows[id].attempts
            && DueAfter(cfg.backoff, s.workers[w].read + 1, s.now, r.nextAttempt)
  {
  }

  /**
   * In every run that does not push the row back: after the n-th attempt failed, the row is due
   * at its date and at no other; until it is claimed again no poll takes it before, and no worker
   * claims it before that did not have it in hand already.
   */
  lemma RetryWaits(cfg: Config, s: State, w: nat, id: RowId, steps: seq<Step>, s': State, due: int)
    requires Fails(cfg, s, w, id) && DueAfter(cfg.backoff, s.workers[w].read + 1, s.now, due)
    requires Run(cfg, Apply(cfg, s, Settle(w)), steps, s') && forall i | 0 <= i < |steps| :: Spares(steps[i], id)
    ensures id in s'.rows && s'.rows[id].attempts >= s.rows[id].attempts
    ensures s'.rows[id].attempts == s.rows[id].attempts ==>
              && s'.rows[id] == Row(Failed, s.rows[id].attempts, due)
              && forall v: nat, ids | id in ids && Enabled(cfg, s', Poll(v, ids)) :: s'.now >= due
    ensures !InHand(s, id) && s'.now < due ==>
              !InHand(s', id) && s'.rows[id] == Row(Failed, s.rows[id].attempts, due)
  {
    var t := Apply(cfg, s, Settle(w));
    FailureIsDated(cfg, s, w, id);
    OnlyGrows(cfg, t, steps, s', id);
    if s'.rows[id].attempts == s.rows[id].attempts {
      FailedRowWaits(cfg, t, steps, s', id, t.rows[id]);
    }
    if !InHand(s, id) && s'.now < due {
      forall v: nat | v < |t.workers|
        ensures !Has(t.workers[v], Waiting, id)
      {
        assert !Has(s.workers[v], Waiting, id);
      }
      NobodyComes(cfg, t, steps, s', id, t.rows[id]);
    }
  }

  // ---------- after a lost claim ----------

  /**
   * A row left in `sending` is opened by a reap exactly when its mark is older than staleAfter,
   * and a poll can take it then exactly when it has attempts left and its mark is not ahead of the clock.
   */
  lemma LostClaimReturnsExactly(cfg: Config, s: State, w: nat, id: RowId)
    requires id in s.rows && s.rows[id].status == Sending && w < |s.workers| && s.workers[w].Idle?
    ensures var r, t := s.rows[id], Apply(cfg, s, Reap(w));
            && (t.rows[id].status == Failed <==> s.now - r.nextAttempt > cfg.staleAfter)
            && t.rows[id].attempts == r.attempts && t.rows[id].nextAttempt == r.nextAttempt
            && (Enabled(cfg, t, Poll(w, [id])) <==>
                  s.now - r.nextAttempt > cfg.staleAfter && r.nextAttempt <= s.now && r.attempts < cfg.maxAttempts)
  {
  }
}
