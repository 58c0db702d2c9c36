/** One whole tick of the worker: the loop as written, and the protocol run an undisturbed one is. */
module OutboxTick {
  import opened Outbox
  import opened OutboxProtocol

  /** One delivery of a tick: the row, how long it takes, and the transport's answer. */
  datatype Job = Job(id: RowId, took: nat, ok: bool)

  function Ids(jobs: seq<Job>): (ids: seq<RowId>)
    ensures |ids| == |jobs| && forall i | 0 <= i < |jobs| :: ids[i] == jobs[i].id
  {
    seq(|jobs|, i requires 0 <= i < |jobs| => jobs[i].id)
  }

  /** When delivery n starts. */
  function Clock(jobs: seq<Job>, n: nat, now: int): int
    requires n <= |jobs|
  {
    if n == 0 then now else Clock(jobs, n - 1, now) + jobs[n - 1].took
  }

  function DeliverOne(cfg: Config, j: Job, at: int, rows: map<RowId, Row>): map<RowId, Row> {
    if j.id in rows && Open(rows[j.id]) then rows[j.id := Delivered(cfg, at, at + j.took, j.ok, rows[j.id])] else rows
  }

  /** Rows after the first n deliveries. */
  function DeliverFirst(cfg: Config, jobs: seq<Job>, n: nat, now: int, rows: map<RowId, Row>): map<RowId, Row>
    requires n <= |jobs|
  {
    if n == 0 then rows
    else DeliverOne(cfg, jobs[n - 1], Clock(jobs, n - 1, now), DeliverFirst(cfg, jobs, n - 1, now, rows))
  }

  /** Reap, then deliver what the poll returned, one row after the other. */
  method Process(t: Table, cfg: Config, jobs: seq<Job>, now: int)
    modifies t
    ensures t.rows == DeliverFirst(cfg, jobs, |jobs|, now, ReapRows(cfg, now, old(t.rows)))
  {
    t.ReapStale(cfg, now);
    ghost var reaped := t.rows;
    var at := now;
    for i := 0 to |jobs|
      invariant at == Clock(jobs, i, now)
      invariant t.rows == DeliverFirst(cfg, jobs, i, now, reaped)
    {
      var j := jobs[i];
      var _ := t.Deliver(cfg, j.id, at, at + j.took, j.ok);
      at := at + j.took;
    }
  }

  /** What a poll at `now` may return: distinct rows that are due and have attempts left. */
  ghost predicate Polled(cfg: Config, now: int, rows: map<RowId, Row>, jobs: seq<Job>) {
    && |jobs| <= 100 && Distinct(Ids(jobs))
    && forall id | id in Ids(jobs) :: id in rows && Eligible(cfg, now, rows[id])
  }

  // ---------- what a tick achieves ----------

  lemma {:induction false} Untouched(cfg: Config, jobs: seq<Job>, n: nat, now: int, rows: map<RowId, Row>, id: RowId)
    requires n <= |jobs| && id in rows && forall i | 0 <= i < n :: jobs[i].id != id
    ensures var after := DeliverFirst(cfg, jobs, n, now, rows);
            id in after && after[id] == rows[id]
  {
    if n > 0 { Untouched(cfg, jobs, n - 1, now, rows, id); }
  }

  lemma {:induction false} DeliveredOnce(cfg: Config, jobs: seq<Job>, n: nat, now: int, rows: map<RowId, Row>, i: nat)
    requires Polled(cfg, now, rows, jobs) && i < n <= |jobs|
    ensures var after, at := DeliverFirst(cfg, jobs, n, now, rows), Clock(jobs, i, now);
            && jobs[i].id in rows && Open(rows[jobs[i].id]) && jobs[i].id in after
            && after[jobs[i].id] == Delivered(cfg, at, at + jobs[i].took, jobs[i].ok, rows[jobs[i].id])
  {
    var ids := Ids(jobs);
    assert ids[i] in ids;
    if i < n - 1 {
      DeliveredOnce(cfg, jobs, n - 1, now, rows, i);
      assert ids[i] != ids[n - 1];
    } else {
      assert forall k | 0 <= k < i :: ids[k] != ids[i];
      Untouched(cfg, jobs, i, now, rows, jobs[i].id);
    }
  }

  /**
   * A tick nobody disturbs settles every polled row: sent exactly when the transport took it,
   * dead exactly when its last attempt failed, otherwise failed with attempts left and due after
   * the backoff, counted from the end of its own delivery.  No other row changes.
   */
  lemma TickSettlesEveryRow(cfg: Config, jobs: seq<Job>, now: int, rows: map<RowId, Row>, id: RowId)
    requires Polled(cfg, now, rows, jobs) && id in rows
    ensures var after := DeliverFirst(cfg, jobs, |jobs|, now, rows);
            && id in after
            && (id !in Ids(jobs) ==> after[id] == rows[id])
            && forall i | 0 <= i < |jobs| && jobs[i].id == id ::
                 && after[id].attempts == rows[id].attempts + 1
                 && after[id].status == (if jobs[i].ok then Sent
                                         else if rows[id].attempts + 1 == cfg.maxAttempts then Dead else Failed)
                 && (if after[id].status == Failed
                     then DueAfter(cfg.backoff, after[id].attempts, Clock(jobs, i + 1, now), after[id].nextAttempt)
                     else after[id].nextAttempt == Clock(jobs, i, now))
  {
    var ids := Ids(jobs);
    if id in ids {
      var i :| 0 <= i < |ids| && ids[i] == id;
      DeliveredOnce(cfg, jobs, |jobs|, now, rows, i);
      assert forall k | 0 <= k < |jobs| && jobs[k].id == id :: ids[k] == ids[i];
    } else {
      assert forall i | 0 <= i < |jobs| :: ids[i] in ids;
      Untouched(cfg, jobs, |jobs|, now, rows, id);
    }
  }

  // ---------- a tick is a run of the protocol ----------

  lemma {:induction false} RunThen(cfg: Config, s: State, a: seq<Step>, t: State, b: seq<Step>, u: State)
    requires Run(cfg, s, a, t) && Run(cfg, t, b, u)
    ensures Run(cfg, s, a + b, u)
    decreases |a|
  {
    if a == [] {
      assert a + b == b;
    } else {
      assert (a + b)[0] == a[0] && (a + b)[1..] == a[1..] + b;
      RunThen(cfg, Apply(cfg, s, a[0]), a[1..], t, b, u);
    }
  }

  /** State t, n deliveries into the tick that worker w polled in state s. */
  ghost predicate Midway(cfg: Config, s: State, w: nat, jobs: seq<Job>, n: nat, t: State) {
    && n <= |jobs| && w < |s.workers| && Inv(cfg, t)
    && t.rows == DeliverFirst(cfg, jobs, n, s.now, s.rows) && t.now == Clock(jobs, n, s.now)
    && t.workers == s.workers[w := After(Ids(jobs)[n..])]
  }

  lemma NextTask(ids: seq<RowId>, n: nat)
    requires Distinct(ids) && n < |ids|
    ensures After(ids[n..]) == Queue(ids[n..]) && ids[n..][0] == ids[n] && ids[n..][1..] == ids[n + 1..]
    ensures ids[n] in ids && forall k | 0 <= k < n :: ids[k] != ids[n]
  {
  }

  /** The row of the next delivery is as the poll saw it. */
  lemma NextIsOpen(cfg: Config, s: State, w: nat, jobs: seq<Job>, n: nat, t: State)
    requires Polled(cfg, s.now, s.rows, jobs) && Midway(cfg, s, w, jobs, n, t) && n < |jobs|
    ensures jobs[n].id in t.rows && Open(t.rows[jobs[n].id])
  {
    NextTask(Ids(jobs), n);
    Untouched(cfg, jobs, n, s.now, s.rows, jobs[n].id);
  }

  lemma NextDelivery(cfg: Config, s: State, w: nat, jobs: seq<Job>, n: nat, t: State)
    returns (steps: seq<Step>, u: State)
    requires cfg.maxAttempts >= 1 && Polled(cfg, s.now, s.rows, jobs) && Midway(cfg, s, w, jobs, n, t) && n < |jobs|
    ensures Run(cfg, t, steps, u) && Midway(cfg, s, w, jobs, n + 1, u)
  {
    var j := jobs[n];
    NextTask(Ids(jobs), n);
    NextIsOpen(cfg, s, w, jobs, n, t);
    u := UndisturbedDelivery(cfg, t, w, j.ok, j.took);
    steps := [Read(w), Claim(w), Send(w, j.ok), Tick(j.took), Settle(w)];
    InvRun(cfg, t, steps, u);
  }

  lemma {:induction false} Deliveries(cfg: Config, s: State, w: nat, jobs: seq<Job>, n: nat, t: State)
    returns (steps: seq<Step>, u: State)
    requires cfg.maxAttempts >= 1 && Polled(cfg, s.now, s.rows, jobs) && Midway(cfg, s, w, jobs, n, t)
    ensures Run(cfg, t, steps, u) && Midway(cfg, s, w, jobs, |jobs|, u)
    decreases |jobs| - n
  {
    steps, u := [], t;
    if n < |jobs| {
      var one, mid := NextDelivery(cfg, s, w, jobs, n, t);
      var more, end := Deliveries(cfg, s, w, jobs, n + 1, mid);
      RunThen(cfg, t, one, mid, more, end);
      steps, u := one + more, end;
    }
  }

  /** The loop of `Process` is one of the protocol's runs: what every run keeps, it keeps. */
  lemma TickIsRun(cfg: Config, s: State, w: nat, jobs: seq<Job>) returns (steps: seq<Step>, u: State)
    requires cfg.maxAttempts >= 1 && Inv(cfg, s) && w < |s.workers| && s.workers[w].Idle?
    requires Polled(cfg, s.now, ReapRows(cfg, s.now, s.rows), jobs)
    ensures Run(cfg, s, steps, u) && u.workers == s.workers && u.now == Clock(jobs, |jobs|, s.now)
    ensures u.rows == DeliverFirst(cfg, jobs, |jobs|, s.now, ReapRows(cfg, s.now, s.rows))
  {
    var ids := Ids(jobs);
    var r := Apply(cfg, s, Reap(w));
    assert Enabled(cfg, r, Poll(w, ids));
    var p := Apply(cfg, r, Poll(w, ids));
    var first := [Reap(w), Poll(w, ids)];
    assert first[1..] == [Poll(w, ids)] && first[1..][1..] == [] && Run(cfg, p, [], p);
    assert Run(cfg, r, first[1..], p);
    InvStep(cfg, s, Reap(w));
    InvStep(cfg, r, Poll(w, ids));
    assert ids[0..] == ids;
    var more;
    more, u := Deliveries(cfg, p, w, jobs, 0, p);
    RunThen(cfg, s, first, p, more, u);
    assert ids[|jobs|..] == [];
    steps := first + more;
  }
}
