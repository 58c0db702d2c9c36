/** Interleavings of outbox workers: steps, runs and the invariants they keep. */
module OutboxProtocol {
  import opened Outbox

  /** Where a worker stands between two statements. */
  datatype Phase =
    | Idle
    | Queue(todo: seq<RowId>)                                                        // polled, nothing loaded
    | Loaded(id: RowId, read: nat, rest: seq<RowId>)                                 // attempts read, not claimed
    | Claimed(id: RowId, read: nat, at: int, rest: seq<RowId>)                       // claim won, sending
    | Answered(id: RowId, read: nat, ok: bool, at: int, rest: seq<RowId>)            // transport answered, not settled

  /** What has happened to a row so far; nothing in the code reads it. */
  datatype History = History(claims: nat, sends: nat, oks: nat, lost: nat)

  datatype State = State(rows: map<RowId, Row>, hist: map<RowId, History>, workers: seq<Phase>, now: int)

  datatype Step =
    | Enqueue(id: RowId)
    | Reap(w: nat)
    | Poll(w: nat, ids: seq<RowId>)
    | Read(w: nat)
    | Claim(w: nat)
    | Send(w: nat, ok: bool)
    | Settle(w: nat)
    | Skip(w: nat)   // a statement failed: the worker moves on to its next task
    | Crash(w: nat)  // the worker restarts with nothing in hand
    | Tick(d: int)
    | PushBack(waiting: set<RowId>, until: int) // spacing of WhatsApp messages

  predicate Eligible(cfg: Config, now: int, r: Row) {
    Open(r) && r.nextAttempt <= now && r.attempts < cfg.maxAttempts
  }

  predicate Distinct(ids: seq<RowId>) {
    forall i, j | 0 <= i < j < |ids| :: ids[i] != ids[j]
  }

  function After(rest: seq<RowId>): Phase {
    if rest == [] then Idle else Queue(rest)
  }

  predicate Holding(p: Phase) { p.Claimed? || p.Answered? }

  predicate Enabled(cfg: Config, s: State, step: Step) {
    match step
    case Enqueue(id) => id !in s.rows
    case Reap(w) => w < |s.workers| && s.workers[w].Idle?
    case Poll(w, ids) =>
      w < |s.workers| && s.workers[w].Idle? && Distinct(ids) && |ids| <= BATCH_SIZE
      && forall id | id in ids :: id in s.rows && Eligible(cfg, s.now, s.rows[id])
    case Read(w) => w < |s.workers| && s.workers[w].Queue? && s.workers[w].todo != []
                    && s.workers[w].todo[0] in s.rows
    case Claim(w) => w < |s.workers| && s.workers[w].Loaded? && s.workers[w].id in s.rows && s.workers[w].id in s.hist
    case Send(w, _) => w < |s.workers| && s.workers[w].Claimed? && s.workers[w].id in s.hist
    case Settle(w) => w < |s.workers| && s.workers[w].Answered? && s.workers[w].id in s.rows
    case Skip(w) => w < |s.workers| && !s.workers[w].Idle? && (s.workers[w].Queue? ==> s.workers[w].todo != [])
                    && (Holding(s.workers[w]) ==> s.workers[w].id in s.hist)
    case Crash(w) => w < |s.workers| && (Holding(s.workers[w]) ==> s.workers[w].id in s.hist)
    case Tick(d) => d >= 0
    case PushBack(ids, _) => forall id | id in ids :: id in s.rows && Open(s.rows[id])
  }

  /** A worker gives up the claim it holds, if any. */
  function Forget(s: State, p: Phase): map<RowId, History>
    requires Holding(p) ==> p.id in s.hist
  {
    if Holding(p) then s.hist[p.id := s.hist[p.id].(lost := s.hist[p.id].lost + 1)] else s.hist
  }

  function Apply(cfg: Config, s: State, step: Step): State
    requires Enabled(cfg, s, step)
  {
    match step
    case Enqueue(id) =>
      s.(rows := s.rows[id := Row(Pending, 0, s.now)], hist := s.hist[id := History(0, 0, 0, 0)])
    case Reap(_) => s.(rows := ReapRows(cfg, s.now, s.rows))
    case Poll(w, ids) => s.(workers := s.workers[w := After(ids)])
    case Read(w) =>
      var id := s.workers[w].todo[0];
      s.(workers := s.workers[w := Loaded(id, s.rows[id].attempts, s.workers[w].todo[1..])])
    case Claim(w) =>
      var Loaded(id, read, rest) := s.workers[w];
      if Open(s.rows[id]) then
        s.(rows := s.rows[id := ClaimRow(s.now, s.rows[id])],
           hist := s.hist[id := s.hist[id].(claims := s.hist[id].claims + 1)],
           workers := s.workers[w := Claimed(id, read, s.now, rest)])
      else s.(workers := s.workers[w := After(rest)])
    case Send(w, ok) =>
      var Claimed(id, read, at, rest) := s.workers[w];
      var h := s.hist[id];
      s.(hist := s.hist[id := h.(sends := h.sends + 1, oks := h.oks + if ok then 1 else 0)],
         workers := s.workers[w := Answered(id, read, ok, at, rest)])
    case Settle(w) =>
      var Answered(id, read, ok, at, rest) := s.workers[w];
      s.(rows := s.rows[id := SettleRow(cfg, s.now, read, ok, s.rows[id])],
         workers := s.workers[w := After(rest)])
    case Skip(w) =>
      var p := s.workers[w];
      s.(hist := Forget(s, p), workers := s.workers[w := After(if p.Queue? then p.todo[1..] else p.rest)])
    case Crash(w) => s.(hist := Forget(s, s.workers[w]), workers := s.workers[w := Idle])
    case Tick(d) => s.(now := s.now + d)
    case PushBack(ids, until) =>
      s.(rows := map id | id in s.rows ::
           if id in ids then s.rows[id].(nextAttempt := until) else s.rows[id])
  }

  function Start(n: nat, now: int): State {
    State(map[], map[], seq(n, i => Idle), now)
  }

  predicate Run(cfg: Config, s: State, steps: seq<Step>, s': State)
    decreases |steps|
  {
    if steps == [] then s' == s
    else Enabled(cfg, s, steps[0]) && Run(cfg, Apply(cfg, s, steps[0]), steps[1..], s')
  }

  // ---------- counting workers ----------

  /** Waiting: the row sits in a poll result not yet claimed.  Unsent: claimed, transport not called yet. */
  datatype Role = Waiting | Unsent

  predicate Has(p: Phase, role: Role, id: RowId) {
    match role
    case Waiting =>
      (match p
       case Queue(todo) => id in todo
       case Loaded(i, _, rest) => i == id || id in rest
       case Claimed(_, _, _, rest) => id in rest
       case Answered(_, _, _, _, rest) => id in rest
       case Idle => false)
    case Unsent => p.Claimed? && p.id == id
  }

  function One(b: bool): nat { if b then 1 else 0 }

  function Count(ws: seq<Phase>, role: Role, id: RowId): (n: nat)
    ensures n <= |ws|
  {
    if ws == [] then 0 else Count(ws[..|ws| - 1], role, id) + One(Has(ws[|ws| - 1], role, id))
  }

  lemma {:induction false} CountUpdate(ws: seq<Phase>, w: nat, p: Phase, role: Role, id: RowId)
    requires w < |ws|
    ensures Count(ws[w := p], role, id) + One(Has(ws[w], role, id)) == Count(ws, role, id) + One(Has(p, role, id))
  {
    var n := |ws| - 1;
    if w == n {
      assert ws[w := p][..n] == ws[..n];
    } else {
      assert ws[w := p][..n] == ws[..n][w := p];
      CountUpdate(ws[..n], w, p, role, id);
    }
  }

  lemma CountFull(ws: seq<Phase>, w: nat, role: Role, id: RowId)
    requires w < |ws| && !Has(ws[w], role, id)
    ensures Count(ws, role, id) <= |ws| - 1
  {
    var n := |ws| - 1;
    if w < n { CountFull(ws[..n], w, role, id); }
  }

  lemma CountNone(ws: seq<Phase>, role: Role, id: RowId)
    requires forall w | 0 <= w < |ws| :: !Has(ws[w], role, id)
    ensures Count(ws, role, id) == 0
  {
  }

  // ---------- the invariant of every run ----------

  ghost predicate PhaseOk(s: State, p: Phase) {
    match p
    case Idle => true
    case Queue(todo) => todo != [] && KnownTasks(s, todo)
    case Loaded(id, read, rest) => KnownTasks(s, [id] + rest) && id !in rest && read <= s.rows[id].attempts
    case Claimed(id, read, at, rest) => KnownTasks(s, [id] + rest) && id !in rest && read < s.rows[id].attempts
    case Answered(id, read, ok, at, rest) =>
      KnownTasks(s, [id] + rest) && id !in rest && read < s.rows[id].attempts && (ok ==> s.hist[id].oks >= 1)
  }

  ghost predicate KnownTasks(s: State, ids: seq<RowId>) {
    Distinct(ids) && forall id | id in ids :: id in s.rows && id in s.hist
  }

  ghost predicate RowOk(cfg: Config, s: State, id: RowId)
    requires id in s.rows && id in s.hist
  {
    var r, h := s.rows[id], s.hist[id];
    && h.claims == r.attempts
    && r.attempts + Count(s.workers, Waiting, id) <= cfg.maxAttempts - 1 + |s.workers|
    && h.sends + Count(s.workers, Unsent, id) <= h.claims
    && h.oks <= h.sends
    && (r.status == Sent ==> h.oks >= 1)
    && (r.status == Dead ==> r.attempts >= cfg.maxAttempts)
  }

  ghost predicate Inv(cfg: Config, s: State) {
    && s.rows.Keys == s.hist.Keys
    && (forall w | 0 <= w < |s.workers| :: PhaseOk(s, s.workers[w]))
    && (forall id | id in s.rows :: RowOk(cfg, s, id))
  }

  /** Rows and histories only grow in the ways phases care about. */
  ghost predicate Grows(s: State, t: State) {
    && s.rows.Keys <= t.rows.Keys && s.hist.Keys <= t.hist.Keys
    && (forall id | id in s.rows :: s.rows[id].attempts <= t.rows[id].attempts)
    && (forall id | id in s.hist :: s.hist[id].oks <= t.hist[id].oks)
  }

  lemma PhaseStays(s: State, t: State, p: Phase)
    requires Grows(s, t) && PhaseOk(s, p)
    ensures PhaseOk(t, p)
  {
  }

  /** All workers but w keep their phase; w's new phase is fine. */
  lemma PhasesStay(s: State, t: State, w: nat)
    requires Grows(s, t) && |t.workers| == |s.workers|
    requires forall v | 0 <= v < |s.workers| :: PhaseOk(s, s.workers[v])
    requires forall v | 0 <= v < |s.workers| && v != w :: t.workers[v] == s.workers[v]
    requires w < |t.workers| ==> PhaseOk(t, t.workers[w])
    ensures forall v | 0 <= v < |t.workers| :: PhaseOk(t, t.workers[v])
  {
    forall v | 0 <= v < |t.workers| && v != w
      ensures PhaseOk(t, t.workers[v])
    {
      PhaseStays(s, t, s.workers[v]);
    }
  }

  /** Counting after worker w moved from its phase to p. */
  lemma Moved(ws: seq<Phase>, w: nat, p: Phase, id: RowId)
    requires w < |ws|
    ensures Count(ws[w := p], Waiting, id) + One(Has(ws[w], Waiting, id))
            == Count(ws, Waiting, id) + One(Has(p, Waiting, id))
    ensures Count(ws[w := p], Unsent, id) + One(Has(ws[w], Unsent, id))
            == Count(ws, Unsent, id) + One(Has(p, Unsent, id))
  {
    CountUpdate(ws, w, p, Waiting, id);
    CountUpdate(ws, w, p, Unsent, id);
  }

  /** A step that drops tasks or claims but adds none, and touches no row. */
  lemma KeepsRows(cfg: Config, s: State, w: nat, p: Phase, hist: map<RowId, History>)
    requires Inv(cfg, s) && w < |s.workers| && hist.Keys == s.hist.Keys
    requires forall id | id in hist ::
      hist[id].claims == s.hist[id].claims && hist[id].sends == s.hist[id].sends && hist[id].oks == s.hist[id].oks
    requires forall id | id in s.rows ::
      (Has(p, Waiting, id) ==> Has(s.workers[w], Waiting, id)) && (Has(p, Unsent, id) ==> Has(s.workers[w], Unsent, id))
    requires PhaseOk(s.(hist := hist), p)
    ensures Inv(cfg, s.(hist := hist, workers := s.workers[w := p]))
  {
    var t := s.(hist := hist, workers := s.workers[w := p]);
    forall id | id in t.rows
      ensures RowOk(cfg, t, id)
    {
      assert RowOk(cfg, s, id);
      Moved(s.workers, w, p, id);
    }
    PhasesStay(s, t, w);
  }

  lemma InvReap(cfg: Config, s: State, w: nat)
    requires Inv(cfg, s) && Enabled(cfg, s, Reap(w))
    ensures Inv(cfg, Apply(cfg, s, Reap(w)))
  {
    var t := Apply(cfg, s, Reap(w));
    assert t.rows.Keys == s.rows.Keys;
    forall id | id in t.rows
      ensures RowOk(cfg, t, id)
    {
      assert RowOk(cfg, s, id);
    }
    PhasesStay(s, t, w);
  }

  lemma InvPushBack(cfg: Config, s: State, waiting: set<RowId>, until: int)
    requires Inv(cfg, s) && Enabled(cfg, s, PushBack(waiting, until))
    ensures Inv(cfg, Apply(cfg, s, PushBack(waiting, until)))
  {
    var t := Apply(cfg, s, PushBack(waiting, until));
    assert t.rows.Keys == s.rows.Keys;
    forall id | id in t.rows
      ensures RowOk(cfg, t, id)
    {
      assert RowOk(cfg, s, id);
    }
    PhasesStay(s, t, |s.workers|);
  }

  lemma InvEnqueue(cfg: Config, s: State, id: RowId)
    requires Inv(cfg, s) && Enabled(cfg, s, Enqueue(id)) && cfg.maxAttempts >= 1
    ensures Inv(cfg, Apply(cfg, s, Enqueue(id)))
  {
    var t := Apply(cfg, s, Enqueue(id));
    forall w | 0 <= w < |s.workers|
      ensures !Has(s.workers[w], Waiting, id) && !Has(s.workers[w], Unsent, id)
    {
      assert PhaseOk(s, s.workers[w]);
      var p := s.workers[w];
      if !p.Idle? && !p.Queue? { assert p.id in [p.id] + p.rest && forall i | i in p.rest :: i in [p.id] + p.rest; }
    }
    CountNone(s.workers, Waiting, id);
    CountNone(s.workers, Unsent, id);
    forall i | i in t.rows
      ensures RowOk(cfg, t, i)
    {
      assert i != id ==> RowOk(cfg, s, i);
    }
    PhasesStay(s, t, |s.workers|);
  }

  lemma InvPoll(cfg: Config, s: State, w: nat, ids: seq<RowId>)
    requires Inv(cfg, s) && Enabled(cfg, s, Poll(w, ids))
    ensures Inv(cfg, Apply(cfg, s, Poll(w, ids)))
  {
    var t := Apply(cfg, s, Poll(w, ids));
    forall id | id in t.rows
      ensures RowOk(cfg, t, id)
    {
      assert RowOk(cfg, s, id);
      Moved(s.workers, w, After(ids), id);
      CountFull(s.workers, w, Waiting, id);
    }
    PhasesStay(s, t, w);
  }

  lemma InvRead(cfg: Config, s: State, w: nat)
    requires Inv(cfg, s) && Enabled(cfg, s, Read(w))
    ensures Inv(cfg, Apply(cfg, s, Read(w)))
  {
    var todo := s.workers[w].todo;
    assert PhaseOk(s, s.workers[w]);
    assert [todo[0]] + todo[1..] == todo;
    KeepsRows(cfg, s, w, Apply(cfg, s, Read(w)).workers[w], s.hist);
  }

  lemma RestKnown(s: State, p: Phase)
    requires PhaseOk(s, p) && !p.Idle?
    ensures KnownTasks(s, if p.Queue? then p.todo[1..] else p.rest)
  {
    if p.Queue? {
      assert forall i | 0 <= i < |p.todo[1..]| :: p.todo[1..][i] == p.todo[i + 1];
    } else {
      assert forall i | 0 <= i < |p.rest| :: p.rest[i] == ([p.id] + p.rest)[i + 1];
    }
  }

  lemma ClaimRowOk(cfg: Config, s: State, w: nat, id: RowId)
    requires Inv(cfg, s) && Enabled(cfg, s, Claim(w)) && Open(s.rows[s.workers[w].id]) && id in s.rows
    ensures RowOk(cfg, Apply(cfg, s, Claim(w)), id)
  {
    assert PhaseOk(s, s.workers[w]) && RowOk(cfg, s, id);
    Moved(s.workers, w, Apply(cfg, s, Claim(w)).workers[w], id);
  }

  lemma InvClaim(cfg: Config, s: State, w: nat)
    requires Inv(cfg, s) && Enabled(cfg, s, Claim(w))
    ensures Inv(cfg, Apply(cfg, s, Claim(w)))
  {
    var p, t := s.workers[w], Apply(cfg, s, Claim(w));
    assert PhaseOk(s, p);
    if Open(s.rows[p.id]) {
      forall id | id in t.rows
        ensures RowOk(cfg, t, id)
      {
        ClaimRowOk(cfg, s, w, id);
      }
      PhasesStay(s, t, w);
    } else {
      RestKnown(s, p);
      KeepsRows(cfg, s, w, After(p.rest), s.hist);
    }
  }

  lemma InvSend(cfg: Config, s: State, w: nat, ok: bool)
    requires Inv(cfg, s) && Enabled(cfg, s, Send(w, ok))
    ensures Inv(cfg, Apply(cfg, s, Send(w, ok)))
  {
    var p, t := s.workers[w], Apply(cfg, s, Send(w, ok));
    assert PhaseOk(s, p);
    forall id | id in t.rows
      ensures RowOk(cfg, t, id)
    {
      assert RowOk(cfg, s, id);
      Moved(s.workers, w, t.workers[w], id);
    }
    PhasesStay(s, t, w);
  }

  lemma InvSettle(cfg: Config, s: State, w: nat)
    requires Inv(cfg, s) && Enabled(cfg, s, Settle(w))
    ensures Inv(cfg, Apply(cfg, s, Settle(w)))
  {
    var p, t := s.workers[w], Apply(cfg, s, Settle(w));
    assert PhaseOk(s, p);
    RestKnown(s, p);
    forall id | id in t.rows
      ensures RowOk(cfg, t, id)
    {
      assert RowOk(cfg, s, id);
      Moved(s.workers, w, t.workers[w], id);
    }
    PhasesStay(s, t, w);
  }

  lemma InvStep(cfg: Config, s: State, step: Step)
    requires Inv(cfg, s) && Enabled(cfg, s, step) && cfg.maxAttempts >= 1
    ensures Inv(cfg, Apply(cfg, s, step))
  {
    match step
    case Enqueue(id) => InvEnqueue(cfg, s, id);
    case Reap(w) => InvReap(cfg, s, w);
    case Poll(w, ids) => InvPoll(cfg, s, w, ids);
    case Read(w) => InvRead(cfg, s, w);
    case Claim(w) => InvClaim(cfg, s, w);
    case Send(w, ok) => InvSend(cfg, s, w, ok);
    case Settle(w) => InvSettle(cfg, s, w);
    case Skip(w) =>
      assert PhaseOk(s, s.workers[w]);
      RestKnown(s, s.workers[w]);
      var t := Apply(cfg, s, step);
      KeepsRows(cfg, s, w, t.workers[w], t.hist);
    case Crash(w) =>
      assert PhaseOk(s, s.workers[w]);
      KeepsRows(cfg, s, w, Idle, Apply(cfg, s, step).hist);
    case Tick(d) =>
      var t := Apply(cfg, s, step);
      forall id | id in t.rows ensures RowOk(cfg, t, id) { assert RowOk(cfg, s, id); }
      PhasesStay(s, t, |s.workers|);
    case PushBack(ids, until) => InvPushBack(cfg, s, ids, until);
  }

  lemma {:induction false} InvRun(cfg: Config, s: State, steps: seq<Step>, s': State)
    requires Inv(cfg, s) && Run(cfg, s, steps, s') && cfg.maxAttempts >= 1
    ensures Inv(cfg, s')
    decreases |steps|
  {
    if steps != [] {
      InvStep(cfg, s, steps[0]);
      InvRun(cfg, Apply(cfg, s, steps[0]), steps[1..], s');
    }
  }

  // ---------- safety of every interleaving ----------

  /**
   * However W workers interleave, crash and reap, a row is claimed, hence sent, at most
   * maxAttempts + W - 1 times: with one elected worker, at most maxAttempts times.
   */
  lemma {:induction false} ClaimsBounded(cfg: Config, n: nat, now: int, steps: seq<Step>, s: State, id: RowId)
    requires cfg.maxAttempts >= 1 && Run(cfg, Start(n, now), steps, s) && id in s.rows
    ensures id in s.hist && s.hist[id].claims == s.rows[id].attempts
    ensures s.hist[id].sends <= s.hist[id].claims <= cfg.maxAttempts + n - 1
  {
    InvRun(cfg, Start(n, now), steps, s);
    WorkersFixed(cfg, Start(n, now), steps, s);
    assert RowOk(cfg, s, id);
  }

  lemma {:induction false} WorkersFixed(cfg: Config, s: State, steps: seq<Step>, s': State)
    requires Run(cfg, s, steps, s')
    ensures |s'.workers| == |s.workers| && s.rows.Keys <= s'.rows.Keys
    decreases |steps|
  {
    if steps != [] {
      var t := Apply(cfg, s, steps[0]);
      assert |t.workers| == |s.workers| && s.rows.Keys <= t.rows.Keys;
      WorkersFixed(cfg, t, steps[1..], s');
    }
  }

  /** `sent` means some send succeeded; `dead` means the attempt budget is spent. */
  lemma {:induction false} FinalStatusMeans(cfg: Config, n: nat, now: int, steps: seq<Step>, s: State, id: RowId)
    requires cfg.maxAttempts >= 1 && Run(cfg, Start(n, now), steps, s) && id in s.rows
    ensures s.rows[id].status == Sent ==> id in s.hist && s.hist[id].oks >= 1
    ensures s.rows[id].status == Dead ==> s.rows[id].attempts >= cfg.maxAttempts
  {
    InvRun(cfg, Start(n, now), steps, s);
    assert RowOk(cfg, s, id);
  }

  /** `sent` and `dead` are final in every run. */
  lemma {:induction false} FinalStatusAbsorbs(cfg: Config, s: State, steps: seq<Step>, s': State, id: RowId)
    requires Run(cfg, s, steps, s') && id in s.rows && (s.rows[id].status == Sent || s.rows[id].status == Dead)
    ensures id in s'.rows && s'.rows[id] == s.rows[id]
    decreases |steps|
  {
    if steps != [] {
      FinalStatusAbsorbs(cfg, Apply(cfg, s, steps[0]), steps[1..], s', id);
    }
  }

  lemma FiveSteps(cfg: Config, s: State, steps: seq<Step>)
    requires |steps| == 5 && Enabled(cfg, s, steps[0])
    requires var a := Apply(cfg, s, steps[0]);
             Enabled(cfg, a, steps[1]) &&
             var b := Apply(cfg, a, steps[1]);
             Enabled(cfg, b, steps[2]) &&
             var c := Apply(cfg, b, steps[2]);
             Enabled(cfg, c, steps[3]) && Enabled(cfg, Apply(cfg, c, steps[3]), steps[4])
    ensures var c := Apply(cfg, Apply(cfg, Apply(cfg, s, steps[0]), steps[1]), steps[2]);
            Run(cfg, s, steps, Apply(cfg, Apply(cfg, c, steps[3]), steps[4]))
  {
    var a := Apply(cfg, s, steps[0]);
    var b := Apply(cfg, a, steps[1]);
    var c := Apply(cfg, b, steps[2]);
    var e := Apply(cfg, c, steps[3]);
    var t := Apply(cfg, e, steps[4]);
    assert Run(cfg, t, [], t) && steps[1..][1..][1..][1..][1..] == [];
    assert Run(cfg, e, steps[1..][1..][1..][1..], t);
    assert Run(cfg, c, steps[1..][1..][1..], t);
    assert Run(cfg, b, steps[1..][1..], t);
    assert Run(cfg, a, steps[1..], t);
  }

  /** Load, claim and send, up to the transport's answer. */
  lemma UpToAnswer(cfg: Config, s: State, w: nat, ok: bool) returns (c: State)
    requires Inv(cfg, s) && Enabled(cfg, s, Read(w)) && Open(s.rows[s.workers[w].todo[0]])
    ensures var a := Apply(cfg, s, Read(w));
            Enabled(cfg, a, Claim(w)) && Enabled(cfg, Apply(cfg, a, Claim(w)), Send(w, ok))
            && c == Apply(cfg, Apply(cfg, a, Claim(w)), Send(w, ok))
    ensures var id := s.workers[w].todo[0];
            && c.rows == s.rows[id := ClaimRow(s.now, s.rows[id])] && c.now == s.now
            && c.workers == s.workers[w := Answered(id, s.rows[id].attempts, ok, s.now, s.workers[w].todo[1..])]
  {
    assert PhaseOk(s, s.workers[w]);
    var a := Apply(cfg, s, Read(w));
    c := Apply(cfg, Apply(cfg, a, Claim(w)), Send(w, ok));
  }

  /** A worker left alone goes through exactly the row change of one `Table.Deliver` call. */
  lemma UndisturbedDelivery(cfg: Config, s: State, w: nat, ok: bool, d: int) returns (t: State)
    requires Inv(cfg, s) && Enabled(cfg, s, Read(w)) && Open(s.rows[s.workers[w].todo[0]]) && d >= 0
    ensures Run(cfg, s, [Read(w), Claim(w), Send(w, ok), Tick(d), Settle(w)], t)
    ensures var id := s.workers[w].todo[0];
            t.rows == s.rows[id := Delivered(cfg, s.now, s.now + d, ok, s.rows[id])]
            && t.workers == s.workers[w := After(s.workers[w].todo[1..])] && t.now == s.now + d
  {
    var c := UpToAnswer(cfg, s, w, ok);
    t := Apply(cfg, Apply(cfg, c, Tick(d)), Settle(w));
    FiveSteps(cfg, s, [Read(w), Claim(w), Send(w, ok), Tick(d), Settle(w)]);
  }
}
