/**
 * The outbound message queue of internal/comm/outbox.go.
 *
 * Every SQL statement is one atomic guarded update of the shared rows.  Workers
 * interleave freely between statements, may crash at any point, and time passes.
 */
module Outbox {
  import opened Common

  datatype Status = Pending | Sending | Sent | Failed | Dead

  datatype Row = Row(status: Status, attempts: nat, nextAttempt: int)

  type RowId = nat

  datatype Config = Config(maxAttempts: nat, backoff: int, staleAfter: int)

  const DAY: int := 24 * 3600 * 1_000_000_000 // nanoseconds
  const BATCH_SIZE := 100

  predicate Open(r: Row) { r.status == Pending || r.status == Failed }

  // ---------- the statements, as functions on rows ----------

  function ReapRow(cfg: Config, now: int, r: Row): Row {
    if r.status == Sending && r.nextAttempt < now - cfg.staleAfter then r.(status := Failed) else r
  }

  function ReapRows(cfg: Config, now: int, rows: map<RowId, Row>): map<RowId, Row> {
    map id | id in rows :: ReapRow(cfg, now, rows[id])
  }

  function ClaimRow(now: int, r: Row): Row
    requires Open(r)
  {
    Row(Sending, r.attempts + 1, now)
  }

  /** Outcome of the settling update; `read` is the attempt count loaded before the claim. */
  function SettleRow(cfg: Config, now: int, read: nat, ok: bool, r: Row): Row {
    if r.status != Sending then r
    else if ok then r.(status := Sent)
    else if read + 1 >= cfg.maxAttempts then r.(status := Dead)
    else r.(status := Failed, nextAttempt := now + Backoff(cfg.backoff, read))
  }

  /** Delay before the next try when `read` attempts preceded this one. */
  function Backoff(base: int, read: nat): int {
    if read == 0 then base else Min(base * Pow2(read), DAY)
  }

  // ---------- the same statements as the worker issues them ----------

  lemma DoublingGrows(base: int, i: nat, n: nat)
    requires i <= n && base > 0
    ensures base * Pow2(i) <= base * Pow2(n)
    decreases n - i
  {
    if i < n { DoublingGrows(base, i, n - 1); }
  }

  method BackoffDelay(base: int, attempts: nat) returns (backoff: int)
    ensures backoff == Backoff(base, attempts)
  {
    backoff := base;
    var i := 1;
    while i < attempts + 1
      invariant 1 <= i <= attempts + 1
      invariant backoff == base * Pow2(i - 1) && (i > 1 ==> backoff <= DAY)
    {
      backoff := backoff * 2;
      if backoff > DAY {
        assert backoff == base * Pow2(i) && base > 0;
        DoublingGrows(base, i, attempts);
        backoff := DAY;
        break;
      }
      i := i + 1;
    }
  }

  /** "Capped at 24h" holds except for a first retry whose base already exceeds the cap. */
  lemma BackoffCappedExactly(base: int, read: nat)
    ensures Backoff(base, read) <= DAY <==> read >= 1 || base <= DAY
  {
  }

  /** The retry delay does not shrink from one attempt to the next, unless a base beyond a day is cut on the second. */
  lemma BackoffMonotoneExactly(base: int, read: nat)
    ensures Backoff(base, read) <= Backoff(base, read + 1) <==> base >= 0 && (read >= 1 || base <= DAY)
  {
    assert base * Pow2(read + 1) == 2 * (base * Pow2(read));
    assert base * Pow2(0) == base;
    if base > 0 {
      DoublingGrows(base, 0, read);
    } else if base < 0 {
      NegativeStays(base, read);
    }
  }

  lemma NegativeStays(base: int, n: nat)
    requires base < 0
    ensures base * Pow2(n) < 0
  {
    if n > 0 {
      NegativeStays(base, n - 1);
      assert base * Pow2(n) == 2 * (base * Pow2(n - 1));
    }
  }

  class Table {
    var rows: map<RowId, Row>

    constructor ()
      ensures rows == map[]
    {
      rows := map[];
    }

    method ReapStale(cfg: Config, now: int)
      modifies this
      ensures rows == ReapRows(cfg, now, old(rows))
    {
      rows := map id | id in rows :: ReapRow(cfg, now, rows[id]);
    }

    method Claim(id: RowId, now: int) returns (won: bool)
      modifies this
      ensures won <==> id in old(rows) && Open(old(rows)[id])
      ensures rows == if won then old(rows)[id := ClaimRow(now, old(rows)[id])] else old(rows)
    {
      won := id in rows && Open(rows[id]);
      if won {
        var r := rows[id];
        rows := rows[id := Row(Sending, r.attempts + 1, now)];
      }
    }

    method MarkSent(id: RowId)
      modifies this
      ensures rows == if id in old(rows) && old(rows)[id].status == Sending
                      then old(rows)[id := old(rows)[id].(status := Sent)] else old(rows)
    {
      if id in rows && rows[id].status == Sending {
        rows := rows[id := rows[id].(status := Sent)];
      }
    }

    method MarkFailed(cfg: Config, id: RowId, attempts: nat, now: int)
      modifies this
      ensures rows == if id in old(rows)
                      then old(rows)[id := SettleRow(cfg, now, attempts, false, old(rows)[id])] else old(rows)
    {
      var backoff := BackoffDelay(cfg.backoff, attempts);
      var dead := attempts + 1 >= cfg.maxAttempts;
      if id in rows && rows[id].status == Sending {
        var r := rows[id];
        rows := rows[id := r.(status := if dead then Dead else Failed,
                              nextAttempt := if dead then r.nextAttempt else now + backoff)];
      }
      assert id in old(rows) ==> old(rows) == old(rows)[id := old(rows)[id]];
    }

    /**
     * One uninterrupted delivery: load the attempt count, claim, send, settle.
     * `sendOk` is the transport's answer.  The result is None when there is no such row to
     * load, else whether this call claimed it.
     */
    method Deliver(cfg: Config, id: RowId, claimAt: int, settleAt: int, sendOk: bool) returns (claimed: Option<bool>)
      modifies this
      ensures claimed == if id in old(rows) then Some(Open(old(rows)[id])) else None
      ensures rows == if claimed == Some(true)
                      then old(rows)[id := Delivered(cfg, claimAt, settleAt, sendOk, old(rows)[id])]
                      else old(rows)
    {
      if id !in rows {
        return None;
      }
      var attempts := rows[id].attempts;
      var won := Claim(id, claimAt);
      if !won {
        return Some(false);
      }
      if sendOk {
        MarkSent(id);
      } else {
        MarkFailed(cfg, id, attempts, settleAt);
      }
      return Some(true);
    }
  }

  function Delivered(cfg: Config, claimAt: int, settleAt: int, ok: bool, r: Row): Row
    requires Open(r)
  {
    SettleRow(cfg, settleAt, r.attempts, ok, ClaimRow(claimAt, r))
  }

  /** When the attempt after the n-th is due, which failed at t: base, doubled n - 1 times, and cut at 24 hours if doubled. */
  predicate DueAfter(base: int, n: nat, t: int, due: int) {
    if n <= 1 then due == t + base
    else
      var doubled := base * Pow2(n - 1);
      due == t + if doubled < 86_400_000_000_000 then doubled else 86_400_000_000_000
  }

  /** An undisturbed delivery ends the row, or leaves it due again after the backoff with budget left. */
  lemma DeliveredOutcome(cfg: Config, claimAt: int, settleAt: int, ok: bool, r: Row)
    requires Open(r)
    ensures var d := Delivered(cfg, claimAt, settleAt, ok, r);
            && d.attempts == r.attempts + 1
            && (d.status == Sent <==> ok)
            && (d.status == Dead <==> !ok && d.attempts >= cfg.maxAttempts)
            && (d.status == Failed <==> !ok && d.attempts < cfg.maxAttempts)
            && (if d.status == Failed then DueAfter(cfg.backoff, d.attempts, settleAt, d.nextAttempt)
                else d.nextAttempt == claimAt)
  {
  }
}
