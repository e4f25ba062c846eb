/**
 * The transactional outbox dispatcher: several dispatcher instances claim rows of one outbox
 * table, publish them outside any transaction and apply the results in a second transaction.
 * All instants and durations are nanoseconds on one clock.
 */
module Outbox {
  import opened Common
  import opened Backoff

  type EventId = nat
  type DispatcherId = nat
  type Instant = int

  datatype Row = Row(
    aggregateId: nat,
    processedAt: Option<Instant>,
    isDead: bool,
    retryCount: nat,
    nextRetryAt: Option<Instant>,
    claimedAt: Option<Instant>)

  type Table = map<EventId, Row>

  datatype Config = Config(maxRetries: int, staleClaimAfter: int, batchSize: nat)

  /** Non-positive settings fall back to the defaults of the dispatcher. */
  function MaxRetries(c: Config): (n: int)
    ensures n >= 1
  {
    if c.maxRetries <= 0 then 10 else c.maxRetries
  }

  /** The reclaim interval as the claim query uses it: whole seconds, at least one. */
  function StaleAfter(c: Config): (d: int)
    ensures d >= SECOND && d % SECOND == 0
  {
    var configured := if c.staleClaimAfter <= 0 then 300 * SECOND else c.staleClaimAfter;
    var seconds := configured / SECOND;
    (if seconds < 1 then 1 else seconds) * SECOND
  }

  // ---------------------------------------------------------------- table statements

  /** The WHERE clause of the claim query. */
  predicate Eligible(r: Row, now: Instant, stale: int) {
    && r.processedAt.None?
    && !r.isDead
    && (r.nextRetryAt.None? || r.nextRetryAt.value <= now)
    && (r.claimedAt.None? || r.claimedAt.value <= now - stale)
  }

  /** ORDER BY aggregate_id, event_id. */
  predicate Before(t: Table, a: EventId, b: EventId)
    requires a in t && b in t
  {
    t[a].aggregateId < t[b].aggregateId || (t[a].aggregateId == t[b].aggregateId && a < b)
  }

  /** A row the claim query may take: eligible and not locked by a concurrent transaction. */
  predicate Free(t: Table, now: Instant, stale: int, locked: set<EventId>, id: EventId) {
    id in t && id !in locked && Eligible(t[id], now, stale)
  }

  /** `ids` is what UPDATE .. WHERE event_id IN (SELECT .. SKIP LOCKED LIMIT n) RETURNING may return. */
  ghost predicate IsClaim(t: Table, now: Instant, stale: int, limit: nat, locked: set<EventId>, ids: seq<EventId>) {
    && Distinct(ids)
    && |ids| <= limit
    && (forall i :: 0 <= i < |ids| ==> Free(t, now, stale, locked, ids[i]))
    && (forall id | Free(t, now, stale, locked, id) && id !in ids ::
          |ids| == limit && forall i :: 0 <= i < |ids| ==> Before(t, ids[i], id))
  }

  function Claim(t: Table, ids: seq<EventId>, now: Instant): Table {
    map id | id in t :: if id in ids then t[id].(claimedAt := Some(now)) else t[id]
  }

  /** What a dispatcher remembers of a claimed row: its id and the retry count it read. */
  datatype Claimed = Claimed(id: EventId, retryCount: nat)

  function Snapshot(t: Table, ids: seq<EventId>): (rows: seq<Claimed>)
    requires forall i :: 0 <= i < |ids| ==> ids[i] in t
    ensures |rows| == |ids|
    ensures forall i :: 0 <= i < |ids| ==> rows[i] == Claimed(ids[i], t[ids[i]].retryCount)
  {
    if ids == [] then [] else [Claimed(ids[0], t[ids[0]].retryCount)] + Snapshot(t, ids[1..])
  }

  /** UPDATE .. SET processed_at = NOW() WHERE event_id = id. */
  function MarkProcessed(t: Table, id: EventId, now: Instant): Table {
    if id in t then t[id := t[id].(processedAt := Some(now))] else t
  }

  function FailedRow(r: Row, claimedCount: nat, w: Wait, now: Instant, maxRetries: int): Row {
    var retry := claimedCount + 1;
    r.(retryCount := retry, nextRetryAt := Some(now + Delay(retry, w)), isDead := retry > maxRetries, claimedAt := None)
  }

  /** UPDATE .. SET retry_count, next_retry_at, is_dead, claimed_at = NULL WHERE event_id = f.id. */
  function MarkFailed(t: Table, f: Claimed, w: Wait, now: Instant, maxRetries: int): Table {
    if f.id in t then t[f.id := FailedRow(t[f.id], f.retryCount, w, now, maxRetries)] else t
  }

  predicate HasFailure(failures: seq<Claimed>, id: EventId) {
    exists i :: 0 <= i < |failures| && failures[i].id == id
  }

  /** The table after the results transaction, row by row. */
  ghost predicate ResultsApplied(t: Table, t': Table, successes: seq<EventId>, failures: seq<Claimed>, waits: seq<Wait>,
                                 now: Instant, maxRetries: int)
    requires |waits| == |failures|
  {
    && t'.Keys == t.Keys
    && (forall id | id in t && id !in successes && !HasFailure(failures, id) :: t'[id] == t[id])
    && (forall id | id in t && id in successes && !HasFailure(failures, id) ::
      t'[id] == t[id].(processedAt := Some(now)))
    && (forall i | 0 <= i < |failures| && failures[i].id in t && failures[i].id !in successes ::
          t'[failures[i].id] == FailedRow(t[failures[i].id], failures[i].retryCount, waits[i], now, maxRetries))
  }

  ghost predicate DisjointResults(successes: seq<EventId>, failures: seq<Claimed>) {
    && (forall i, j :: 0 <= i < j < |failures| ==> failures[i].id != failures[j].id)
    && (forall i :: 0 <= i < |failures| ==> failures[i].id !in successes)
  }

  function ApplySuccesses(t: Table, successes: seq<EventId>, now: Instant): Table {
    if successes == [] then t
    else MarkProcessed(ApplySuccesses(t, successes[..|successes| - 1], now), successes[|successes| - 1], now)
  }

  function ApplyFailures(t: Table, failures: seq<Claimed>, waits: seq<Wait>, now: Instant, maxRetries: int): Table
    requires |waits| == |failures|
  {
    if failures == [] then t
    else
      var n := |failures| - 1;
      MarkFailed(ApplyFailures(t, failures[..n], waits[..n], now, maxRetries), failures[n], waits[n], now, maxRetries)
  }

  function ApplyResults(t: Table, successes: seq<EventId>, failures: seq<Claimed>, waits: seq<Wait>,
                        now: Instant, maxRetries: int): Table
    requires |waits| == |failures|
  {
    ApplyFailures(ApplySuccesses(t, successes, now), failures, waits, now, maxRetries)
  }

  lemma {:induction false} ApplySuccessesRows(t: Table, successes: seq<EventId>, now: Instant)
    ensures ApplySuccesses(t, successes, now).Keys == t.Keys
    ensures forall id | id in t ::
      ApplySuccesses(t, successes, now)[id] == if id in successes then t[id].(processedAt := Some(now)) else t[id]
  {
    if successes != [] {
      var n := |successes| - 1;
      ApplySuccessesRows(t, successes[..n], now);
      assert successes == successes[..n] + [successes[n]];
    }
  }

  lemma {:induction false} UnfailedRow(t: Table, failures: seq<Claimed>, waits: seq<Wait>, now: Instant,
                                       maxRetries: int, id: EventId)
    requires |waits| == |failures|
    requires forall i :: 0 <= i < |failures| ==> failures[i].id != id
    ensures var t' := ApplyFailures(t, failures, waits, now, maxRetries);
      (id in t <==> id in t') && (id in t ==> t'[id] == t[id])
  {
    if failures != [] {
      var n := |failures| - 1;
      UnfailedRow(t, failures[..n], waits[..n], now, maxRetries, id);
    }
  }

  lemma {:induction false} FailedRowAt(t: Table, failures: seq<Claimed>, waits: seq<Wait>, now: Instant,
                                       maxRetries: int, k: nat)
    requires |waits| == |failures|
    requires forall i, j :: 0 <= i < j < |failures| ==> failures[i].id != failures[j].id
    requires k < |failures| && failures[k].id in t
    ensures var t' := ApplyFailures(t, failures, waits, now, maxRetries);
      && failures[k].id in t'
      && t'[failures[k].id] == FailedRow(t[failures[k].id], failures[k].retryCount, waits[k], now, maxRetries)
  {
    var n := |failures| - 1;
    if k < n {
      FailedRowAt(t, failures[..n], waits[..n], now, maxRetries, k);
    } else {
      UnfailedRow(t, failures[..n], waits[..n], now, maxRetries, failures[n].id);
    }
  }

  lemma ApplyResultsRows(t: Table, successes: seq<EventId>, failures: seq<Claimed>, waits: seq<Wait>,
                         now: Instant, maxRetries: int)
    requires |waits| == |failures|
    requires DisjointResults(successes, failures)
    ensures ResultsApplied(t, ApplyResults(t, successes, failures, waits, now, maxRetries), successes, failures, waits,
                           now, maxRetries)
  {
    ApplySuccessesRows(t, successes, now);
    var u := ApplySuccesses(t, successes, now);
    KeysKept(u, failures, waits, now, maxRetries);
    forall id | !HasFailure(failures, id)
      ensures id in t ==> ApplyFailures(u, failures, waits, now, maxRetries)[id] == u[id]
    {
      UnfailedRow(u, failures, waits, now, maxRetries, id);
    }
    forall k | 0 <= k < |failures| && failures[k].id in t && failures[k].id !in successes
      ensures ApplyFailures(u, failures, waits, now, maxRetries)[failures[k].id]
           == FailedRow(t[failures[k].id], failures[k].retryCount, waits[k], now, maxRetries)
    {
      FailedRowAt(u, failures, waits, now, maxRetries, k);
    }
  }

  lemma {:induction false} KeysKept(t: Table, failures: seq<Claimed>, waits: seq<Wait>, now: Instant, maxRetries: int)
    requires |waits| == |failures|
    ensures ApplyFailures(t, failures, waits, now, maxRetries).Keys == t.Keys
  {
    if failures != [] {
      var n := |failures| - 1;
      KeysKept(t, failures[..n], waits[..n], now, maxRetries);
    }
  }

  // ---------------------------------------------------------------- the dispatcher as a program

  /** The order in which one publish loop splits a batch, given which publishes were acknowledged. */
  function Acknowledged(rows: seq<Claimed>, acks: seq<bool>): seq<EventId>
    requires |acks| == |rows|
  {
    if rows == [] then []
    else
      var n := |rows| - 1;
      Acknowledged(rows[..n], acks[..n]) + if acks[n] then [rows[n].id] else []
  }

  function Refused(rows: seq<Claimed>, acks: seq<bool>): seq<Claimed>
    requires |acks| == |rows|
  {
    if rows == [] then []
    else
      var n := |rows| - 1;
      Refused(rows[..n], acks[..n]) + if acks[n] then [] else [rows[n]]
  }

  /** The publish loop splits the batch: acknowledged rows one way, refused ones the other, every row once. */
  lemma {:induction false} SplitByAck(rows: seq<Claimed>, acks: seq<bool>, row: Claimed)
    requires |acks| == |rows|
    ensures |Acknowledged(rows, acks)| + |Refused(rows, acks)| == |rows|
    ensures row in Refused(rows, acks) <==> exists i :: 0 <= i < |rows| && rows[i] == row && !acks[i]
    ensures row.id in Acknowledged(rows, acks) <==> exists i :: 0 <= i < |rows| && rows[i].id == row.id && acks[i]
  {
    if rows != [] {
      var n := |rows| - 1;
      SplitByAck(rows[..n], acks[..n], row);
      assert forall i :: 0 <= i < n ==> rows[..n][i] == rows[i] && acks[..n][i] == acks[i];
    }
  }

  /** How the claim query ends: rows, a missing relation (SQLSTATE 42P01), or another error. */
  datatype ClaimOutcome = Rows(ids: seq<EventId>) | MissingTable | QueryError

  datatype CycleError = ClaimFailed

  class Dispatcher {
    var rows: Table
    var disabled: bool

    constructor (t: Table)
      ensures rows == t && !disabled
    {
      rows := t;
      disabled := false;
    }

    /** The results transaction: one statement per acknowledged row, then one per refused row. */
    method Apply(successes: seq<EventId>, failures: seq<Claimed>, waits: seq<Wait>, now: Instant, maxRetries: int)
      requires |waits| == |failures|
      modifies this`rows
      ensures rows == ApplyResults(old(rows), successes, failures, waits, now, maxRetries)
    {
      ghost var t := rows;
      for i := 0 to |successes|
        invariant rows == ApplySuccesses(t, successes[..i], now)
      {
        assert successes[..i + 1][..i] == successes[..i];
        rows := MarkProcessed(rows, successes[i], now);
      }
      assert successes[..|successes|] == successes;
      ghost var u := rows;
      for i := 0 to |failures|
        invariant rows == ApplyFailures(u, failures[..i], waits[..i], now, maxRetries)
      {
        assert failures[..i + 1][..i] == failures[..i] && waits[..i + 1][..i] == waits[..i];
        rows := MarkFailed(rows, failures[i], waits[i], now, maxRetries);
      }
      assert failures[..|failures|] == failures && waits[..|waits|] == waits;
    }

    /**
     * One dispatch cycle of one table when no other instance interleaves: `outcome` is the reply
     * to the claim query at instant `claimAt`, `acks` the replies of the broker.
     */
    method DispatchTable(c: Config, outcome: ClaimOutcome, claimAt: Instant, acks: seq<bool>, waits: seq<Wait>,
                         applyAt: Instant)
      returns (r: Result<nat, CycleError>)
      requires outcome.Rows? ==> |acks| == |waits| == |outcome.ids| && forall i :: 0 <= i < |outcome.ids| ==>
        outcome.ids[i] in rows
      modifies this
      ensures old(disabled) ==> disabled && rows == old(rows) && r == Ok(0)
      ensures !old(disabled) ==> disabled == outcome.MissingTable?
      ensures !old(disabled) && !outcome.Rows? ==>
        rows == old(rows) && r == if outcome.MissingTable? then Ok(0) else Err(ClaimFailed)
      ensures !old(disabled) && outcome.Rows? ==>
        var batch := Snapshot(old(rows), outcome.ids);
        var refused := Refused(batch, acks);
        && |refused| <= |waits|
        && r == Ok(|Acknowledged(batch, acks)|)
        && rows == ApplyResults(Claim(old(rows), outcome.ids, claimAt), Acknowledged(batch, acks), refused,
                                waits[..|refused|], applyAt, MaxRetries(c))
    {
      if disabled {
        return Ok(0);
      }
      match outcome
      case MissingTable =>
        disabled := true;
        return Ok(0);
      case QueryError =>
        return Err(ClaimFailed);
      case Rows(ids) =>
        var batch := Snapshot(rows, ids);
        rows := Claim(rows, ids, claimAt);
        if |batch| == 0 {
          assert ids == [] && rows == old(rows) && waits[..0] == [];
          return Ok(0);
        }
        var successes: seq<EventId> := [];
        var failures: seq<Claimed> := [];
        for i := 0 to |batch|
          invariant successes == Acknowledged(batch[..i], acks[..i])
          invariant failures == Refused(batch[..i], acks[..i])
          invariant |failures| <= i
        {
          assert batch[..i + 1][..i] == batch[..i] && acks[..i + 1][..i] == acks[..i];
          if acks[i] {
            successes := successes + [batch[i].id];
          } else {
            failures := failures + [batch[i]];
          }
        }
        assert batch[..|batch|] == batch && acks[..|acks|] == acks;
        Apply(successes, failures, waits[..|failures|], applyAt, MaxRetries(c));
        return Ok(|successes|);
    }
  }
}
