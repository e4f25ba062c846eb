/**
 * Any number of dispatcher instances over one outbox table, interleaved with producers that add
 * rows, with the clock, and with crashes. Each transaction is one atomic step.
 */
module OutboxProtocol {
  import opened Common
  import opened Backoff
  import opened Outbox

  /** A batch that an instance has claimed and not yet resolved; `next` is its publish loop counter. */
  datatype Batch = Batch(claimedAt: Instant, rows: seq<Claimed>, next: nat, successes: seq<EventId>,
                         failures: seq<Claimed>)

  /**
   * The shared table, the live batches, and three histories: the event ids the broker has received,
   * the number of failed publishes applied to each row, and the instant each row was last written.
   */
  datatype State = State(
    clock: Instant,
    table: Table,
    live: map<DispatcherId, Batch>,
    delivered: set<EventId>,
    applied: map<EventId, nat>,
    wrote: map<EventId, Instant>)

  datatype Step =
    | Insert(id: EventId, aggregateId: nat)
    | Tick(elapsed: nat)
    | ClaimBatch(d: DispatcherId, locked: set<EventId>, ids: seq<EventId>)
    // A publish that times out may still have reached the broker.
    | Publish(d: DispatcherId, received: bool, acked: bool)
    | Apply(d: DispatcherId, waits: seq<Wait>)
    // The instance stops, or its results transaction rolls back: the batch is forgotten.
    | Crash(d: DispatcherId)

  const EMPTY: State := State(0, map[], map[], {}, map[], map[])

  ghost predicate Enabled(c: Config, s: State, step: Step) {
    match step
    case Insert(id, _) => id !in s.table
    case Tick(_) => true
    case ClaimBatch(d, locked, ids) => d !in s.live
      && IsClaim(s.table, s.clock, StaleAfter(c), c.batchSize, locked, ids)
    case Publish(d, received, acked) => d in s.live && s.live[d].next < |s.live[d].rows| && (acked ==> received)
    case Apply(d, waits) =>
      d in s.live && s.live[d].next == |s.live[d].rows| && |waits| == |s.live[d].failures|
        && forall w <- waits :: ValidWait(w)
    case Crash(d) => d in s.live
  }

  function Touched(s: State, ids: set<EventId>): map<EventId, Instant> {
    map id | id in s.wrote :: if id in ids then s.clock else s.wrote[id]
  }

  function FailureIds(failures: seq<Claimed>): (ids: set<EventId>)
    ensures forall id :: id in ids <==> HasFailure(failures, id)
  {
    set i | 0 <= i < |failures| :: failures[i].id
  }

  ghost function Do(c: Config, s: State, step: Step): State
    requires Enabled(c, s, step)
  {
    match step
    case Insert(id, aggregateId) =>
      s.(table := s.table[id := Row(aggregateId, None, false, 0, None, None)],
         applied := s.applied[id := 0], wrote := s.wrote[id := s.clock])
    case Tick(elapsed) => s.(clock := s.clock + elapsed)
    case ClaimBatch(d, _, ids) =>
      s.(table := Claim(s.table, ids, s.clock),
         live := s.live[d := Batch(s.clock, Snapshot(s.table, ids), 0, [], [])],
         wrote := Touched(s, set id | id in ids))
    case Publish(d, received, acked) =>
      var b := s.live[d];
      var row := b.rows[b.next];
      s.(live := s.live[d := b.(next := b.next + 1,
                                successes := if acked then b.successes + [row.id] else b.successes,
                                failures := if acked then b.failures else b.failures + [row])],
         delivered := if received then s.delivered + {row.id} else s.delivered)
    case Apply(d, waits) =>
      var b := s.live[d];
      s.(table := ApplyResults(s.table, b.successes, b.failures, waits, s.clock, MaxRetries(c)),
         live := s.live - {d},
         applied := (map id | id in s.applied ::
                       if HasFailure(b.failures, id) then s.applied[id] + 1 else s.applied[id]),
         wrote := Touched(s, (set id | id in b.successes) + FailureIds(b.failures)))
    case Crash(d) => s.(live := s.live - {d})
  }

  /** A run: the states visited, the first one empty, each next one by an enabled step. */
  ghost predicate IsRun(c: Config, states: seq<State>, steps: seq<Step>) {
    && |states| == |steps| + 1
    && states[0] == EMPTY
    && forall i :: 0 <= i < |steps| ==> Enabled(c, states[i], steps[i]) && states[i + 1] == Do(c, states[i], steps[i])
  }

  // ---------------------------------------------------------------- unconditional safety

  ghost predicate BatchOk(s: State, b: Batch) {
    && b.next <= |b.rows|
    && b.claimedAt <= s.clock
    && DistinctRows(b.rows)
    && (forall i :: 0 <= i < |b.rows| ==> b.rows[i].id in s.table)
    && DisjointResults(b.successes, b.failures)
    && (forall id <- b.successes :: id in s.delivered && InBatch(b, b.next, id))
    && (forall f <- b.failures :: exists i :: 0 <= i < b.next && b.rows[i] == f)
  }

  ghost predicate DistinctRows(rows: seq<Claimed>) {
    forall i, j :: 0 <= i < j < |rows| ==> rows[i].id != rows[j].id
  }

  ghost predicate InBatch(b: Batch, n: nat, id: EventId)
    requires n <= |b.rows|
  {
    exists i :: 0 <= i < n && b.rows[i].id == id
  }

  ghost predicate RowOk(s: State, id: EventId)
    requires id in s.table && id in s.wrote
  {
    var r := s.table[id];
    && (r.processedAt.Some? ==> id in s.delivered)
    && s.wrote[id] <= s.clock
    && (r.claimedAt.Some? ==> r.claimedAt.value <= s.wrote[id])
    && (r.nextRetryAt.Some? ==> r.nextRetryAt.value < s.wrote[id] + 61 * SECOND)
  }

  ghost predicate Safe(s: State) {
    && s.applied.Keys == s.table.Keys && s.wrote.Keys == s.table.Keys
    && (forall d <- s.live :: BatchOk(s, s.live[d]))
    && (forall id <- s.table :: RowOk(s, id))
  }

  lemma SnapshotDistinct(t: Table, ids: seq<EventId>)
    requires forall i :: 0 <= i < |ids| ==> ids[i] in t
    requires Distinct(ids)
    ensures DistinctRows(Snapshot(t, ids))
  {
  }

  lemma PublishKeepsBatch(c: Config, s: State, d: DispatcherId, received: bool, acked: bool)
    requires Safe(s) && Enabled(c, s, Publish(d, received, acked))
    ensures BatchOk(Do(c, s, Publish(d, received, acked)), Do(c, s, Publish(d, received, acked)).live[d])
  {
    var b := s.live[d];
    var s' := Do(c, s, Publish(d, received, acked));
    var b' := s'.live[d];
    var row := b.rows[b.next];
    forall id <- b'.successes ensures id in s'.delivered && InBatch(b', b'.next, id) {
      if id in b.successes {
        var i :| 0 <= i < b.next && b.rows[i].id == id;
        assert b'.rows[i].id == id;
      } else {
        assert b'.rows[b.next].id == id;
      }
    }
    forall f <- b'.failures ensures exists i :: 0 <= i < b'.next && b'.rows[i] == f {
      if f in b.failures {
        var i :| 0 <= i < b.next && b.rows[i] == f;
        assert b'.rows[i] == f;
      } else {
        assert b'.rows[b.next] == f;
      }
    }
    FreshOutcome(s, b);
  }

  /** The row about to be published has no outcome in the batch yet. */
  lemma FreshOutcome(s: State, b: Batch)
    requires BatchOk(s, b) && b.next < |b.rows|
    ensures b.rows[b.next].id !in b.successes
    ensures !HasFailure(b.failures, b.rows[b.next].id)
  {
    var id := b.rows[b.next].id;
    forall k | 0 <= k < |b.failures| ensures b.failures[k].id != id {
      assert b.failures[k] in b.failures;
    }
  }

  /** A row that the batch did not fail: at most its processed_at changes. */
  lemma UnfailedEffect(c: Config, s: State, d: DispatcherId, waits: seq<Wait>, id: EventId)
    requires Safe(s) && Enabled(c, s, Apply(d, waits)) && id in s.table
    requires !HasFailure(s.live[d].failures, id)
    ensures var s' := Do(c, s, Apply(d, waits));
      && id in s'.table && s'.applied[id] == s.applied[id]
      && s'.table[id] == if id in s.live[d].successes then s.table[id].(processedAt := Some(s.clock)) else s.table[id]
  {
    var b := s.live[d];
    ApplyResultsRows(s.table, b.successes, b.failures, waits, s.clock, MaxRetries(c));
  }

  lemma FailedEffect(c: Config, s: State, d: DispatcherId, waits: seq<Wait>, k: nat)
    requires Safe(s) && Enabled(c, s, Apply(d, waits)) && k < |s.live[d].failures|
    ensures var f := s.live[d].failures[k]; var s' := Do(c, s, Apply(d, waits));
      && f.id in s.table && f.id in s'.table && f in s.live[d].rows
      && s'.applied[f.id] == s.applied[f.id] + 1
      && s'.table[f.id] == FailedRow(s.table[f.id], f.retryCount, waits[k], s.clock, MaxRetries(c))
  {
    var b := s.live[d];
    assert b.failures[k] in b.failures;
    ApplyResultsRows(s.table, b.successes, b.failures, waits, s.clock, MaxRetries(c));
    assert HasFailure(b.failures, b.failures[k].id);
  }

  lemma ApplyKeepsKeys(c: Config, s: State, d: DispatcherId, waits: seq<Wait>)
    requires Safe(s) && Enabled(c, s, Apply(d, waits))
    ensures var s' := Do(c, s, Apply(d, waits));
      s'.table.Keys == s.table.Keys == s'.applied.Keys == s.applied.Keys == s'.wrote.Keys == s.wrote.Keys
  {
    var b := s.live[d];
    ApplyResultsRows(s.table, b.successes, b.failures, waits, s.clock, MaxRetries(c));
  }

  lemma ApplyKeepsRow(c: Config, s: State, d: DispatcherId, waits: seq<Wait>, id: EventId)
    requires Safe(s) && Enabled(c, s, Apply(d, waits)) && id in s.table
    ensures var s' := Do(c, s, Apply(d, waits)); id in s'.table && id in s'.wrote && RowOk(s', id)
  {
    var b := s.live[d];
    assert RowOk(s, id);
    if HasFailure(b.failures, id) {
      var k :| 0 <= k < |b.failures| && b.failures[k].id == id;
      FailedEffect(c, s, d, waits, k);
      assert waits[k] in waits;
      DelayBelow61Seconds(b.failures[k].retryCount + 1, waits[k]);
    } else {
      UnfailedEffect(c, s, d, waits, id);
    }
  }

  lemma ApplyKeepsSafe(c: Config, s: State, d: DispatcherId, waits: seq<Wait>)
    requires Safe(s) && Enabled(c, s, Apply(d, waits))
    ensures Safe(Do(c, s, Apply(d, waits)))
  {
    var s' := Do(c, s, Apply(d, waits));
    ApplyKeepsKeys(c, s, d, waits);
    forall id <- s'.table ensures RowOk(s', id) {
      ApplyKeepsRow(c, s, d, waits, id);
    }
    forall e <- s'.live ensures BatchOk(s', s'.live[e]) {
      assert BatchOk(s, s.live[e]);
    }
  }

  lemma ClaimKeepsSafe(c: Config, s: State, d: DispatcherId, locked: set<EventId>, ids: seq<EventId>)
    requires Safe(s) && Enabled(c, s, ClaimBatch(d, locked, ids))
    ensures Safe(Do(c, s, ClaimBatch(d, locked, ids)))
  {
    var s' := Do(c, s, ClaimBatch(d, locked, ids));
    SnapshotDistinct(s.table, ids);
    assert s'.live == s.live[d := s'.live[d]];
    forall e <- s.live ensures BatchOk(s', s.live[e]) {
      assert BatchOk(s, s.live[e]);
    }
    forall id <- s'.table ensures RowOk(s', id) {
      assert RowOk(s, id);
    }
  }

  /** Steps that write no existing row. */
  lemma OtherStepKeepsSafe(c: Config, s: State, step: Step)
    requires Safe(s) && Enabled(c, s, step) && !step.ClaimBatch? && !step.Apply?
    ensures Safe(Do(c, s, step))
  {
    var s' := Do(c, s, step);
    forall e <- s'.live ensures BatchOk(s', s'.live[e]) {
      assert BatchOk(s, s.live[e]);
      if step.Publish? && step.d == e {
        PublishKeepsBatch(c, s, e, step.received, step.acked);
      }
    }
    forall id <- s'.table ensures RowOk(s', id) {
      assert id in s.table ==> RowOk(s, id);
    }
  }

  lemma StepKeepsSafe(c: Config, s: State, step: Step)
    requires Safe(s) && Enabled(c, s, step)
    ensures Safe(Do(c, s, step))
  {
    match step
    case ClaimBatch(d, locked, ids) =>
      ClaimKeepsSafe(c, s, d, locked, ids);
    case Apply(d, waits) =>
      ApplyKeepsSafe(c, s, d, waits);
    case _ =>
      OtherStepKeepsSafe(c, s, step);
  }

  lemma {:induction false} RunSafe(c: Config, states: seq<State>, steps: seq<Step>, i: nat)
    requires IsRun(c, states, steps) && i < |states|
    ensures Safe(states[i])
  {
    if i > 0 {
      RunSafe(c, states, steps, i - 1);
      StepKeepsSafe(c, states[i - 1], steps[i - 1]);
    }
  }

  /** A row never disappears, and a processed one never becomes unprocessed. */
  lemma StepKeepsProcessed(c: Config, s: State, step: Step, id: EventId)
    requires Safe(s) && Enabled(c, s, step) && id in s.table
    ensures id in Do(c, s, step).table
    ensures s.table[id].processedAt.Some? ==> Do(c, s, step).table[id].processedAt.Some?
  {
    if step.Apply? {
      var failures := s.live[step.d].failures;
      if HasFailure(failures, id) {
        var k :| 0 <= k < |failures| && failures[k].id == id;
        FailedEffect(c, s, step.d, step.waits, k);
      } else {
        UnfailedEffect(c, s, step.d, step.waits, id);
      }
    }
  }

  /**
   * In every run, whatever crashes and stale reclaims it contains: a row processed once stays
   * processed, and the broker has received its event.
   */
  lemma {:induction false} ProcessedForEver(c: Config, states: seq<State>, steps: seq<Step>, i: nat, j: nat,
                                            id: EventId)
    requires IsRun(c, states, steps) && i <= j < |states|
    requires id in states[i].table && states[i].table[id].processedAt.Some?
    ensures id in states[j].table && states[j].table[id].processedAt.Some? && id in states[j].delivered
  {
    RunSafe(c, states, steps, j);
    if i < j {
      ProcessedForEver(c, states, steps, i, j - 1, id);
      RunSafe(c, states, steps, j - 1);
      StepKeepsProcessed(c, states[j - 1], steps[j - 1], id);
    }
  }

  // ---------------------------------------------------------------- which rows a claim takes

  /** The reclaim interval is the configured one cut to whole seconds, but at least one; five minutes by default. */
  lemma StaleIsWholeSeconds(c: Config)
    ensures c.staleClaimAfter <= 0 ==> StaleAfter(c) == 300_000_000_000
    ensures 0 < c.staleClaimAfter < 1_000_000_000 ==> StaleAfter(c) == 1_000_000_000
    ensures c.staleClaimAfter >= 1_000_000_000 ==>
      StaleAfter(c) % 1_000_000_000 == 0 && StaleAfter(c) <= c.staleClaimAfter < StaleAfter(c) + 1_000_000_000
  {
  }

  /** The row may be claimed: unlocked, unprocessed, not dead, past its next retry, not claimed within the interval. */
  predicate Due(c: Config, s: State, locked: set<EventId>, id: EventId) {
    && id in s.table && id !in locked
    && s.table[id].processedAt == None && !s.table[id].isDead
    && (s.table[id].nextRetryAt != None ==> s.table[id].nextRetryAt.value <= s.clock)
    && (s.table[id].claimedAt != None ==> s.table[id].claimedAt.value + StaleAfter(c) <= s.clock)
  }

  /**
   * What an idle instance may claim: rows that are due, each once, no more than the batch size; and a due row is
   * left out only when the batch is full of rows before it, by aggregate and then by event.
   */
  lemma ClaimsExactly(c: Config, s: State, d: DispatcherId, locked: set<EventId>, ids: seq<EventId>)
    ensures Enabled(c, s, ClaimBatch(d, locked, ids)) <==>
      && d !in s.live && |ids| <= c.batchSize
      && (forall j, k :: 0 <= j < k < |ids| ==> ids[j] != ids[k])
      && (forall k :: 0 <= k < |ids| ==> Due(c, s, locked, ids[k]))
      && (forall id :: Due(c, s, locked, id) && id !in ids ==>
            (|ids| == c.batchSize && forall k :: 0 <= k < |ids| ==>
               (s.table[ids[k]].aggregateId < s.table[id].aggregateId
                || (s.table[ids[k]].aggregateId == s.table[id].aggregateId && ids[k] < id))))
  {
    forall id ensures Free(s.table, s.clock, StaleAfter(c), locked, id) <==> Due(c, s, locked, id) {
    }
    if Enabled(c, s, ClaimBatch(d, locked, ids)) {
      forall id, k | Due(c, s, locked, id) && id !in ids && 0 <= k < |ids| ensures Before(s.table, ids[k], id) {
        assert Free(s.table, s.clock, StaleAfter(c), locked, id);
      }
    }
  }

  /** When the other steps are possible: every row of the batch is published before the results are applied. */
  lemma MovesExactly(c: Config, s: State, d: DispatcherId, received: bool, acked: bool, waits: seq<Wait>)
    ensures Enabled(c, s, Publish(d, received, acked)) <==>
      d in s.live && s.live[d].next < |s.live[d].rows| && (received || !acked)
    ensures Enabled(c, s, Apply(d, waits)) <==>
      d in s.live && s.live[d].next == |s.live[d].rows| && |waits| == |s.live[d].failures|
      && forall k :: 0 <= k < |waits| ==> waits[k].jitter < 1000
    ensures Enabled(c, s, Crash(d)) <==> d in s.live
  {
    assert (forall w <- waits :: ValidWait(w)) <==> forall k :: 0 <= k < |waits| ==> ValidWait(waits[k]);
  }

  /** What is claimed is stamped with the clock and remembered with its retry count; nothing else is touched. */
  lemma ClaimedExactly(c: Config, s: State, d: DispatcherId, locked: set<EventId>, ids: seq<EventId>, id: EventId)
    requires Enabled(c, s, ClaimBatch(d, locked, ids)) && id in s.table
    ensures id in ids ==>
      && s.table[id].processedAt == None && !s.table[id].isDead && id !in locked
      && (s.table[id].nextRetryAt != None ==> s.table[id].nextRetryAt.value <= s.clock)
    ensures var s' := Do(c, s, ClaimBatch(d, locked, ids));
      && s'.table[id] == (if id in ids then s.table[id].(claimedAt := Some(s.clock)) else s.table[id])
      && (id in ids <==> exists k ::
        0 <= k < |s'.live[d].rows| && s'.live[d].rows[k] == Claimed(id, s.table[id].retryCount))
  {
    if k :| 0 <= k < |ids| && ids[k] == id {
      assert Free(s.table, s.clock, StaleAfter(c), locked, ids[k]);
      assert Do(c, s, ClaimBatch(d, locked, ids)).live[d].rows[k] == Claimed(id, s.table[id].retryCount);
    }
  }

  /** Only a results transaction that fails the row writes its next retry. */
  lemma StepKeepsNextRetry(c: Config, s: State, step: Step, id: EventId)
    requires Safe(s) && Enabled(c, s, step) && id in s.table
    requires !(step.Apply? && HasFailure(s.live[step.d].failures, id))
    ensures id in Do(c, s, step).table && Do(c, s, step).table[id].nextRetryAt == s.table[id].nextRetryAt
  {
    if step.Apply? {
      UnfailedEffect(c, s, step.d, step.waits, id);
    }
  }

  /** No results transaction fails the row in the steps from i up to j. */
  ghost predicate NoFailureApplied(states: seq<State>, steps: seq<Step>, i: nat, j: nat, id: EventId)
    requires j <= |steps| <= |states|
  {
    forall m :: i <= m < j && steps[m].Apply? && steps[m].d in states[m].live ==>
      !HasFailure(states[m].live[steps[m].d].failures, id)
  }

  lemma {:induction false} NextRetryStays(c: Config, states: seq<State>, steps: seq<Step>, i: nat, j: nat, id: EventId)
    requires IsRun(c, states, steps) && i <= j <= |steps| && id in states[i].table
    requires NoFailureApplied(states, steps, i, j, id)
    ensures id in states[j].table && states[j].table[id].nextRetryAt == states[i].table[id].nextRetryAt
  {
    if i < j {
      NextRetryStays(c, states, steps, i, j - 1, id);
      RunSafe(c, states, steps, j - 1);
      StepKeepsNextRetry(c, states[j - 1], steps[j - 1], id);
    }
  }

  /**
   * In every run, a row that a results transaction fails is not claimed again before its delay is over, by
   * nobody: up to the 33rd retry that is min(60 s, 2^retry s) at least.
   */
  lemma RetryWaitsOut(c: Config, states: seq<State>, steps: seq<Step>, i: nat, j: nat, k: nat)
    requires IsRun(c, states, steps) && i < j < |steps|
    requires steps[i].Apply? && k < |states[i].live[steps[i].d].failures| && k < |steps[i].waits|
    requires var id := states[i].live[steps[i].d].failures[k].id;
      && NoFailureApplied(states, steps, i + 1, j, id)
      && steps[j].ClaimBatch? && id in steps[j].ids
    ensures var retry := states[i].live[steps[i].d].failures[k].retryCount + 1;
      && states[j].clock >= states[i].clock + Delay(retry, steps[i].waits[k])
      && (retry <= 33 ==>
            states[j].clock >= states[i].clock + (if retry < 6 then Pow2(retry) else 60) * 1_000_000_000)
  {
    var f, w := states[i].live[steps[i].d].failures[k], steps[i].waits[k];
    RunSafe(c, states, steps, i);
    FailedEffect(c, states[i], steps[i].d, steps[i].waits, k);
    NextRetryStays(c, states, steps, i + 1, j, f.id);
    ClaimedExactly(c, states[j], steps[j].d, steps[j].locked, steps[j].ids, f.id);
    assert w in steps[i].waits;
    BackoffFloorExact(f.retryCount + 1);
  }

  /** A row that is neither processed nor dead can be claimed again a bounded time after its last write. */
  lemma UnresolvedBecomesEligible(c: Config, states: seq<State>, steps: seq<Step>, i: nat, id: EventId)
    requires IsRun(c, states, steps) && i < |states|
    requires id in states[i].table && states[i].table[id].processedAt.None? && !states[i].table[id].isDead
    ensures id in states[i].wrote
    ensures var delay := if StaleAfter(c) > 61 * SECOND then StaleAfter(c) else 61 * SECOND;
      states[i].clock >= states[i].wrote[id] + delay ==>
        && Eligible(states[i].table[id], states[i].clock, StaleAfter(c))
        && forall d, locked, ids :: Enabled(c, states[i], ClaimBatch(d, locked, ids)) && id !in locked && id !in ids ==>
             |ids| == c.batchSize && forall k :: 0 <= k < |ids| ==>
               ids[k] in states[i].table && Before(states[i].table, ids[k], id)
  {
    RunSafe(c, states, steps, i);
    assert RowOk(states[i], id);
    forall d, locked, ids | Enabled(c, states[i], ClaimBatch(d, locked, ids))
      ensures forall k :: 0 <= k < |ids| ==> Free(states[i].table, states[i].clock, StaleAfter(c), locked, ids[k])
    {
    }
  }

  /** In every run a row is dead exactly when its retry count has passed the configured maximum, ten by default. */
  lemma {:induction false} DeadByCount(c: Config, states: seq<State>, steps: seq<Step>, i: nat, id: EventId)
    requires IsRun(c, states, steps) && i < |states| && id in states[i].table
    ensures states[i].table[id].isDead <==>
      states[i].table[id].retryCount > (if c.maxRetries <= 0 then 10 else c.maxRetries)
  {
    if i > 0 && id in states[i - 1].table {
      var s, step := states[i - 1], steps[i - 1];
      DeadByCount(c, states, steps, i - 1, id);
      RunSafe(c, states, steps, i - 1);
      if step.Apply? {
        var failures := s.live[step.d].failures;
        if k :| 0 <= k < |failures| && failures[k].id == id {
          FailedEffect(c, s, step.d, step.waits, k);
        } else {
          UnfailedEffect(c, s, step.d, step.waits, id);
        }
      }
    } else if i > 0 {
      RunSafe(c, states, steps, i - 1);
      if steps[i - 1].Apply? {
        ApplyKeepsKeys(c, states[i - 1], steps[i - 1].d, steps[i - 1].waits);
      }
    }
  }

  // ---------------------------------------------------------------- runs in which no batch outlives its claim

  /** Every live batch is younger than the reclaim interval. */
  ghost predicate Timely(c: Config, s: State) {
    forall d <- s.live :: s.clock < s.live[d].claimedAt + StaleAfter(c)
  }

  ghost predicate Held(s: State, b: Batch, row: Claimed) {
    && row.id in s.table
    && s.table[row.id].processedAt.None?
    && !s.table[row.id].isDead
    && s.table[row.id].claimedAt == Some(b.claimedAt)
    && s.table[row.id].retryCount == row.retryCount
  }

  ghost predicate Counted(c: Config, s: State, id: EventId)
    requires id in s.table && id in s.applied
  {
    && s.table[id].retryCount == s.applied[id] <= MaxRetries(c) + 1
    && (s.table[id].isDead <==> s.applied[id] > MaxRetries(c))
  }

  ghost predicate AllHeld(s: State, b: Batch) {
    forall row <- b.rows :: Held(s, b, row)
  }

  ghost predicate Apart(a: Batch, b: Batch) {
    forall row <- a.rows, other <- b.rows :: row.id != other.id
  }

  /** Each row has at most one live holder, and its columns agree with what happened to it. */
  ghost predicate Exclusive(c: Config, s: State) {
    && (forall d <- s.live :: AllHeld(s, s.live[d]))
    && (forall d <- s.live, e <- s.live :: d != e ==> Apart(s.live[d], s.live[e]))
    && s.applied.Keys == s.table.Keys
    && (forall id <- s.table :: Counted(c, s, id))
  }

  lemma ClaimTakesUnheld(c: Config, s: State, d: DispatcherId, locked: set<EventId>, ids: seq<EventId>,
                         e: DispatcherId, row: Claimed)
    requires Timely(c, s) && Exclusive(c, s) && Enabled(c, s, ClaimBatch(d, locked, ids))
    requires e in s.live && row in s.live[e].rows
    ensures row.id !in ids
  {
    assert AllHeld(s, s.live[e]) && Held(s, s.live[e], row);
    assert !Eligible(s.table[row.id], s.clock, StaleAfter(c));
    forall i | 0 <= i < |ids| ensures ids[i] != row.id {
      assert Free(s.table, s.clock, StaleAfter(c), locked, ids[i]);
    }
  }

  /** A claim leaves the rows of every other live batch alone. */
  lemma ClaimSparesOthers(c: Config, s: State, d: DispatcherId, locked: set<EventId>, ids: seq<EventId>,
                          e: DispatcherId)
    requires Timely(c, s) && Exclusive(c, s) && Enabled(c, s, ClaimBatch(d, locked, ids)) && e in s.live
    ensures forall row <- s.live[e].rows :: row.id !in ids
    ensures AllHeld(Do(c, s, ClaimBatch(d, locked, ids)), s.live[e])
  {
    var s' := Do(c, s, ClaimBatch(d, locked, ids));
    forall row <- s.live[e].rows ensures row.id !in ids && Held(s', s.live[e], row) {
      ClaimTakesUnheld(c, s, d, locked, ids, e, row);
      assert AllHeld(s, s.live[e]) && Held(s, s.live[e], row);
    }
  }

  lemma ClaimHoldsItsRows(c: Config, s: State, d: DispatcherId, locked: set<EventId>, ids: seq<EventId>)
    requires Enabled(c, s, ClaimBatch(d, locked, ids))
    ensures var s' := Do(c, s, ClaimBatch(d, locked, ids));
      AllHeld(s', s'.live[d]) && forall row <- s'.live[d].rows :: row.id in ids
  {
    var s' := Do(c, s, ClaimBatch(d, locked, ids));
    var b := s'.live[d];
    forall row <- b.rows ensures row.id in ids && Held(s', b, row) {
      var i :| 0 <= i < |ids| && row == b.rows[i];
      assert Free(s.table, s.clock, StaleAfter(c), locked, ids[i]);
    }
  }

  lemma ClaimKeepsCounts(c: Config, s: State, d: DispatcherId, locked: set<EventId>, ids: seq<EventId>)
    requires Exclusive(c, s) && Enabled(c, s, ClaimBatch(d, locked, ids))
    ensures var s' := Do(c, s, ClaimBatch(d, locked, ids));
      s'.applied.Keys == s'.table.Keys && forall id <- s'.table :: Counted(c, s', id)
  {
    var s' := Do(c, s, ClaimBatch(d, locked, ids));
    forall id <- s'.table ensures Counted(c, s', id) {
      assert Counted(c, s, id);
    }
  }

  lemma ClaimKeepsExclusive(c: Config, s: State, d: DispatcherId, locked: set<EventId>, ids: seq<EventId>)
    requires Timely(c, s) && Exclusive(c, s) && Enabled(c, s, ClaimBatch(d, locked, ids))
    ensures Exclusive(c, Do(c, s, ClaimBatch(d, locked, ids)))
  {
    var s' := Do(c, s, ClaimBatch(d, locked, ids));
    var b := s'.live[d];
    assert s'.live == s.live[d := b];
    ClaimHoldsItsRows(c, s, d, locked, ids);
    ClaimKeepsCounts(c, s, d, locked, ids);
    forall e <- s.live ensures AllHeld(s', s.live[e]) && Apart(s.live[e], b) && Apart(b, s.live[e]) {
      ClaimSparesOthers(c, s, d, locked, ids, e);
    }
  }

  /** Everything the batch resolves is among its rows. */
  lemma ResolvedIsHeld(s: State, d: DispatcherId, id: EventId) returns (row: Claimed)
    requires Safe(s) && d in s.live
    requires id in s.live[d].successes || HasFailure(s.live[d].failures, id)
    ensures row in s.live[d].rows && row.id == id
  {
    var b := s.live[d];
    if id in b.successes {
      var i :| 0 <= i < b.next && b.rows[i].id == id;
      row := b.rows[i];
    } else {
      var k :| 0 <= k < |b.failures| && b.failures[k].id == id;
      assert b.failures[k] in b.failures;
      row := b.failures[k];
    }
  }

  lemma UnheldRowUntouched(c: Config, s: State, d: DispatcherId, waits: seq<Wait>, id: EventId)
    requires Safe(s) && Enabled(c, s, Apply(d, waits)) && id in s.table
    requires forall row <- s.live[d].rows :: row.id != id
    ensures var s' := Do(c, s, Apply(d, waits));
      id in s'.table && s'.table[id] == s.table[id] && s'.applied[id] == s.applied[id]
  {
    var b := s.live[d];
    if id in b.successes || HasFailure(b.failures, id) {
      var row := ResolvedIsHeld(s, d, id);
      assert false;
    }
    UnfailedEffect(c, s, d, waits, id);
  }

  lemma FailedCount(c: Config, s: State, d: DispatcherId, waits: seq<Wait>, k: nat)
    requires Safe(s) && Exclusive(c, s) && Enabled(c, s, Apply(d, waits)) && k < |s.live[d].failures|
    ensures var s' := Do(c, s, Apply(d, waits)); var id := s.live[d].failures[k].id;
      id in s'.table && id in s'.applied && Counted(c, s', id)
  {
    var f := s.live[d].failures[k];
    FailedEffect(c, s, d, waits, k);
    assert AllHeld(s, s.live[d]) && Held(s, s.live[d], f);
    assert Counted(c, s, f.id);
  }

  lemma ApplyKeepsCount(c: Config, s: State, d: DispatcherId, waits: seq<Wait>, id: EventId)
    requires Safe(s) && Exclusive(c, s) && Enabled(c, s, Apply(d, waits)) && id in s.table
    ensures var s' := Do(c, s, Apply(d, waits)); id in s'.table && id in s'.applied && Counted(c, s', id)
  {
    if HasFailure(s.live[d].failures, id) {
      var k :| 0 <= k < |s.live[d].failures| && s.live[d].failures[k].id == id;
      FailedCount(c, s, d, waits, k);
    } else {
      assert Counted(c, s, id);
      UnfailedEffect(c, s, d, waits, id);
    }
  }

  lemma ApplyKeepsExclusive(c: Config, s: State, d: DispatcherId, waits: seq<Wait>)
    requires Safe(s) && Exclusive(c, s) && Enabled(c, s, Apply(d, waits))
    ensures Exclusive(c, Do(c, s, Apply(d, waits)))
  {
    var s' := Do(c, s, Apply(d, waits));
    ApplyKeepsKeys(c, s, d, waits);
    forall e <- s'.live ensures AllHeld(s', s'.live[e]) {
      assert e in s.live && AllHeld(s, s.live[e]) && Apart(s.live[d], s.live[e]);
      forall row <- s'.live[e].rows ensures Held(s', s'.live[e], row) {
        assert Held(s, s.live[e], row);
        UnheldRowUntouched(c, s, d, waits, row.id);
      }
    }
    forall e <- s'.live, g <- s'.live | e != g ensures Apart(s'.live[e], s'.live[g]) {
      assert Apart(s.live[e], s.live[g]);
    }
    forall id <- s'.table ensures Counted(c, s', id) {
      ApplyKeepsCount(c, s, d, waits, id);
    }
  }

  /** Nothing is lost when existing rows stay as they are and the live batches only shrink. */
  lemma QuietChange(c: Config, s: State, s': State)
    requires Exclusive(c, s) && s'.applied.Keys == s'.table.Keys
    requires forall d <- s'.live ::
      d in s.live && s'.live[d].rows == s.live[d].rows && s'.live[d].claimedAt == s.live[d].claimedAt
    requires forall id <- s.table :: id in s'.table && s'.table[id] == s.table[id] && s'.applied[id] == s.applied[id]
    requires forall id <- s'.table :: id in s.table || Counted(c, s', id)
    ensures Exclusive(c, s')
  {
    forall d <- s'.live, row <- s'.live[d].rows ensures Held(s', s'.live[d], row) {
      assert AllHeld(s, s.live[d]) && Held(s, s.live[d], row);
    }
    forall d <- s'.live, e <- s'.live | d != e ensures Apart(s'.live[d], s'.live[e]) {
      assert Apart(s.live[d], s.live[e]);
    }
    forall id <- s'.table ensures Counted(c, s', id) {
      if id in s.table {
        assert Counted(c, s, id);
      }
    }
  }

  lemma StepKeepsExclusive(c: Config, s: State, step: Step)
    requires Safe(s) && Timely(c, s) && Exclusive(c, s) && Enabled(c, s, step)
    ensures Exclusive(c, Do(c, s, step))
  {
    match step
    case ClaimBatch(d, locked, ids) =>
      ClaimKeepsExclusive(c, s, d, locked, ids);
    case Apply(d, waits) =>
      ApplyKeepsExclusive(c, s, d, waits);
    case _ =>
      QuietChange(c, s, Do(c, s, step));
  }

  /**
   * While no batch outlives the reclaim interval: rows have at most one holder, retry_count is the
   * number of applied failed publishes and never passes maxRetries + 1, and a row is dead exactly
   * when that count has passed maxRetries.
   */
  lemma {:induction false} TimelyRunExclusive(c: Config, states: seq<State>, steps: seq<Step>, i: nat)
    requires IsRun(c, states, steps) && i < |states|
    requires forall k :: 0 <= k < i ==> Timely(c, states[k])
    ensures Exclusive(c, states[i])
    ensures forall id <- states[i].table ::
      (id in states[i].applied
       && states[i].table[id].retryCount == states[i].applied[id] <= (if c.maxRetries <= 0 then 10 else c.maxRetries)
         + 1)
  {
    forall id <- states[i].table ensures Exclusive(c, states[i]) ==> Counted(c, states[i], id) {
    }
    if i > 0 {
      TimelyRunExclusive(c, states, steps, i - 1);
      RunSafe(c, states, steps, i - 1);
      StepKeepsExclusive(c, states[i - 1], steps[i - 1]);
    }
  }

  lemma StepFreezesResolved(c: Config, s: State, step: Step, id: EventId)
    requires Safe(s) && Exclusive(c, s) && Enabled(c, s, step)
    requires id in s.table && (s.table[id].processedAt.Some? || s.table[id].isDead)
    ensures id in Do(c, s, step).table && Do(c, s, step).table[id] == s.table[id]
    ensures step.Publish? ==> s.live[step.d].rows[s.live[step.d].next].id != id
  {
    forall d <- s.live, row <- s.live[d].rows ensures row.id != id {
      assert AllHeld(s, s.live[d]) && Held(s, s.live[d], row);
    }
    match step
    case ClaimBatch(d, locked, ids) =>
      forall i | 0 <= i < |ids| ensures ids[i] != id {
        assert Free(s.table, s.clock, StaleAfter(c), locked, ids[i]);
      }
    case Apply(d, waits) =>
      UnheldRowUntouched(c, s, d, waits, id);
    case _ =>
  }

  /** While no batch outlives the reclaim interval, a dead or processed row is never written or published again. */
  lemma {:induction false} ResolvedIsFinal(c: Config, states: seq<State>, steps: seq<Step>, i: nat, j: nat, id: EventId)
    requires IsRun(c, states, steps) && i <= j < |states|
    requires forall k :: 0 <= k < j ==> Timely(c, states[k])
    requires id in states[i].table && (states[i].table[id].processedAt.Some? || states[i].table[id].isDead)
    ensures id in states[j].table && states[j].table[id] == states[i].table[id]
    ensures j < |steps| && steps[j].Publish? ==>
      states[j].live[steps[j].d].rows[states[j].live[steps[j].d].next].id != id
  {
    RunSafe(c, states, steps, j);
    TimelyRunExclusive(c, states, steps, j);
    if i < j {
      ResolvedIsFinal(c, states, steps, i, j - 1, id);
      RunSafe(c, states, steps, j - 1);
      TimelyRunExclusive(c, states, steps, j - 1);
      StepFreezesResolved(c, states[j - 1], steps[j - 1], id);
    }
    if j < |steps| {
      StepFreezesResolved(c, states[j], steps[j], id);
    }
  }

  // ---------------------------------------------------------------- what a stale holder breaks

  ghost predicate CountsAgree(s: State) {
    forall id <- s.table :: id in s.applied && s.table[id].retryCount == s.applied[id]
  }

  /**
   * Without the premise: the retry counts survive a results transaction exactly when every count
   * the batch read at claim time is still the row's count.
   */
  lemma CountsAgreeExactly(c: Config, s: State, d: DispatcherId, waits: seq<Wait>)
    requires Safe(s) && CountsAgree(s) && Enabled(c, s, Apply(d, waits))
    ensures CountsAgree(Do(c, s, Apply(d, waits)))
       <==> forall f <- s.live[d].failures :: f.id in s.table && s.table[f.id].retryCount == f.retryCount
  {
    var b := s.live[d];
    var s' := Do(c, s, Apply(d, waits));
    ApplyKeepsKeys(c, s, d, waits);
    forall k | 0 <= k < |b.failures|
      ensures b.failures[k].id in s'.table && b.failures[k].id in s.table
      ensures s'.table[b.failures[k].id].retryCount == b.failures[k].retryCount + 1
      ensures s'.applied[b.failures[k].id] == s.table[b.failures[k].id].retryCount + 1
    {
      FailedEffect(c, s, d, waits, k);
    }
    forall id <- s'.table | !HasFailure(b.failures, id) ensures s'.table[id].retryCount == s'.applied[id] {
      UnfailedEffect(c, s, d, waits, id);
    }
    if CountsAgree(s') {
      forall f <- b.failures ensures f.id in s.table && s.table[f.id].retryCount == f.retryCount {
        assert f.id in s'.table;
      }
    }
  }

  lemma StepKeepsCounts(c: Config, s: State, step: Step)
    requires CountsAgree(s) && Enabled(c, s, step) && !step.Apply?
    ensures CountsAgree(Do(c, s, step))
  {
  }

  /** A results transaction that writes a count read at claim time over a newer one. */
  ghost predicate Overwrites(s: State, step: Step) {
    step.Apply? && step.d in s.live
      && !(forall f <- s.live[step.d].failures :: f.id in s.table && s.table[f.id].retryCount == f.retryCount)
  }

  /**
   * In every run, with stale holders or without, the retry counts are the numbers of applied failures all
   * along if and only if no results transaction overwrites a newer count.
   */
  lemma {:induction false} CountsTrueExactly(c: Config, states: seq<State>, steps: seq<Step>, n: nat)
    requires IsRun(c, states, steps) && n < |states|
    ensures (forall k :: 0 <= k <= n ==> CountsAgree(states[k])) <==>
      forall k :: 0 <= k < n ==> !Overwrites(states[k], steps[k])
  {
    hide Do;
    hide CountsAgree;
    if n == 0 {
      NoCountsAtStart();
    } else {
      CountsTrueExactly(c, states, steps, n - 1);
      var s, step := states[n - 1], steps[n - 1];
      RunSafe(c, states, steps, n - 1);
      if CountsAgree(s) {
        if step.Apply? {
          CountsAgreeExactly(c, s, step.d, step.waits);
        } else {
          StepKeepsCounts(c, s, step);
        }
        assert CountsAgree(states[n]) <==> !Overwrites(s, step);
      }
    }
  }

  lemma NoCountsAtStart()
    ensures CountsAgree(EMPTY)
  {
  }

  /** A results transaction that takes a row's death back: it counts a failure from a lower count read at claim time. */
  ghost predicate Revives(c: Config, s: State, step: Step, id: EventId) {
    step.Apply? && step.d in s.live && exists f <- s.live[step.d].failures :: f.id == id && f.retryCount < MaxRetries(c)
  }

  /** A dead row comes alive in a results transaction exactly when the batch read a count below maxRetries. */
  lemma DeadRevivedExactly(c: Config, s: State, d: DispatcherId, waits: seq<Wait>, id: EventId)
    requires Safe(s) && Enabled(c, s, Apply(d, waits)) && id in s.table && s.table[id].isDead
    ensures id in Do(c, s, Apply(d, waits)).table
    ensures !Do(c, s, Apply(d, waits)).table[id].isDead
       <==> exists f <- s.live[d].failures :: f.id == id && f.retryCount < MaxRetries(c)
  {
    var b := s.live[d];
    if HasFailure(b.failures, id) {
      var k :| 0 <= k < |b.failures| && b.failures[k].id == id;
      FailedEffect(c, s, d, waits, k);
      assert b.failures[k] in b.failures;
      forall f <- b.failures | f.id == id ensures f == b.failures[k] {
        assert BatchOk(s, b);
      }
    } else {
      UnfailedEffect(c, s, d, waits, id);
    }
  }

  /** No other kind of step touches a dead row's death. */
  lemma StepRevivesExactly(c: Config, s: State, step: Step, id: EventId)
    requires Safe(s) && Enabled(c, s, step) && id in s.table && s.table[id].isDead
    ensures id in Do(c, s, step).table
    ensures !Do(c, s, step).table[id].isDead <==> Revives(c, s, step, id)
  {
    if step.Apply? {
      DeadRevivedExactly(c, s, step.d, step.waits, id);
    }
  }

  ghost predicate DeadThrough(states: seq<State>, i: nat, j: nat, id: EventId) {
    j < |states| && forall k :: i <= k <= j ==> id in states[k].table && states[k].table[id].isDead
  }

  /**
   * Death is final exactly as far as no such transaction comes: in every run, with stale holders or
   * without, a row dead at step i is dead throughout up to step j if and only if none of the steps between
   * applies a failure counted from below maxRetries.
   */
  lemma {:induction false} DeadForEverExactly(c: Config, states: seq<State>, steps: seq<Step>, i: nat, j: nat,
                                              id: EventId)
    requires IsRun(c, states, steps) && i <= j < |states|
    requires id in states[i].table && states[i].table[id].isDead
    ensures DeadThrough(states, i, j, id) <==> forall k :: i <= k < j ==> !Revives(c, states[k], steps[k], id)
  {
    hide Do;
    hide Revives;
    if i < j {
      DeadForEverExactly(c, states, steps, i, j - 1, id);
      RunSafe(c, states, steps, j - 1);
      if DeadThrough(states, i, j - 1, id) {
        StepRevivesExactly(c, states[j - 1], steps[j - 1], id);
        assert DeadThrough(states, i, j, id) <==> id in states[j].table && states[j].table[id].isDead;
      } else {
        assert !DeadThrough(states, i, j, id);
      }
    }
  }

  /** The state of the witness run below: one row, its history counter, the live batches. */
  function Scene(clock: Instant, row: Row, live: map<DispatcherId, Batch>, applied: nat, wrote: Instant): State {
    State(clock, map[7 := row], live, {}, map[7 := applied], map[7 := wrote])
  }

  function Holding(claimedAt: Instant, count: nat, published: bool): Batch {
    var row := Claimed(7, count);
    if published then Batch(claimedAt, [row], 1, [], [row]) else Batch(claimedAt, [row], 0, [], [])
  }

  lemma ClaimScene(c: Config, d: DispatcherId, now: Instant, row: Row, others: map<DispatcherId, Batch>, applied: nat,
                   wrote: Instant)
    requires d !in others && c.batchSize >= 1 && Eligible(row, now, StaleAfter(c))
    ensures var s := Scene(now, row, others, applied, wrote);
      && Enabled(c, s, ClaimBatch(d, {}, [7]))
      && Do(c, s, ClaimBatch(d, {}, [7]))
         == Scene(now, row.(claimedAt := Some(now)), others[d := Holding(now, row.retryCount, false)], applied, now)
  {
    var s := Scene(now, row, others, applied, wrote);
    assert Snapshot(s.table, [7]) == [Claimed(7, row.retryCount)];
    assert Claim(s.table, [7], now) == map[7 := row.(claimedAt := Some(now))];
    assert Touched(s, set id | id in [7]) == map[7 := now];
    assert IsClaim(s.table, now, StaleAfter(c), c.batchSize, {}, [7]);
    var s' := Do(c, s, ClaimBatch(d, {}, [7]));
    var t := Scene(now, row.(claimedAt := Some(now)), others[d := Holding(now, row.retryCount, false)], applied, now);
    assert s'.live[d] == t.live[d];
    assert s'.table == t.table && s'.wrote == t.wrote && s'.live == t.live && s'.applied == t.applied;
    assert s' == t;
  }

  lemma PublishScene(c: Config, d: DispatcherId, now: Instant, row: Row, others: map<DispatcherId, Batch>,
                     claimedAt: Instant, count: nat, applied: nat, wrote: Instant)
    ensures var s := Scene(now, row, others[d := Holding(claimedAt, count, false)], applied, wrote);
      && Enabled(c, s, Publish(d, false, false))
      && Do(c, s, Publish(d, false, false))
        == Scene(now, row, others[d := Holding(claimedAt, count, true)], applied, wrote)
  {
    var s := Scene(now, row, others[d := Holding(claimedAt, count, false)], applied, wrote);
    assert s.live[d := Holding(claimedAt, count, true)] == others[d := Holding(claimedAt, count, true)];
    assert [] + [Claimed(7, count)] == [Claimed(7, count)];
    assert Do(c, s, Publish(d, false, false)).live[d] == Holding(claimedAt, count, true);
  }

  lemma ApplyScene(c: Config, d: DispatcherId, now: Instant, row: Row, others: map<DispatcherId, Batch>,
                   claimedAt: Instant, count: nat, applied: nat, wrote: Instant)
    requires d !in others
    ensures var s := Scene(now, row, others[d := Holding(claimedAt, count, true)], applied, wrote);
      && Enabled(c, s, Apply(d, [Wait(0, 0)]))
      && Do(c, s, Apply(d, [Wait(0, 0)]))
         == Scene(now, FailedRow(row, count, Wait(0, 0), now, MaxRetries(c)), others, applied + 1, now)
  {
    var s := Scene(now, row, others[d := Holding(claimedAt, count, true)], applied, wrote);
    var failures := [Claimed(7, count)];
    var waits := [Wait(0, 0)];
    assert failures[0].id == 7 && HasFailure(failures, 7) && forall id :: HasFailure(failures, id) ==> id == 7;
    assert failures[..0] == [] && waits[..0] == [];
    assert ApplyFailures(s.table, [], [], now, MaxRetries(c)) == s.table;
    assert ApplyResults(s.table, [], failures, waits, now, MaxRetries(c))
        == map[7 := FailedRow(row, count, Wait(0, 0), now, MaxRetries(c))];
    assert s.live - {d} == others;
    var s' := Do(c, s, Apply(d, waits));
    assert s'.wrote == map[7 := now];
    assert s'.applied == map[7 := applied + 1];
  }

  /** Instance 1 claims row 7, its publish is refused, and it stalls for the whole reclaim interval. */
  lemma StallRun(c: Config) returns (states: seq<State>, steps: seq<Step>)
    requires c == Config(1, 0, 1)
    ensures IsRun(c, states, steps) && |steps| == 4
    ensures states[4] == Scene(300 * SECOND, Row(0, None, false, 0, None, Some(0)), map[1 := Holding(0, 0, true)], 0, 0)
  {
    var unclaimed := Row(0, None, false, 0, None, None);
    var held := unclaimed.(claimedAt := Some(0));
    var stuck := map[1 := Holding(0, 0, true)];
    assert map[][1 := Holding(0, 0, true)] == stuck
      && map[][1 := Holding(0, 0, false)] == map[1 := Holding(0, 0, false)];
    states, steps := [EMPTY], [];
    states, steps := Then(c, states, steps, Insert(7, 0), Scene(0, unclaimed, map[], 0, 0));
    ClaimScene(c, 1, 0, unclaimed, map[], 0, 0);
    states, steps := Then(c, states, steps, ClaimBatch(1, {}, [7]),
                          Scene(0, held, map[1 := Holding(0, 0, false)], 0, 0));
    PublishScene(c, 1, 0, held, map[], 0, 0, 0, 0);
    states, steps := Then(c, states, steps, Publish(1, false, false), Scene(0, held, stuck, 0, 0));
    states, steps := Then(c, states, steps, Tick(300 * SECOND), Scene(300 * SECOND, held, stuck, 0, 0));
  }

  /** Meanwhile instance 2 counts two failures of row 7 and declares it dead. */
  lemma DeadRun(c: Config) returns (states: seq<State>, steps: seq<Step>)
    requires c == Config(1, 0, 1)
    ensures IsRun(c, states, steps) && |steps| == 11
    ensures states[11] == Scene(302 * SECOND, Row(0, None, true, 2, Some(306 * SECOND), None),
                                map[1 := Holding(0, 0, true)], 2, 302 * SECOND)
  {
    var stuck := map[1 := Holding(0, 0, true)];
    var row1 := Row(0, None, false, 1, Some(302 * SECOND), None);
    FirstDelays();
    states, steps := StallRun(c);
    states, steps := Cycle(c, states, steps, 300 * SECOND, Row(0, None, false, 0, None, Some(0)), stuck, 0, 0);
    states, steps := Then(c, states, steps, Tick(2 * SECOND), Scene(302 * SECOND, row1, stuck, 1, 300 * SECOND));
    states, steps := Cycle(c, states, steps, 302 * SECOND, row1, stuck, 1, 300 * SECOND);
  }

  /**
   * An instance that outlives the reclaim interval undoes later results: a run in which another
   * instance has counted two failures and declared the row dead, and the late results transaction
   * of the first brings it back to life with a count of one.
   */
  lemma StaleHolderRevivesDeadRow() returns (c: Config, states: seq<State>, steps: seq<Step>)
    ensures IsRun(c, states, steps) && |steps| == 12 && MaxRetries(c) == 1
    ensures states[11].table.Keys == states[12].table.Keys == states[11].applied.Keys == states[12].applied.Keys == {7}
    ensures states[11].table[7].isDead && states[11].table[7].retryCount == states[11].applied[7] == 2
    ensures !states[12].table[7].isDead && states[12].table[7].retryCount == 1 && states[12].applied[7] == 3
  {
    c := Config(1, 0, 1);
    var row := Row(0, None, true, 2, Some(306 * SECOND), None);
    FirstDelays();
    states, steps := DeadRun(c);
    ApplyScene(c, 1, 302 * SECOND, row, map[], 0, 0, 2, 302 * SECOND);
    assert map[][1 := Holding(0, 0, true)] == map[1 := Holding(0, 0, true)];
    var last := Scene(302 * SECOND, row.(isDead := false, retryCount := 1, nextRetryAt := Some(304 * SECOND)), map[],
                      3, 302 * SECOND);
    states, steps := Then(c, states, steps, Apply(1, [Wait(0, 0)]), last);
  }

  lemma FirstDelays()
    ensures Delay(1, Wait(0, 0)) == 2 * SECOND && Delay(2, Wait(0, 0)) == 4 * SECOND
  {
    assert Pow2(1) == 2 && Pow2(2) == 4;
  }

  lemma Then(c: Config, states: seq<State>, steps: seq<Step>, step: Step, s: State)
    returns (states': seq<State>, steps': seq<Step>)
    requires IsRun(c, states, steps)
    requires Enabled(c, states[|steps|], step) && Do(c, states[|steps|], step) == s
    ensures IsRun(c, states', steps') && |steps'| == |steps| + 1
    ensures states'[..|states|] == states && states'[|steps'|] == s
  {
    states', steps' := states + [s], steps + [step];
  }

  /** Instance 2 claims row 7, its publish is refused, and the failure is applied. */
  lemma Cycle(c: Config, states: seq<State>, steps: seq<Step>, now: Instant, row: Row, stuck: map<DispatcherId, Batch>,
              applied: nat, wrote: Instant)
    returns (states': seq<State>, steps': seq<Step>)
    requires IsRun(c, states, steps) && states[|steps|] == Scene(now, row, stuck, applied, wrote)
    requires 2 !in stuck && c.batchSize >= 1 && Eligible(row, now, StaleAfter(c))
    ensures IsRun(c, states', steps') && |steps'| == |steps| + 3
    ensures states'[|steps'|]
         == Scene(now, FailedRow(row.(claimedAt := Some(now)), row.retryCount, Wait(0, 0), now, MaxRetries(c)), stuck,
                  applied + 1, now)
  {
    var claimed := row.(claimedAt := Some(now));
    ClaimScene(c, 2, now, row, stuck, applied, wrote);
    states', steps' := Then(c, states, steps, ClaimBatch(2, {}, [7]),
                            Scene(now, claimed, stuck[2 := Holding(now, row.retryCount, false)], applied, now));
    PublishScene(c, 2, now, claimed, stuck, now, row.retryCount, applied, now);
    states', steps' := Then(c, states', steps', Publish(2, false, false),
                            Scene(now, claimed, stuck[2 := Holding(now, row.retryCount, true)], applied, now));
    ApplyScene(c, 2, now, claimed, stuck, now, row.retryCount, applied, now);
    states', steps' := Then(c, states', steps', Apply(2, [Wait(0, 0)]),
                            Scene(now, FailedRow(claimed, row.retryCount, Wait(0, 0), now, MaxRetries(c)), stuck,
                                  applied + 1, now));
  }
}
