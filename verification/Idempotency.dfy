/**
 * The Idempotency-Key middleware for one scoped key: look the cached response up, take an in-flight
 * lock, run the handler, store a 2xx response, drop the lock. Any number of requests interleave;
 * every Redis command is one atomic step. Instants are milliseconds on one clock.
 */
module Idempotency {
  import opened Common

  type Instant = int
  type RequestId = nat

  const IDEMPOTENCY_TTL: int := 24 * 60 * 60 * 1000
  const IN_FLIGHT_TTL: int := 30 * 1000

  // ---------------------------------------------------------------- keys

  const CACHE_PREFIX: string := "idem:"
  const LOCK_SUFFIX: string := ":lock"

  function CacheKey(scope: string, key: string): string {
    CACHE_PREFIX + scope + ":" + key
  }

  function LockKey(scope: string, key: string): string {
    CacheKey(scope, key) + LOCK_SUFFIX
  }

  /** Inside one scope, two keys interfere only when one is the other with ":lock" appended. */
  lemma LockCollidesExactly(scope: string, key: string, other: string)
    ensures CacheKey(scope, other) == LockKey(scope, key) <==> other == key + LOCK_SUFFIX
    ensures CacheKey(scope, other) == CacheKey(scope, key) <==> other == key
    ensures LockKey(scope, other) == LockKey(scope, key) <==> other == key
  {
    var p := CACHE_PREFIX + scope + ":";
    assert CacheKey(scope, other)[|p|..] == other && CacheKey(scope, key)[|p|..] == key;
    assert LockKey(scope, key)[|p|..] == key + LOCK_SUFFIX && LockKey(scope, other)[|p|..] == other + LOCK_SUFFIX;
    assert (key + LOCK_SUFFIX)[..|key|] == key && (other + LOCK_SUFFIX)[..|other|] == other;
    if other == key + LOCK_SUFFIX {
      assert p + other == (p + key) + LOCK_SUFFIX;
    }
  }

  // ---------------------------------------------------------------- the protocol

  datatype Response = Response(status: int, headers: map<string, string>, body: string)

  predicate Success(r: Response) {
    200 <= r.status < 300
  }

  /** The cached value; an empty hash marks an entry written before the field existed. */
  datatype Entry = Entry(response: Response, bodyHash: string)

  datatype Lookup = Miss | SameBody(response: Response) | DifferentBody

  function Classify(e: Entry, bodyHash: string): Lookup {
    if e.bodyHash != "" && e.bodyHash != bodyHash then DifferentBody else SameBody(e.response)
  }

  /** A Redis value with its expiry; it reads as absent from that instant on. */
  datatype Timed<T> = Timed(value: T, until: Instant)

  function Live<T>(slot: Option<Timed<T>>, now: Instant): Option<T> {
    if slot.Some? && now < slot.value.until then Some(slot.value.value) else None
  }

  datatype Reply =
    | Replayed(response: Response)
    | Conflict           // 409: another request holds the lock
    | Mismatch           // 422: the key was used with another body
    | Unavailable        // 500: SETNX failed
    | Fresh(response: Response)

  datatype Phase =
    | Arrived
    | Missed(seen: nat, erred: bool)    // after the lookup; `seen` stores had happened by then
    | Running(lockedAt: Instant)
    | Ran(lockedAt: Instant, response: Response)
    | Stored(lockedAt: Instant, response: Response)
    | Answered(reply: Reply)
    | Gone                              // the serving process died

  datatype Request = Request(bodyHash: string, phase: Phase)

  /** One finished handler run. */
  datatype HandlerRun = HandlerRun(bodyHash: string, response: Response)

  /**
   * The two Redis slots, the requests, and two histories: the finished handler runs, and the number
   * of stores so far.
   */
  datatype State = State(
    clock: Instant,
    cache: Option<Timed<Entry>>,
    lock: Option<Timed<()>>,
    requests: map<RequestId, Request>,
    runs: seq<HandlerRun>,
    stores: nat)

  datatype Step =
    | Tick(elapsed: nat)
    | Arrive(r: RequestId, bodyHash: string)
    | LookUp(r: RequestId, redisErr: bool)
    | AcquireLock(r: RequestId, redisErr: bool)
    | HandlerReturns(r: RequestId, response: Response)
    | Store(r: RequestId, redisErr: bool)
    | DropLock(r: RequestId, redisErr: bool)
    | Die(r: RequestId)

  const EMPTY: State := State(0, None, None, map[], [], 0)

  predicate At(s: State, r: RequestId) {
    r in s.requests
  }

  predicate Enabled(s: State, step: Step) {
    match step
    case Tick(_) => true
    case Arrive(r, bodyHash) => r !in s.requests && bodyHash != ""
    case LookUp(r, _) => At(s, r) && s.requests[r].phase.Arrived?
    case AcquireLock(r, _) => At(s, r) && s.requests[r].phase.Missed?
    case HandlerReturns(r, _) => At(s, r) && s.requests[r].phase.Running?
    case Store(r, _) => At(s, r) && s.requests[r].phase.Ran?
    case DropLock(r, _) => At(s, r) && s.requests[r].phase.Stored?
    case Die(r) => At(s, r) && !s.requests[r].phase.Answered?
  }

  function Set(s: State, r: RequestId, phase: Phase): State
    requires At(s, r)
  {
    s.(requests := s.requests[r := s.requests[r].(phase := phase)])
  }

  function Do(s: State, step: Step): State
    requires Enabled(s, step)
  {
    match step
    case Tick(elapsed) => s.(clock := s.clock + elapsed)
    case Arrive(r, bodyHash) => s.(requests := s.requests[r := Request(bodyHash, Arrived)])
    case LookUp(r, redisErr) =>
      var found := Live(s.cache, s.clock);
      if redisErr || found.None? then Set(s, r, Missed(s.stores, redisErr))
      else (
        match Classify(found.value, s.requests[r].bodyHash)
        case SameBody(response) => Set(s, r, Answered(Replayed(response)))
        case DifferentBody => Set(s, r, Answered(Mismatch))
        case Miss => s)
    case AcquireLock(r, redisErr) =>
      if redisErr then Set(s, r, Answered(Unavailable))
      else if Live(s.lock, s.clock).Some? then Set(s, r, Answered(Conflict))
      else Set(s, r, Running(s.clock)).(lock := Some(Timed((), s.clock + IN_FLIGHT_TTL)))
    case HandlerReturns(r, response) =>
      var run := HandlerRun(s.requests[r].bodyHash, response);
      Set(s, r, Ran(s.requests[r].phase.lockedAt, response)).(runs := s.runs + [run])
    case Store(r, redisErr) =>
      var p := s.requests[r].phase;
      var next := Set(s, r, Stored(p.lockedAt, p.response));
      if Success(p.response) && !redisErr then
        next.(cache := Some(Timed(Entry(p.response, s.requests[r].bodyHash), s.clock + IDEMPOTENCY_TTL)),
              stores := s.stores + 1)
      else next
    case DropLock(r, redisErr) =>
      // DEL does not ask whose lock it is.
      var next := Set(s, r, Answered(Fresh(s.requests[r].phase.response)));
      if redisErr then next else next.(lock := None)
    case Die(r) => Set(s, r, Gone)
  }

  ghost predicate IsRun(states: seq<State>, steps: seq<Step>) {
    && |states| == |steps| + 1
    && states[0] == EMPTY
    && forall i :: 0 <= i < |steps| ==> Enabled(states[i], steps[i]) && states[i + 1] == Do(states[i], steps[i])
  }

  // ---------------------------------------------------------------- replays

  ghost predicate FromSuccess(runs: seq<HandlerRun>, bodyHash: string, response: Response) {
    Success(response) && HandlerRun(bodyHash, response) in runs
  }

  ghost predicate Replayable(s: State) {
    && (s.cache.Some? ==> s.cache.value.value.bodyHash != "")
    && (s.cache.Some? ==> FromSuccess(s.runs, s.cache.value.value.bodyHash, s.cache.value.value.response))
    && (forall r <- s.requests :: RequestOk(s, s.requests[r]))
  }

  ghost predicate RequestOk(s: State, q: Request) {
    && q.bodyHash != ""
    && (q.phase.Ran? || q.phase.Stored? ==> HandlerRun(q.bodyHash, q.phase.response) in s.runs)
    && (q.phase.Answered? && q.phase.reply.Replayed? ==> FromSuccess(s.runs, q.bodyHash, q.phase.reply.response))
    && (q.phase.Answered? && q.phase.reply.Fresh? ==> HandlerRun(q.bodyHash, q.phase.reply.response) in s.runs)
  }

  lemma StepKeepsRequest(s: State, step: Step, r: RequestId)
    requires Replayable(s) && Enabled(s, step) && r in Do(s, step).requests
    ensures RequestOk(Do(s, step), Do(s, step).requests[r])
  {
    if r in s.requests {
      assert RequestOk(s, s.requests[r]);
    }
  }

  lemma StepKeepsEntry(s: State, step: Step)
    requires Replayable(s) && Enabled(s, step) && Do(s, step).cache.Some?
    ensures var e := Do(s, step).cache.value.value;
      e.bodyHash != "" && FromSuccess(Do(s, step).runs, e.bodyHash, e.response)
  {
    if step.Store? {
      assert RequestOk(s, s.requests[step.r]);
    }
  }

  lemma StepKeepsReplayable(s: State, step: Step)
    requires Replayable(s) && Enabled(s, step)
    ensures Replayable(Do(s, step))
  {
    var s' := Do(s, step);
    if s'.cache.Some? {
      StepKeepsEntry(s, step);
    }
    forall r <- s'.requests ensures RequestOk(s', s'.requests[r]) {
      StepKeepsRequest(s, step, r);
    }
  }

  /**
   * In every interleaving, with Redis errors and crashes anywhere: what is cached and what is replayed
   * is the response of an earlier 2xx handler run with the same body; a non-2xx run stores nothing.
   */
  lemma {:induction false} ReplaysAreEarlierSuccesses(states: seq<State>, steps: seq<Step>, i: nat)
    requires IsRun(states, steps) && i < |states|
    ensures Replayable(states[i])
  {
    if i > 0 {
      ReplaysAreEarlierSuccesses(states, steps, i - 1);
      StepKeepsReplayable(states[i - 1], steps[i - 1]);
    }
  }

  /**
   * In numbers: in every run the cached response and every replayed one has a status from 200 to 299 and was
   * returned by a handler run for the same body.
   */
  lemma OnlySuccessesReplayed(states: seq<State>, steps: seq<Step>, i: nat)
    requires IsRun(states, steps) && i < |states|
    ensures states[i].cache.Some? ==>
      var e := states[i].cache.value.value;
      200 <= e.response.status < 300 && HandlerRun(e.bodyHash, e.response) in states[i].runs
    ensures forall r <- states[i].requests ::
      var q := states[i].requests[r];
      q.phase.Answered? && q.phase.reply.Replayed? ==>
        200 <= q.phase.reply.response.status < 300 && HandlerRun(q.bodyHash, q.phase.reply.response) in states[i].runs
    ensures forall r <- states[i].requests ::
      var q := states[i].requests[r];
      q.phase.Answered? && q.phase.reply.Fresh? ==> HandlerRun(q.bodyHash, q.phase.reply.response) in states[i].runs
  {
    ReplaysAreEarlierSuccesses(states, steps, i);
    forall r <- states[i].requests ensures RequestOk(states[i], states[i].requests[r]) {
    }
  }

  /**
   * The cache is written by a store that Redis accepts of a response with a status from 200 to 299, for one
   * day, and by no other step.
   */
  lemma StoredExactly(s: State, step: Step)
    requires Enabled(s, step)
    ensures var s' := Do(s, step);
      if step.Store? && !step.redisErr && 200 <= s.requests[step.r].phase.response.status < 300 then
        && s'.cache == Some(Timed(Entry(s.requests[step.r].phase.response, s.requests[step.r].bodyHash),
                                  s.clock + 86_400_000))
        && s'.stores == s.stores + 1
      else s'.cache == s.cache && s'.stores == s.stores
  {
  }

  /**
   * What a lookup and a lock attempt mean: a live entry is replayed to the same body and refused to another,
   * and the lock is taken for thirty seconds exactly when Redis answers and no live lock is there.
   */
  lemma LookupAndLockExactly(s: State, r: RequestId, redisErr: bool)
    requires At(s, r)
    ensures s.requests[r].phase.Arrived? ==>
      var phase := Do(s, LookUp(r, redisErr)).requests[r].phase;
      if !redisErr && s.cache.Some? && s.clock < s.cache.value.until then
        var e := s.cache.value.value;
        phase == Answered(if e.bodyHash == "" || e.bodyHash == s.requests[r].bodyHash then Replayed(e.response)
          else Mismatch)
      else phase == Missed(s.stores, redisErr)
    ensures s.requests[r].phase.Missed? ==>
      var s' := Do(s, AcquireLock(r, redisErr));
      if !redisErr && (s.lock.None? || s.clock >= s.lock.value.until) then
        s'.requests[r].phase == Running(s.clock) && s'.lock == Some(Timed((), s.clock + 30_000))
      else s'.requests[r].phase == Answered(if redisErr then Unavailable else Conflict) && s'.lock == s.lock
  {
  }

  // ---------------------------------------------------------------- mutual exclusion

  /** Between SETNX and DEL. */
  predicate Inside(q: Request) {
    q.phase.Running? || q.phase.Ran? || q.phase.Stored?
  }

  /** No request is still inside when its lock expires. */
  ghost predicate Punctual(s: State) {
    forall r <- s.requests :: Inside(s.requests[r]) ==> s.clock < s.requests[r].phase.lockedAt + IN_FLIGHT_TTL
  }

  ghost predicate LockedBy(s: State, r: RequestId)
    requires At(s, r) && Inside(s.requests[r])
  {
    s.lock == Some(Timed((), s.requests[r].phase.lockedAt + IN_FLIGHT_TTL))
  }

  ghost predicate AtMostOneInside(s: State) {
    && (forall r <- s.requests, q <- s.requests :: Inside(s.requests[r]) && Inside(s.requests[q]) ==> r == q)
    && (forall r <- s.requests :: Inside(s.requests[r]) ==> LockedBy(s, r))
  }

  /** Two requests are between SETNX and DEL at once. */
  ghost predicate Overlap(s: State) {
    exists r, q :: r != q && At(s, r) && At(s, q) && Inside(s.requests[r]) && Inside(s.requests[q])
  }

  /** A request takes the lock while another, whose own lock has expired, is still inside. */
  ghost predicate TakesOver(s: State, step: Step) {
    && step.AcquireLock? && !step.redisErr
    && exists q :: At(s, q) && Inside(s.requests[q]) && s.clock >= s.requests[q].phase.lockedAt + IN_FLIGHT_TTL
  }

  /** As long as at most one request is inside, taking over from a late one is the one way to an overlap. */
  lemma StepOverlapsExactly(s: State, step: Step)
    requires AtMostOneInside(s) && Enabled(s, step)
    ensures Overlap(Do(s, step)) <==> TakesOver(s, step)
    ensures !TakesOver(s, step) ==> AtMostOneInside(Do(s, step))
  {
    var s' := Do(s, step);
    if TakesOver(s, step) {
      var q :| At(s, q) && Inside(s.requests[q]) && s.clock >= s.requests[q].phase.lockedAt + IN_FLIGHT_TTL;
      assert LockedBy(s, q);
      assert At(s', step.r) && At(s', q) && Inside(s'.requests[step.r]) && Inside(s'.requests[q]);
    } else {
      UntakenStepKeepsLock(s, step);
    }
  }

  lemma UntakenStepKeepsLock(s: State, step: Step)
    requires AtMostOneInside(s) && Enabled(s, step) && !TakesOver(s, step)
    ensures AtMostOneInside(Do(s, step))
  {
    var s' := Do(s, step);
    if step.AcquireLock? && Inside(s'.requests[step.r]) {
      forall q <- s.requests ensures !Inside(s.requests[q]) {
        assert Inside(s.requests[q]) ==> LockedBy(s, q);
      }
    }
    forall r <- s'.requests | Inside(s'.requests[r]) ensures LockedBy(s', r) {
      assert r in s.requests && Inside(s.requests[r]) ==> LockedBy(s, r);
    }
  }

  /** While no request outstays the lock's lifetime, handler runs of the key never overlap. */
  lemma {:induction false} HandlersNeverOverlap(states: seq<State>, steps: seq<Step>, i: nat)
    requires IsRun(states, steps) && i < |states|
    requires forall k :: 0 <= k < i ==> Punctual(states[k])
    ensures AtMostOneInside(states[i])
  {
    if i > 0 {
      HandlersNeverOverlap(states, steps, i - 1);
      StepOverlapsExactly(states[i - 1], steps[i - 1]);
    }
  }

  lemma {:induction false} NoOverlapBefore(states: seq<State>, steps: seq<Step>, i: nat)
    requires IsRun(states, steps) && i < |states| && forall k :: 0 <= k < i ==> !TakesOver(states[k], steps[k])
    ensures AtMostOneInside(states[i])
  {
    if i > 0 {
      NoOverlapBefore(states, steps, i - 1);
      StepOverlapsExactly(states[i - 1], steps[i - 1]);
    }
  }

  /** The first take-over of a run up to step i. */
  lemma {:induction false} FirstTakeOver(states: seq<State>, steps: seq<Step>, i: nat) returns (k: nat)
    requires IsRun(states, steps) && i < |steps| && TakesOver(states[i], steps[i])
    ensures k <= i && TakesOver(states[k], steps[k]) && forall j :: 0 <= j < k ==> !TakesOver(states[j], steps[j])
  {
    if j :| 0 <= j < i && TakesOver(states[j], steps[j]) {
      k := FirstTakeOver(states, steps, j);
    } else {
      k := i;
    }
  }

  /**
   * In every run, two requests of the key come to be inside at once if and only if some request takes the
   * lock over from one that has outstayed its own.
   */
  lemma OverlapsExactly(states: seq<State>, steps: seq<Step>)
    requires IsRun(states, steps)
    ensures (exists i :: 0 <= i < |states| && Overlap(states[i])) <==>
      (exists i :: 0 <= i < |steps| && TakesOver(states[i], steps[i]))
  {
    if i :| 0 <= i < |steps| && TakesOver(states[i], steps[i]) {
      var k := FirstTakeOver(states, steps, i);
      NoOverlapBefore(states, steps, k);
      StepOverlapsExactly(states[k], steps[k]);
      assert Overlap(states[k + 1]);
    }
    if i :| 0 <= i < |states| && Overlap(states[i]) {
      if forall k :: 0 <= k < i ==> !TakesOver(states[k], steps[k]) {
        NoOverlapBefore(states, steps, i);
      }
    }
  }

  // ---------------------------------------------------------------- which runs the cache prevents

  /** Every request that is past its lookup without a Redis error missed an entry that was not there yet. */
  ghost predicate MissesExplained(s: State) {
    && (s.cache.Some? <==> s.stores > 0)
    && forall r <- s.requests :: s.requests[r].phase.Missed? ==>
         var p := s.requests[r].phase;
         && p.seen <= s.stores
         && (!p.erred && Live(s.cache, s.clock).Some? ==> p.seen < s.stores)
  }

  lemma StepKeepsMissesExplained(s: State, step: Step)
    requires MissesExplained(s) && Enabled(s, step)
    ensures MissesExplained(Do(s, step))
  {
  }

  lemma {:induction false} RunKeepsMissesExplained(states: seq<State>, steps: seq<Step>, i: nat)
    requires IsRun(states, steps) && i < |states|
    ensures MissesExplained(states[i])
  {
    if i > 0 {
      RunKeepsMissesExplained(states, steps, i - 1);
      StepKeepsMissesExplained(states[i - 1], steps[i - 1]);
    }
  }

  predicate StartsHandler(s: State, step: Step)
    requires Enabled(s, step)
  {
    step.AcquireLock? && Do(s, step).requests[step.r].phase.Running?
  }

  /**
   * A handler starts although a live entry is cached only for a request whose lookup came before that
   * entry was stored, or whose lookup Redis failed.
   */
  lemma LateRunsLookedUpEarly(states: seq<State>, steps: seq<Step>, i: nat)
    requires IsRun(states, steps) && i < |steps|
    requires StartsHandler(states[i], steps[i]) && Live(states[i].cache, states[i].clock).Some?
    ensures states[i].requests[steps[i].r].phase.erred || states[i].requests[steps[i].r].phase.seen < states[i].stores
  {
    RunKeepsMissesExplained(states, steps, i);
  }

  /** A request that looks a live entry up without a Redis error is answered at once, and stays answered. */
  lemma {:induction false} LookupAfterStoreNeverRuns(states: seq<State>, steps: seq<Step>, i: nat, j: nat)
    requires IsRun(states, steps) && i < |steps| && i < j < |states|
    requires steps[i].LookUp? && !steps[i].redisErr && Live(states[i].cache, states[i].clock).Some?
    ensures steps[i].r in states[j].requests && states[j].requests[steps[i].r] == states[i + 1].requests[steps[i].r]
    ensures var entry := states[i].cache.value.value;
      states[j].requests[steps[i].r].phase
        == Answered(if entry.bodyHash == "" || entry.bodyHash == states[i].requests[steps[i].r].bodyHash
                    then Replayed(entry.response) else Mismatch)
  {
    if j > i + 1 {
      LookupAfterStoreNeverRuns(states, steps, i, j - 1);
    }
  }

  /** A live entry, and no request that could still start or finish a handler run without a new lookup. */
  ghost predicate Settled(s: State) {
    && Live(s.cache, s.clock).Some?
    && NoneToRun(s)
  }

  /** No request is on its way to a handler run, or in one. */
  ghost predicate NoneToRun(s: State) {
    forall r <- s.requests :: !s.requests[r].phase.Missed? && !s.requests[r].phase.Running?
  }

  /** No request still has a response to store. */
  ghost predicate NoneToStore(s: State) {
    forall r <- s.requests :: !s.requests[r].phase.Ran?
  }

  lemma {:induction false} ExpiryFixed(states: seq<State>, steps: seq<Step>, i: nat, j: nat)
    requires IsRun(states, steps) && i <= j < |states|
    ensures states[i].clock <= states[j].clock
  {
    if i < j {
      ExpiryFixed(states, steps, i, j - 1);
    }
  }

  /** An entry never lives longer than the lifetime from now on. */
  lemma {:induction false} ExpiryWithinLifetime(states: seq<State>, steps: seq<Step>, i: nat)
    requires IsRun(states, steps) && i < |states|
    ensures states[i].cache.Some? ==> states[i].cache.value.until <= states[i].clock + IDEMPOTENCY_TTL
  {
    if i > 0 {
      ExpiryWithinLifetime(states, steps, i - 1);
    }
  }

  /** While a live entry answers the lookups, a step from a settled state runs no handler and shortens no lifetime. */
  lemma StepKeepsSettled(s: State, step: Step, until: Instant)
    requires Enabled(s, step) && Settled(s) && until <= s.cache.value.until && until <= s.clock + IDEMPOTENCY_TTL
    requires Do(s, step).clock < until && (step.LookUp? ==> !step.redisErr)
    ensures var s' := Do(s, step);
      && Settled(s') && until <= s'.cache.value.until && until <= s'.clock + IDEMPOTENCY_TTL && s'.runs == s.runs
      && (NoneToStore(s) ==> NoneToStore(s') && s'.cache == s.cache)
  {
  }

  /**
   * From a settled state on, until the entry expires and as long as Redis answers lookups, no handler runs;
   * the entry itself stays what it is unless a response is still to be stored.
   */
  lemma {:induction false} SettledUntilExpiry(states: seq<State>, steps: seq<Step>, i: nat, j: nat)
    requires IsRun(states, steps) && i <= j < |states|
    requires Settled(states[i]) && states[j].clock < states[i].cache.value.until
    requires forall k :: i <= k < j && steps[k].LookUp? ==> !steps[k].redisErr
    ensures Settled(states[j]) && states[j].runs == states[i].runs
    ensures states[i].cache.value.until <= states[j].cache.value.until
    ensures NoneToStore(states[i]) ==> NoneToStore(states[j]) && states[j].cache == states[i].cache
  {
    if i < j {
      hide Do;
      hide Settled;
      hide NoneToRun;
      hide NoneToStore;
      ExpiryFixed(states, steps, i, j - 1);
      ExpiryFixed(states, steps, j - 1, j);
      ExpiryWithinLifetime(states, steps, i);
      SettledUntilExpiry(states, steps, i, j - 1);
      StepKeepsSettled(states[j - 1], steps[j - 1], states[i].cache.value.until);
    }
  }

  /**
   * When a response has just been stored, the key is settled exactly if no request is waiting between its
   * lookup and the lock or running its handler. If no request ever outstayed its lock, only a waiting one
   * is possible.
   */
  lemma StoreSettlesExactly(states: seq<State>, steps: seq<Step>, i: nat)
    requires IsRun(states, steps) && i < |steps|
    requires steps[i].Store? && !steps[i].redisErr && Success(states[i].requests[steps[i].r].phase.response)
    ensures Settled(states[i + 1]) <==> NoneToRun(states[i])
    ensures (forall k :: 0 <= k <= i ==> Punctual(states[k])) ==>
      (Settled(states[i + 1]) <==> forall r <- states[i].requests :: !states[i].requests[r].phase.Missed?)
  {
    var s, s' := states[i], states[i + 1];
    assert forall r <- s.requests :: r != steps[i].r ==> s'.requests[r] == s.requests[r];
    if forall k :: 0 <= k <= i ==> Punctual(states[k]) {
      HandlersNeverOverlap(states, steps, i);
      assert forall r <- s.requests :: r != steps[i].r ==> !Inside(s.requests[r]);
    }
  }

  /** A waiting request does make a second run: as soon as the first drops the lock, its handler starts. */
  lemma WaitingRequestRunsAgain(s: State, first: RequestId, waiting: RequestId)
    requires At(s, first) && s.requests[first].phase.Stored?
    requires At(s, waiting) && s.requests[waiting].phase.Missed?
    ensures Enabled(s, DropLock(first, false))
    ensures Enabled(Do(s, DropLock(first, false)), AcquireLock(waiting, false))
    ensures Do(Do(s, DropLock(first, false)), AcquireLock(waiting, false)).requests[waiting].phase == Running(s.clock)
  {
  }

  /**
   * Another run with the same first n steps, in which Redis answers every later lookup and which ends before
   * the entry cached after them expires.
   */
  ghost predicate Continues(states: seq<State>, steps: seq<Step>, n: nat, states': seq<State>, steps': seq<Step>) {
    && n <= |steps| <= |states| - 1 && n <= |steps'| && IsRun(states', steps')
    && states'[..n + 1] == states[..n + 1] && steps'[..n] == steps[..n]
    && (forall k :: n <= k < |steps'| && steps'[k].LookUp? ==> !steps'[k].redisErr)
    && states[n].cache.Some? && states'[|steps'|].clock < states[n].cache.value.until
  }

  /** However a run goes on after its first n steps, no handler runs any more while the entry lives. */
  ghost predicate NeverRunsAgain(states: seq<State>, steps: seq<Step>, n: nat)
    requires n < |states|
  {
    forall states': seq<State>, steps': seq<Step> ::
      Continues(states, steps, n, states', steps') ==> states'[|steps'|].runs == states[n].runs
  }

  /**
   * At most once, exactly: after a response has been stored, no continuation runs a handler before the entry
   * expires if and only if no request was waiting between its lookup and the lock or running its handler at
   * the time of the store. While no request ever outstayed its lock, only a waiting one is possible.
   */
  lemma StoreIsFinalExactly(states: seq<State>, steps: seq<Step>, i: nat)
    requires IsRun(states, steps) && i < |steps|
    requires steps[i].Store? && !steps[i].redisErr && Success(states[i].requests[steps[i].r].phase.response)
    ensures NeverRunsAgain(states, steps, i + 1) <==> NoneToRun(states[i])
    ensures (forall k :: 0 <= k <= i ==> Punctual(states[k])) ==>
      (NeverRunsAgain(states, steps, i + 1) <==> forall r <- states[i].requests :: !states[i].requests[r].phase.Missed?)
  {
    StoreSettlesExactly(states, steps, i);
    if Settled(states[i + 1]) {
      SettledIsFinal(states, steps, i);
    } else {
      var r :| r in states[i].requests && (states[i].requests[r].phase.Missed? || states[i].requests[r].phase.Running?);
      ghost var states', steps' := states, steps;
      if states[i].requests[r].phase.Missed? {
        states', steps' := SecondRun(states, steps, i, r);
      } else {
        states', steps' := OtherRun(states, steps, i, r);
      }
      assert states'[|steps'|].runs != states[i + 1].runs;
    }
  }

  lemma SettledIsFinal(states: seq<State>, steps: seq<Step>, i: nat)
    requires IsRun(states, steps) && i < |steps| && Settled(states[i + 1])
    ensures NeverRunsAgain(states, steps, i + 1)
  {
    forall states': seq<State>, steps': seq<Step> | Continues(states, steps, i + 1, states', steps')
      ensures states'[|steps'|].runs == states[i + 1].runs
    {
      assert states'[..i + 2][i + 1] == states[..i + 2][i + 1];
      SettledUntilExpiry(states', steps', i + 1, |steps'|);
    }
  }

  /** The continuation in which a handler that was running during the store returns. */
  lemma OtherRun(states: seq<State>, steps: seq<Step>, i: nat, running: RequestId)
    returns (states': seq<State>, steps': seq<Step>)
    requires IsRun(states, steps) && i < |steps| && running in states[i].requests
      && states[i].requests[running].phase.Running?
    requires steps[i].Store? && !steps[i].redisErr && Success(states[i].requests[steps[i].r].phase.response)
    ensures Continues(states, steps, i + 1, states', steps')
    ensures |states'[|steps'|].runs| == |states[i + 1].runs| + 1
  {
    states', steps' := states[..i + 2], steps[..i + 1];
    assert IsRun(states', steps');
    states', steps' := Then(states', steps', HandlerReturns(running, OK),
                            Do(states[i + 1], HandlerReturns(running, OK)));
    assert states'[..i + 2] == states[..i + 2] && steps'[..i + 1] == steps[..i + 1];
  }

  /** The continuation in which a waiting request makes the second run. */
  lemma SecondRun(states: seq<State>, steps: seq<Step>, i: nat, waiting: RequestId)
    returns (states': seq<State>, steps': seq<Step>)
    requires IsRun(states, steps) && i < |steps| && waiting in states[i].requests
      && states[i].requests[waiting].phase.Missed?
    requires steps[i].Store? && !steps[i].redisErr && Success(states[i].requests[steps[i].r].phase.response)
    ensures Continues(states, steps, i + 1, states', steps')
    ensures |states'[|steps'|].runs| == |states[i + 1].runs| + 1
  {
    var s1 := states[i + 1];
    var s2 := Do(s1, DropLock(steps[i].r, false));
    var s3 := Do(s2, AcquireLock(waiting, false));
    var s4 := Do(s3, HandlerReturns(waiting, OK));
    states', steps' := states[..i + 2], steps[..i + 1];
    assert IsRun(states', steps');
    states', steps' := Then(states', steps', DropLock(steps[i].r, false), s2);
    states', steps' := Then(states', steps', AcquireLock(waiting, false), s3);
    states', steps' := Then(states', steps', HandlerReturns(waiting, OK), s4);
    assert states'[..i + 2] == states[..i + 2] && steps'[..i + 1] == steps[..i + 1];
  }

  // ---------------------------------------------------------------- runs that reach the limits

  const OK: Response := Response(201, map[], "order")

  lemma Then(states: seq<State>, steps: seq<Step>, step: Step, s: State)
    returns (states': seq<State>, steps': seq<Step>)
    requires IsRun(states, steps)
    requires Enabled(states[|steps|], step) && Do(states[|steps|], step) == s
    ensures IsRun(states', steps') && states' == states + [s] && steps' == steps + [step]
  {
    states', steps' := states + [s], steps + [step];
  }

  function Pair(one: Phase, two: Phase): map<RequestId, Request> {
    map[1 := Request("h", one), 2 := Request("h", two)]
  }

  /** Both requests look the key up before either takes the lock. */
  lemma BothMiss() returns (states: seq<State>, steps: seq<Step>)
    ensures IsRun(states, steps) && |states| == 5
      && states[4] == EMPTY.(requests := Pair(Missed(0, false), Missed(0, false)))
    ensures forall k :: 0 <= k < 5 ==> Punctual(states[k])
  {
    states, steps := [EMPTY], [];
    states, steps := Then(states, steps, Arrive(1, "h"), EMPTY.(requests := map[1 := Request("h", Arrived)]));
    states, steps := Then(states, steps, Arrive(2, "h"), EMPTY.(requests := Pair(Arrived, Arrived)));
    states, steps := Then(states, steps, LookUp(1, false), EMPTY.(requests := Pair(Missed(0, false), Arrived)));
    states, steps := Then(states, steps, LookUp(2, false),
                          EMPTY.(requests := Pair(Missed(0, false), Missed(0, false))));
  }

  lemma FirstRuns() returns (states: seq<State>, steps: seq<Step>)
    ensures IsRun(states, steps) && |states| == 8
    ensures states[7] == State(0, Some(Timed(Entry(OK, "h"), IDEMPOTENCY_TTL)), Some(Timed((), IN_FLIGHT_TTL)),
                               Pair(Stored(0, OK), Missed(0, false)), [HandlerRun("h", OK)], 1)
    ensures forall k :: 0 <= k < 8 ==> Punctual(states[k])
  {
    var waiting := Missed(0, false);
    var locked := Some(Timed((), IN_FLIGHT_TTL));
    states, steps := BothMiss();
    states, steps := Then(states, steps, AcquireLock(1, false),
                          State(0, None, locked, Pair(Running(0), waiting), [], 0));
    states, steps := Then(states, steps, HandlerReturns(1, OK),
                          State(0, None, locked, Pair(Ran(0, OK), waiting), [HandlerRun("h", OK)], 0));
    states, steps := Then(states, steps, Store(1, false),
                          State(0, Some(Timed(Entry(OK, "h"), IDEMPOTENCY_TTL)), locked, Pair(Stored(0, OK), waiting),
                                [HandlerRun("h", OK)], 1));
  }

  /** Two requests with one key and one body both run the handler, although the first response was stored. */
  lemma DuplicateRun() returns (states: seq<State>, steps: seq<Step>)
    ensures IsRun(states, steps) && |states| == 11
    ensures forall k :: 0 <= k < 11 ==> Punctual(states[k])
    ensures states[10].runs == [HandlerRun("h", OK), HandlerRun("h", OK)]
  {
    var run := HandlerRun("h", OK);
    states, steps := FirstRuns();
    var s7 := states[7];
    states, steps := Then(states, steps, DropLock(1, false),
                          s7.(lock := None, requests := Pair(Answered(Fresh(OK)), Missed(0, false))));
    states, steps := Then(states, steps, AcquireLock(2, false), s7.(requests := Pair(Answered(Fresh(OK)), Running(0))));
    states, steps := Then(states, steps, HandlerReturns(2, OK),
                          s7.(requests := Pair(Answered(Fresh(OK)), Ran(0, OK)), runs := [run, run]));
  }

  function Three(one: Phase, two: Phase, three: Phase): map<RequestId, Request> {
    map[1 := Request("h", one), 2 := Request("h", two), 3 := Request("h", three)]
  }

  /** Three requests look the key up before any of them takes the lock. */
  lemma ThreeMiss() returns (states: seq<State>, steps: seq<Step>)
    ensures IsRun(states, steps) && |steps| == 6
    ensures states[6] == EMPTY.(requests := Three(Missed(0, false), Missed(0, false), Missed(0, false)))
  {
    var waiting := Missed(0, false);
    states, steps := BothMiss();
    states, steps := Then(states, steps, Arrive(3, "h"), EMPTY.(requests := Three(waiting, waiting, Arrived)));
    states, steps := Then(states, steps, LookUp(3, false), EMPTY.(requests := Three(waiting, waiting, waiting)));
  }

  /**
   * The handler of request 1 outlasts its lock. Request 2 takes the lock, request 1 deletes it, request 3
   * takes it again: two requests run the handler at once, both well within the lifetime of their locks.
   */
  lemma OverlapRun() returns (states: seq<State>, steps: seq<Step>)
    ensures IsRun(states, steps) && |steps| == 13
    ensures var s := states[13];
      && s.clock == 30_000 && At(s, 2) && At(s, 3)
      && s.requests[2].phase == Running(30_000) == s.requests[3].phase
  {
    var waiting, refused := Missed(0, false), Response(500, map[], "down");
    var run := [HandlerRun("h", refused)];
    var first, second := Some(Timed((), IN_FLIGHT_TTL)), Some(Timed((), 2 * IN_FLIGHT_TTL));
    var running, gone := Running(IN_FLIGHT_TTL), Answered(Fresh(refused));
    states, steps := ThreeMiss();
    states, steps := Then(states, steps, AcquireLock(1, false),
                          State(0, None, first, Three(Running(0), waiting, waiting), [], 0));
    states, steps := Then(states, steps, Tick(IN_FLIGHT_TTL),
                          State(IN_FLIGHT_TTL, None, first, Three(Running(0), waiting, waiting), [], 0));
    states, steps := Then(states, steps, HandlerReturns(1, refused),
                          State(IN_FLIGHT_TTL, None, first, Three(Ran(0, refused), waiting, waiting), run, 0));
    states, steps := Then(states, steps, Store(1, false),
                          State(IN_FLIGHT_TTL, None, first, Three(Stored(0, refused), waiting, waiting), run, 0));
    states, steps := Then(states, steps, AcquireLock(2, false),
                          State(IN_FLIGHT_TTL, None, second, Three(Stored(0, refused), running, waiting), run, 0));
    states, steps := Then(states, steps, DropLock(1, false),
                          State(IN_FLIGHT_TTL, None, None, Three(gone, running, waiting), run, 0));
    states, steps := Then(states, steps, AcquireLock(3, false),
                          State(IN_FLIGHT_TTL, None, second, Three(gone, running, running), run, 0));
  }

  /**
   * The DEL of a request that outstayed its lock removes the next holder's lock: afterwards two other
   * requests run the handler at the same time, each well within the lifetime of its own lock.
   */
  lemma LateDropAdmitsOverlap(s: State, late: RequestId, a: RequestId, b: RequestId)
    requires a != b && At(s, late) && At(s, a) && At(s, b)
    requires s.requests[late].phase.Stored? && Live(s.lock, s.clock).None?
    requires s.requests[a].phase.Missed? && s.requests[b].phase.Missed?
    ensures Enabled(s, AcquireLock(a, false))
    ensures var s2 := Do(s, AcquireLock(a, false));
      Enabled(s2, DropLock(late, false)) &&
      var s3 := Do(s2, DropLock(late, false));
      Enabled(s3, AcquireLock(b, false)) &&
      var s4 := Do(s3, AcquireLock(b, false));
      && s4.requests[a].phase == Running(s.clock) == s4.requests[b].phase
      && s4.clock < s.clock + IN_FLIGHT_TTL
  {
    var s2 := Do(s, AcquireLock(a, false));
    var s3 := Do(s2, DropLock(late, false));
    assert Live(s3.lock, s3.clock).None?;
  }

  // ---------------------------------------------------------------- one request on its own

  /** What Redis answers to the commands of one request, and what its handler does. */
  datatype Luck = Luck(getErr: bool, setNxErr: bool, setErr: bool, delErr: bool, response: Response, elapsed: nat)

  /** A request served from start to end while no other request of the key moves. */
  function ServeAlone(s: State, r: RequestId, bodyHash: string, luck: Luck): State
    requires r !in s.requests && bodyHash != ""
  {
    var s1 := Do(Do(s, Arrive(r, bodyHash)), LookUp(r, luck.getErr));
    if s1.requests[r].phase.Answered? then s1
    else
      var s2 := Do(s1, AcquireLock(r, luck.setNxErr));
      if s2.requests[r].phase.Answered? then s2
      else
        var s3 := Do(Do(s2, Tick(luck.elapsed)), HandlerReturns(r, luck.response));
        Do(Do(s3, Store(r, luck.setErr)), DropLock(r, luck.delErr))
  }

  function Finish(s: State, r: RequestId, bodyHash: string, reply: Reply): State {
    s.(requests := s.requests[r := Request(bodyHash, Answered(reply))])
  }

  lemma ServedFromCache(s: State, r: RequestId, bodyHash: string, luck: Luck)
    requires r !in s.requests && bodyHash != "" && !luck.getErr && Live(s.cache, s.clock).Some?
    ensures ServeAlone(s, r, bodyHash, luck)
         == Finish(s, r, bodyHash, if Classify(s.cache.value.value, bodyHash).DifferentBody? then Mismatch
                                   else Replayed(s.cache.value.value.response))
  {
  }

  lemma ServedNoLock(s: State, r: RequestId, bodyHash: string, luck: Luck)
    requires r !in s.requests && bodyHash != "" && (luck.getErr || Live(s.cache, s.clock).None?)
    requires luck.setNxErr || Live(s.lock, s.clock).Some?
    ensures ServeAlone(s, r, bodyHash, luck) == Finish(s, r, bodyHash, if luck.setNxErr then Unavailable else Conflict)
  {
  }

  lemma ServedByHandler(s: State, r: RequestId, bodyHash: string, luck: Luck)
    requires r !in s.requests && bodyHash != "" && (luck.getErr || Live(s.cache, s.clock).None?)
    requires !luck.setNxErr && Live(s.lock, s.clock).None?
    ensures ServeAlone(s, r, bodyHash, luck) == Handled(s, r, bodyHash, luck)
  {
    var s1 := Do(Do(s, Arrive(r, bodyHash)), LookUp(r, luck.getErr));
    assert s1 == s.(requests := s.requests[r := Request(bodyHash, Missed(s.stores, luck.getErr))]);
    HandlerPath(s1, r, luck);
    assert s1.requests[r := Request(bodyHash, Answered(Fresh(luck.response)))]
        == s.requests[r := Request(bodyHash, Answered(Fresh(luck.response)))];
  }

  lemma HandlerPath(s: State, r: RequestId, luck: Luck)
    requires At(s, r) && s.requests[r].phase.Missed? && Live(s.lock, s.clock).None? && !luck.setNxErr
    ensures var s2 := Do(s, AcquireLock(r, luck.setNxErr));
      && s2.requests[r].phase.Running?
      && Do(Do(Do(Do(s2, Tick(luck.elapsed)), HandlerReturns(r, luck.response)), Store(r, luck.setErr)),
        DropLock(r, luck.delErr))
         == Handled(s, r, s.requests[r].bodyHash, luck)
  {
    var q := s.requests[r];
    var s3 := Do(Do(s, AcquireLock(r, luck.setNxErr)), Tick(luck.elapsed));
    assert s3 == s.(requests := s.requests[r := q.(phase := Running(s.clock))], clock := s.clock + luck.elapsed,
                    lock := Some(Timed((), s.clock + IN_FLIGHT_TTL)));
    var s4 := Do(s3, HandlerReturns(r, luck.response));
    assert s4 == s3.(requests := s.requests[r := q.(phase := Ran(s.clock, luck.response))],
                     runs := s.runs + [HandlerRun(q.bodyHash, luck.response)]);
    var s5 := Do(s4, Store(r, luck.setErr));
    assert s5.requests == s.requests[r := q.(phase := Stored(s.clock, luck.response))];
    assert s5.requests[r := q.(phase := Answered(Fresh(luck.response)))]
      == s.requests[r := q.(phase := Answered(Fresh(luck.response)))];
  }

  function Handled(s: State, r: RequestId, bodyHash: string, luck: Luck): State {
    var now := s.clock + luck.elapsed;
    var kept := Success(luck.response) && !luck.setErr;
    State(now,
          if kept then Some(Timed(Entry(luck.response, bodyHash), now + IDEMPOTENCY_TTL)) else s.cache,
          if luck.delErr then Some(Timed((), s.clock + IN_FLIGHT_TTL)) else None,
          s.requests[r := Request(bodyHash, Answered(Fresh(luck.response)))],
          s.runs + [HandlerRun(bodyHash, luck.response)],
          if kept then s.stores + 1 else s.stores)
  }

  class Middleware {
    var clock: Instant
    var cache: Option<Timed<Entry>>
    var lock: Option<Timed<()>>
    ghost var requests: map<RequestId, Request>
    ghost var runs: seq<HandlerRun>
    ghost var stores: nat

    constructor ()
      ensures View() == EMPTY
    {
      clock, cache, lock := 0, None, None;
      requests, runs, stores := map[], [], 0;
    }

    ghost function View(): State
      reads this
    {
      State(clock, cache, lock, requests, runs, stores)
    }

    method LookupCachedEntry(bodyHash: string, redisErr: bool) returns (l: Lookup)
      ensures l == if redisErr || Live(cache, clock).None? then Miss else Classify(Live(cache, clock).value, bodyHash)
    {
      if redisErr || cache.None? || clock >= cache.value.until {
        return Miss;
      }
      var entry := cache.value.value;
      if entry.bodyHash != "" && entry.bodyHash != bodyHash {
        return DifferentBody;
      }
      return SameBody(entry.response);
    }

    /** The locked part: run the handler, keep a 2xx response, drop the lock. */
    method RunHandler(ghost r: RequestId, bodyHash: string, luck: Luck)
      modifies this
      ensures View() == Handled(old(View()), r, bodyHash, luck)
    {
      lock := Some(Timed((), clock + IN_FLIGHT_TTL));
      clock := clock + luck.elapsed;
      runs := runs + [HandlerRun(bodyHash, luck.response)];
      if 200 <= luck.response.status < 300 && !luck.setErr {
        cache := Some(Timed(Entry(luck.response, bodyHash), clock + IDEMPOTENCY_TTL));
        stores := stores + 1;
      }
      if !luck.delErr {
        lock := None;
      }
      requests := requests[r := Request(bodyHash, Answered(Fresh(luck.response)))];
    }

    method Serve(ghost r: RequestId, bodyHash: string, luck: Luck) returns (reply: Reply)
      requires r !in requests && bodyHash != ""
      modifies this
      ensures View() == ServeAlone(old(View()), r, bodyHash, luck)
      ensures r in requests && requests[r].phase == Answered(reply)
    {
      var found := LookupCachedEntry(bodyHash, luck.getErr);
      match found {
        case SameBody(response) =>
          ServedFromCache(View(), r, bodyHash, luck);
          reply := Replayed(response);
        case DifferentBody =>
          ServedFromCache(View(), r, bodyHash, luck);
          reply := Mismatch;
        case Miss =>
          if luck.setNxErr {
            ServedNoLock(View(), r, bodyHash, luck);
            reply := Unavailable;
          } else if lock.Some? && clock < lock.value.until {
            ServedNoLock(View(), r, bodyHash, luck);
            reply := Conflict;
          } else {
            ServedByHandler(View(), r, bodyHash, luck);
            RunHandler(r, bodyHash, luck);
            return Fresh(luck.response);
          }
      }
      requests := requests[r := Request(bodyHash, Answered(reply))];
    }
  }

  /**
   * Serial retries, exactly: after a response with a status from 200 to 299 has been stored, a second request of
   * the key within a day is replayed the response for the same body and refused for another, and its handler
   * does not run; after any other response, or when the day is over, the handler runs again unless Redis
   * refuses the lock.
   */
  lemma SerialRetryReplays(s: State, r: RequestId, q: RequestId, bodyHash: string, other: string, luck: Luck,
                           luck2: Luck, gap: nat)
    requires r != q && r !in s.requests && q !in s.requests && bodyHash != "" && other != ""
    requires Live(s.cache, s.clock).None? && Live(s.lock, s.clock).None?
    requires !luck.setNxErr && !luck.setErr && !luck2.getErr
    ensures var s1 := ServeAlone(s, r, bodyHash, luck);
      q !in s1.requests &&
      var s2 := ServeAlone(Do(s1, Tick(gap)), q, other, luck2);
      && q in s2.requests && s1.runs == s.runs + [HandlerRun(bodyHash, luck.response)]
      && (if 200 <= luck.response.status < 300 && gap < 86_400_000 then
            && s2.runs == s1.runs
            && s2.requests[q].phase == Answered(if other == bodyHash then Replayed(luck.response) else Mismatch)
          else
            !luck.delErr && !luck2.setNxErr ==>
              && s2.runs == s1.runs + [HandlerRun(other, luck2.response)]
              && s2.requests[q].phase == Answered(Fresh(luck2.response)))
      && (!(200 <= luck.response.status < 300) ==> s1.cache == s.cache && s1.stores == s.stores)
  {
    ServedByHandler(s, r, bodyHash, luck);
    var s1 := Do(Handled(s, r, bodyHash, luck), Tick(gap));
    if Live(s1.cache, s1.clock).Some? {
      ServedFromCache(s1, q, other, luck2);
    } else if !luck.delErr && !luck2.setNxErr {
      ServedByHandler(s1, q, other, luck2);
    }
  }
}
