/**
 * The sliding-window-log rate limiter: one Redis sorted set per caller, read and written by one atomic
 * script. Instants and durations are milliseconds; application servers and Redis share the clock.
 */
module RateLimit {
  import opened Common

  type Instant = int

  /** An entry of the sorted set. */
  datatype Entry = Entry(score: Instant, member: nat)

  /** The sorted set in its order, and when the key expires; an empty set is an absent key. */
  datatype Slot = Slot(log: seq<Entry>, until: Option<Instant>)

  datatype Config = Config(limit: int, window: nat)

  datatype Verdict = Verdict(allowed: bool, count: int, reset: int)

  datatype Call = Call(now: Instant, member: nat)

  // ---------------------------------------------------------------- Redis commands

  predicate Precedes(a: Entry, b: Entry) {
    a.score < b.score || (a.score == b.score && a.member < b.member)
  }

  ghost predicate Sorted(log: seq<Entry>) {
    forall i, j :: 0 <= i < j < |log| ==> Precedes(log[i], log[j])
  }

  /** ZREMRANGEBYSCORE key 0 bound. */
  function RemoveRange(log: seq<Entry>, bound: int): seq<Entry> {
    if log == [] then []
    else (if 0 <= log[0].score <= bound then [] else [log[0]]) + RemoveRange(log[1..], bound)
  }

  function Without(log: seq<Entry>, member: nat): seq<Entry> {
    if log == [] then []
    else (if log[0].member == member then [] else [log[0]]) + Without(log[1..], member)
  }

  function Insert(log: seq<Entry>, e: Entry): seq<Entry> {
    if log == [] || Precedes(e, log[0]) then [e] + log else [log[0]] + Insert(log[1..], e)
  }

  /** ZADD key score member: a member that is already there moves to its new score. */
  function Add(log: seq<Entry>, e: Entry): seq<Entry> {
    Insert(Without(log, e.member), e)
  }

  /** What a command at `now` sees of the key. */
  function Visible(s: Slot, now: Instant): seq<Entry> {
    if s.until.Some? && now >= s.until.value then [] else s.log
  }

  // ---------------------------------------------------------------- the script

  function Reset(log: seq<Entry>, now: Instant, window: nat): int {
    if log == [] then window
    else
      var reset := log[0].score + window - now;
      if reset < 0 then 0 else reset
  }

  function Decide(c: Config, s: Slot, call: Call): (Slot, Verdict) {
    var log := RemoveRange(Visible(s, call.now), call.now - c.window);
    if |log| >= c.limit then
      (Slot(log, if log == [] then None else Some(call.now + c.window)),
       Verdict(false, |log|, Reset(log, call.now, c.window)))
    else
      (Slot(Add(log, Entry(call.now, call.member)), Some(call.now + c.window)), Verdict(true, |log| + 1, c.window))
  }

  /** The key after a series of calls. */
  function After(c: Config, calls: seq<Call>): Slot {
    if calls == [] then Slot([], None)
    else Decide(c, After(c, calls[..|calls| - 1]), calls[|calls| - 1]).0
  }

  function VerdictAt(c: Config, calls: seq<Call>, i: nat): Verdict
    requires i < |calls|
  {
    Decide(c, After(c, calls[..i]), calls[i]).1
  }

  /** Calls come in clock order, each with its own random member. */
  ghost predicate Orderly(calls: seq<Call>) {
    && (forall i :: 0 <= i < |calls| ==> calls[i].now >= 0)
    && (forall i, j :: 0 <= i < j < |calls| ==> calls[i].now <= calls[j].now && calls[i].member != calls[j].member)
  }

  // ---------------------------------------------------------------- the specification: admitted calls, counted

  /** The instants of the admitted calls. */
  function Admissions(c: Config, calls: seq<Call>): seq<Instant> {
    if calls == [] then []
    else
      var n := |calls| - 1;
      var earlier := Admissions(c, calls[..n]);
      if VerdictAt(c, calls, n).allowed then earlier + [calls[n].now] else earlier
  }

  /** How many of the instants lie in (after, upTo]. */
  function Within(times: seq<Instant>, after: Instant, upTo: Instant): nat {
    if times == [] then 0
    else
      var n := |times| - 1;
      Within(times[..n], after, upTo) + if after < times[n] <= upTo then 1 else 0
  }

  /** How many calls were admitted at an instant in (after, upTo]. */
  function Admitted(c: Config, calls: seq<Call>, after: Instant, upTo: Instant): nat {
    Within(Admissions(c, calls), after, upTo)
  }

  /** Every entry scores later than the bound. */
  function Above(log: seq<Entry>, bound: int): seq<Entry> {
    if log == [] then []
    else (if log[0].score > bound then [log[0]] else []) + Above(log[1..], bound)
  }

  // ---------------------------------------------------------------- lemmas about the commands

  ghost predicate Positive(log: seq<Entry>) {
    forall e <- log :: e.score >= 0
  }

  lemma {:induction false} RemoveRangeIsAbove(log: seq<Entry>, bound: int)
    requires Positive(log)
    ensures RemoveRange(log, bound) == Above(log, bound)
  {
    if log != [] {
      assert forall e <- log[1..] :: e in log;
      assert log[0] in log;
      RemoveRangeIsAbove(log[1..], bound);
    }
  }

  lemma {:induction false} AboveMembers(log: seq<Entry>, bound: int)
    ensures forall e :: e in Above(log, bound) <==> e in log && e.score > bound
  {
    if log != [] {
      AboveMembers(log[1..], bound);
      assert log == [log[0]] + log[1..];
    }
  }

  lemma {:induction false} AboveAbove(log: seq<Entry>, a: int, b: int)
    requires a <= b
    ensures Above(Above(log, a), b) == Above(log, b)
  {
    if log != [] {
      AboveAbove(log[1..], a, b);
      assert ([log[0]] + Above(log[1..], a))[1..] == Above(log[1..], a);
      assert [] + Above(log[1..], a) == Above(log[1..], a);
    }
  }

  lemma {:induction false} AboveSorted(log: seq<Entry>, bound: int)
    requires Sorted(log)
    ensures Sorted(Above(log, bound))
  {
    if log != [] {
      AboveSorted(log[1..], bound);
      AboveMembers(log[1..], bound);
      var rest := Above(log[1..], bound);
      forall i | 0 <= i < |rest| ensures Precedes(log[0], rest[i]) {
        assert rest[i] in log[1..];
      }
    }
  }

  lemma {:induction false} WithoutAbsent(log: seq<Entry>, member: nat)
    requires forall e <- log :: e.member != member
    ensures Without(log, member) == log
  {
    if log != [] {
      assert log[0] in log && forall e <- log[1..] :: e in log;
      WithoutAbsent(log[1..], member);
    }
  }

  lemma {:induction false} InsertMembers(log: seq<Entry>, e: Entry)
    ensures forall x :: x in Insert(log, e) <==> x in log || x == e
  {
    if log != [] && !Precedes(e, log[0]) {
      InsertMembers(log[1..], e);
      assert log == [log[0]] + log[1..];
    }
  }

  lemma {:induction false} InsertSorted(log: seq<Entry>, e: Entry)
    requires Sorted(log) && e !in log
    ensures Sorted(Insert(log, e))
  {
    if log != [] && !Precedes(e, log[0]) {
      assert log[0] in log && forall x <- log[1..] :: x in log;
      InsertSorted(log[1..], e);
      InsertMembers(log[1..], e);
      var rest := Insert(log[1..], e);
      forall i | 0 <= i < |rest| ensures Precedes(log[0], rest[i]) {
        assert rest[i] in rest;
      }
    }
  }

  lemma {:induction false} InsertCounts(log: seq<Entry>, e: Entry, bound: int)
    ensures |Above(Insert(log, e), bound)| == |Above(log, bound)| + if e.score > bound then 1 else 0
  {
    if log == [] || Precedes(e, log[0]) {
      assert ([e] + log)[1..] == log;
    } else {
      InsertCounts(log[1..], e, bound);
      assert Insert(log, e)[1..] == Insert(log[1..], e);
    }
  }

  lemma {:induction false} AboveAll(log: seq<Entry>, bound: int)
    requires forall e <- log :: e.score > bound
    ensures Above(log, bound) == log
  {
    if log != [] {
      assert log[0] in log && forall e <- log[1..] :: e in log;
      AboveAll(log[1..], bound);
    }
  }

  lemma {:induction false} AboveNone(log: seq<Entry>, bound: int)
    requires forall e <- log :: e.score <= bound
    ensures Above(log, bound) == []
  {
    if log != [] {
      assert log[0] in log && forall e <- log[1..] :: e in log;
      AboveNone(log[1..], bound);
    }
  }

  // ---------------------------------------------------------------- the log is exact

  ghost predicate FromCall(e: Entry, calls: seq<Call>) {
    exists i :: 0 <= i < |calls| && calls[i] == Call(e.score, e.member)
  }

  /** The entries come from calls, in order, and are never more than the limit. */
  ghost predicate EntriesOk(limit: int, log: seq<Entry>, calls: seq<Call>) {
    && Sorted(log) && Positive(log)
    && |log| <= (if limit < 0 then 0 else limit)
    && (forall e <- log :: FromCall(e, calls))
  }

  ghost predicate SlotOk(c: Config, s: Slot, calls: seq<Call>) {
    && EntriesOk(c.limit, s.log, calls)
    && (s.log != [] ==> calls != [] && s.until == Some(calls[|calls| - 1].now + c.window))
    && (s.log == [] ==> s.until.None?)
  }

  ghost predicate LogOk(c: Config, calls: seq<Call>) {
    SlotOk(c, After(c, calls), calls)
  }

  /** Past any bound the window has reached, the log counts exactly the admitted calls. */
  ghost predicate LogCounts(c: Config, calls: seq<Call>) {
    forall bound: int, upTo: int :: Reached(c, calls, bound, upTo) ==>
      |Above(After(c, calls).log, bound)| == Admitted(c, calls, bound, upTo)
  }

  predicate Reached(c: Config, calls: seq<Call>, bound: int, upTo: int) {
    calls != [] ==> calls[|calls| - 1].now - c.window <= bound && calls[|calls| - 1].now <= upTo
  }

  /** The log after a call that saw `seen`. */
  function NextLog(limit: int, seen: seq<Entry>, call: Call): seq<Entry> {
    if |seen| >= limit then seen else Insert(seen, Entry(call.now, call.member))
  }

  lemma EarlierCall(calls: seq<Call>, call: Call, e: Entry)
    requires Orderly(calls + [call]) && FromCall(e, calls)
    ensures e.score <= calls[|calls| - 1].now <= call.now && e.member != call.member && FromCall(e, calls + [call])
  {
    var all := calls + [call];
    var i :| 0 <= i < |calls| && calls[i] == Call(e.score, e.member);
    assert all[i] == calls[i] && all[|calls| - 1] == calls[|calls| - 1] && all[|calls|] == call;
  }

  /** The entries that the next call sees in its window, whether or not the key has expired. */
  lemma SeenLog(c: Config, s: Slot, calls: seq<Call>, call: Call)
    requires Orderly(calls + [call]) && SlotOk(c, s, calls)
    ensures RemoveRange(Visible(s, call.now), call.now - c.window)
         == RemoveRange(s.log, call.now - c.window)
         == Above(s.log, call.now - c.window)
  {
    var w := call.now - c.window;
    RemoveRangeIsAbove(s.log, w);
    if s.until.Some? && call.now >= s.until.value {
      forall e <- s.log ensures e.score <= w {
        EarlierCall(calls, call, e);
      }
      AboveNone(s.log, w);
    }
  }

  /** The outcome of a call, in terms of the entries it sees. */
  function Outcome(c: Config, seen: seq<Entry>, call: Call): (Slot, Verdict) {
    var log := NextLog(c.limit, seen, call);
    (Slot(log, if log == [] then None else Some(call.now + c.window)),
     if |seen| >= c.limit then Verdict(false, |seen|, Reset(seen, call.now, c.window))
     else Verdict(true, |seen| + 1, c.window))
  }

  lemma DecideOnSeen(c: Config, s: Slot, call: Call, seen: seq<Entry>)
    requires RemoveRange(Visible(s, call.now), call.now - c.window) == seen && Without(seen, call.member) == seen
    ensures Decide(c, s, call) == Outcome(c, seen, call)
  {
    InsertLength(seen, Entry(call.now, call.member));
  }

  lemma SeenMembersDiffer(calls: seq<Call>, call: Call, log: seq<Entry>, bound: int)
    requires Orderly(calls + [call]) && forall e <- log :: FromCall(e, calls)
    ensures Without(Above(log, bound), call.member) == Above(log, bound)
  {
    AboveMembers(log, bound);
    forall e <- Above(log, bound) ensures e.member != call.member {
      EarlierCall(calls, call, e);
    }
    WithoutAbsent(Above(log, bound), call.member);
  }

  lemma DecideIsOutcome(c: Config, s: Slot, calls: seq<Call>, call: Call)
    requires Orderly(calls + [call]) && SlotOk(c, s, calls)
    ensures Decide(c, s, call) == Outcome(c, Above(s.log, call.now - c.window), call)
  {
    SeenLog(c, s, calls, call);
    SeenMembersDiffer(calls, call, s.log, call.now - c.window);
    DecideOnSeen(c, s, call, Above(s.log, call.now - c.window));
  }

  lemma AfterGrown(c: Config, calls: seq<Call>, call: Call)
    ensures After(c, calls + [call]) == Decide(c, After(c, calls), call).0
    ensures VerdictAt(c, calls + [call], |calls|) == Decide(c, After(c, calls), call).1
  {
    assert (calls + [call])[..|calls|] == calls;
  }

  lemma EntriesKept(limit: int, log: seq<Entry>, calls: seq<Call>, call: Call, bound: int)
    requires Orderly(calls + [call]) && EntriesOk(limit, log, calls)
    ensures EntriesOk(limit, NextLog(limit, Above(log, bound), call), calls + [call])
  {
    var seen := Above(log, bound);
    var e := Entry(call.now, call.member);
    AboveSorted(log, bound);
    AboveMembers(log, bound);
    AboveLength(log, bound);
    forall x <- seen ensures x != e && FromCall(x, calls + [call]) {
      EarlierCall(calls, call, x);
    }
    InsertSorted(seen, e);
    InsertMembers(seen, e);
    InsertLength(seen, e);
    assert (calls + [call])[|calls|] == Call(e.score, e.member) && (calls + [call])[|calls|].now >= 0;
  }

  lemma CallKeepsSlot(c: Config, s: Slot, calls: seq<Call>, call: Call)
    requires Orderly(calls + [call]) && SlotOk(c, s, calls)
    ensures SlotOk(c, Decide(c, s, call).0, calls + [call])
  {
    DecideIsOutcome(c, s, calls, call);
    EntriesKept(c.limit, s.log, calls, call, call.now - c.window);
    assert (calls + [call])[|calls + [call]| - 1] == call;
  }

  lemma {:induction false} InsertLength(log: seq<Entry>, e: Entry)
    ensures |Insert(log, e)| == |log| + 1
  {
    if log != [] && !Precedes(e, log[0]) {
      InsertLength(log[1..], e);
    }
  }

  lemma {:induction false} AboveLength(log: seq<Entry>, bound: int)
    ensures |Above(log, bound)| <= |log|
  {
    if log != [] {
      AboveLength(log[1..], bound);
    }
  }

  lemma AdmissionsGrown(c: Config, calls: seq<Call>, call: Call)
    ensures Admissions(c, calls + [call])
         == if VerdictAt(c, calls + [call], |calls|).allowed then Admissions(c, calls) + [call.now]
           else Admissions(c, calls)
  {
    assert (calls + [call])[..|calls|] == calls;
  }

  lemma WithinGrown(times: seq<Instant>, t: Instant, after: Instant, upTo: Instant)
    ensures Within(times + [t], after, upTo) == Within(times, after, upTo) + if after < t <= upTo then 1 else 0
  {
    var all := times + [t];
    assert all[..|all| - 1] == times && all[|all| - 1] == t;
  }

  lemma AdmittedGrown(c: Config, calls: seq<Call>, call: Call, after: Instant, upTo: Instant)
    ensures Admitted(c, calls + [call], after, upTo)
         == Admitted(c, calls, after, upTo)
            + if VerdictAt(c, calls + [call], |calls|).allowed && after < call.now <= upTo then 1 else 0
  {
    AdmissionsGrown(c, calls, call);
    WithinGrown(Admissions(c, calls), call.now, after, upTo);
  }

  /** What one call adds to the number of entries past a bound its window has reached. */
  lemma CallAddsToCount(c: Config, s: Slot, calls: seq<Call>, call: Call, bound: int)
    requires Orderly(calls + [call]) && SlotOk(c, s, calls) && call.now - c.window <= bound
    ensures var (s', verdict) := Decide(c, s, call);
      |Above(s'.log, bound)| == |Above(s.log, bound)| + if verdict.allowed && call.now > bound then 1 else 0
  {
    DecideIsOutcome(c, s, calls, call);
    AboveAbove(s.log, call.now - c.window, bound);
    InsertCounts(Above(s.log, call.now - c.window), Entry(call.now, call.member), bound);
  }

  lemma CallKeepsCount(c: Config, calls: seq<Call>, call: Call, bound: int, upTo: int)
    requires Orderly(calls + [call]) && LogOk(c, calls) && LogCounts(c, calls)
      && Reached(c, calls + [call], bound, upTo)
    ensures |Above(After(c, calls + [call]).log, bound)| == Admitted(c, calls + [call], bound, upTo)
  {
    assert (calls + [call])[|calls + [call]| - 1] == call;
    if calls != [] {
      assert (calls + [call])[|calls| - 1] == calls[|calls| - 1] && (calls + [call])[|calls|] == call;
    }
    assert Reached(c, calls, bound, upTo);
    CallAddsToCount(c, After(c, calls), calls, call, bound);
    AfterGrown(c, calls, call);
    AdmittedGrown(c, calls, call, bound, upTo);
  }

  lemma {:induction false} LogIsExact(c: Config, calls: seq<Call>)
    requires Orderly(calls)
    ensures LogOk(c, calls) && LogCounts(c, calls)
  {
    if calls != [] {
      var n := |calls| - 1;
      assert calls == calls[..n] + [calls[n]];
      LogIsExact(c, calls[..n]);
      CallKeepsSlot(c, After(c, calls[..n]), calls[..n], calls[n]);
      AfterGrown(c, calls[..n], calls[n]);
      forall bound: int, upTo: int | Reached(c, calls, bound, upTo)
        ensures |Above(After(c, calls).log, bound)| == Admitted(c, calls, bound, upTo)
      {
        CallKeepsCount(c, calls[..n], calls[n], bound, upTo);
      }
    }
  }

  // ---------------------------------------------------------------- what callers can rely on

  lemma OrderlyPrefix(calls: seq<Call>, i: nat)
    requires Orderly(calls) && i < |calls|
    ensures Orderly(calls[..i]) && Orderly(calls[..i] + [calls[i]])
  {
    assert calls[..i] + [calls[i]] == calls[..i + 1];
  }

  lemma SlotIsOk(c: Config, calls: seq<Call>)
    requires Orderly(calls)
    ensures SlotOk(c, After(c, calls), calls)
  {
    LogIsExact(c, calls);
  }

  lemma VerdictOnSeen(c: Config, calls: seq<Call>, i: nat)
    requires Orderly(calls) && i < |calls|
    ensures LogOk(c, calls[..i])
    ensures VerdictAt(c, calls, i) == Outcome(c, Above(After(c, calls[..i]).log, calls[i].now - c.window), calls[i]).1
  {
    hide Decide;
    hide After;
    hide Outcome;
    OrderlyPrefix(calls, i);
    SlotIsOk(c, calls[..i]);
    DecideIsOutcome(c, After(c, calls[..i]), calls[..i], calls[i]);
  }

  /**
   * The log decides as a count of history would: a call is admitted exactly when fewer than `limit`
   * earlier calls were admitted in the window that ends with it, and the reported count is exact.
   */
  lemma DecisionIsExact(c: Config, calls: seq<Call>, i: nat)
    requires Orderly(calls) && i < |calls|
    ensures var earlier := Admitted(c, calls[..i], calls[i].now - c.window, calls[i].now);
      && (VerdictAt(c, calls, i).allowed <==> earlier < c.limit)
      && VerdictAt(c, calls, i).count == earlier + if VerdictAt(c, calls, i).allowed then 1 else 0
  {
    VerdictOnSeen(c, calls, i);
    LogIsExact(c, calls[..i]);
    assert Reached(c, calls[..i], calls[i].now - c.window, calls[i].now);
  }

  lemma {:induction false} WithinMonotone(times: seq<Instant>, a: Instant, b: Instant, upTo: Instant, upTo': Instant)
    requires b <= a && upTo <= upTo'
    ensures Within(times, a, upTo) <= Within(times, b, upTo')
  {
    if times != [] {
      WithinMonotone(times[..|times| - 1], a, b, upTo, upTo');
    }
  }

  /** Instants that end at `last`: looking further ahead counts nothing new. */
  lemma {:induction false} WithinUpToLast(times: seq<Instant>, last: Instant, t: Instant, after: Instant)
    requires last <= t && forall x <- times :: x <= last
    ensures Within(times, after, t) == Within(times, after, last)
  {
    if times != [] {
      var n := |times| - 1;
      assert times[n] in times && forall x <- times[..n] :: x in times;
      WithinUpToLast(times[..n], last, t, after);
    }
  }

  /** Every admission found fewer than `limit` others in its window. */
  ghost predicate Paced(c: Config, times: seq<Instant>) {
    forall k :: 0 <= k < |times| ==> Fits(c, times[..k], times[k])
  }

  predicate Fits(c: Config, earlier: seq<Instant>, t: Instant) {
    (forall x <- earlier :: x <= t) && Within(earlier, t - c.window, t) < c.limit
  }

  lemma {:induction false} PacedWindow(c: Config, times: seq<Instant>, t: Instant)
    requires Paced(c, times)
    ensures Within(times, t - c.window, t) <= if c.limit < 0 then 0 else c.limit
  {
    if times != [] {
      var n := |times| - 1;
      assert forall k :: 0 <= k < n ==> times[..n][..k] == times[..k];
      PacedWindow(c, times[..n], t);
      LastFits(c, times[..n], times[n], t);
    }
  }

  lemma LastFits(c: Config, earlier: seq<Instant>, last: Instant, t: Instant)
    requires Fits(c, earlier, last)
    ensures last <= t ==> Within(earlier, t - c.window, t) < c.limit
  {
    if last <= t {
      WithinUpToLast(earlier, last, t, t - c.window);
      WithinMonotone(earlier, t - c.window, last - c.window, last, last);
    }
  }

  lemma PacedGrown(c: Config, times: seq<Instant>, t: Instant)
    requires Paced(c, times) && Fits(c, times, t)
    ensures Paced(c, times + [t])
  {
    var all := times + [t];
    forall k | 0 <= k < |all| ensures Fits(c, all[..k], all[k]) {
      assert all[..k] == times[..k];
    }
  }

  lemma AdmittedFits(c: Config, calls: seq<Call>, n: nat)
    requires Orderly(calls) && n < |calls| && VerdictAt(c, calls, n).allowed
    ensures Fits(c, Admissions(c, calls[..n]), calls[n].now)
  {
    DecisionIsExact(c, calls, n);
    AdmissionsEarlier(c, calls[..n], calls[n].now);
  }

  lemma {:induction false} AdmissionsEarlier(c: Config, calls: seq<Call>, last: Instant)
    requires forall i :: 0 <= i < |calls| ==> calls[i].now <= last
    ensures forall t <- Admissions(c, calls) :: t <= last
  {
    if calls != [] {
      AdmissionsEarlier(c, calls[..|calls| - 1], last);
    }
  }

  lemma {:induction false} AdmissionsPaced(c: Config, calls: seq<Call>)
    requires Orderly(calls)
    ensures Paced(c, Admissions(c, calls))
  {
    if calls != [] {
      var n := |calls| - 1;
      AdmissionsPaced(c, calls[..n]);
      if VerdictAt(c, calls, n).allowed {
        AdmittedFits(c, calls, n);
        PacedGrown(c, Admissions(c, calls[..n]), calls[n].now);
      }
    }
  }

  /** No window of the configured length, wherever it ends, holds more admitted calls than the limit. */
  lemma WindowNeverExceedsLimit(c: Config, calls: seq<Call>, t: Instant)
    requires Orderly(calls)
    ensures Admitted(c, calls, t - c.window, t) <= if c.limit < 0 then 0 else c.limit
  {
    AdmissionsPaced(c, calls);
    PacedWindow(c, Admissions(c, calls), t);
  }

  /** The limiter without any key expiry. */
  function AfterForever(c: Config, calls: seq<Call>): seq<Entry> {
    if calls == [] then []
    else Decide(c, Slot(AfterForever(c, calls[..|calls| - 1]), None), calls[|calls| - 1]).0.log
  }

  /** The expiry of the key only frees memory: with or without it, every call gets the same verdict. */
  lemma {:induction false} ExpiryIsInvisible(c: Config, calls: seq<Call>, call: Call)
    requires Orderly(calls + [call])
    ensures Decide(c, Slot(AfterForever(c, calls), None), call).1 == Decide(c, After(c, calls), call).1
    ensures Decide(c, Slot(AfterForever(c, calls), None), call).0.log == Decide(c, After(c, calls), call).0.log
  {
    var all := calls + [call];
    assert forall i :: 0 <= i < |calls| ==> all[i] == calls[i];
    assert Orderly(calls);
    LogIsExact(c, calls);
    if calls != [] {
      var n := |calls| - 1;
      assert calls == calls[..n] + [calls[n]];
      ExpiryIsInvisible(c, calls[..n], calls[n]);
    }
    assert AfterForever(c, calls) == After(c, calls).log;
    SameSeen(c, After(c, calls), calls, call);
  }

  lemma SameSeen(c: Config, s: Slot, calls: seq<Call>, call: Call)
    requires Orderly(calls + [call]) && SlotOk(c, s, calls)
    ensures Decide(c, Slot(s.log, None), call).1 == Decide(c, s, call).1
    ensures Decide(c, Slot(s.log, None), call).0.log == Decide(c, s, call).0.log
  {
    SeenLog(c, s, calls, call);
  }

  /** Between two calls nothing else was admitted. */
  ghost predicate OnlyRejections(c: Config, calls: seq<Call>, i: nat, j: nat) {
    forall k :: i <= k < j && k < |calls| ==> !VerdictAt(c, calls, k).allowed
  }

  lemma LastVerdict(c: Config, calls: seq<Call>, j: nat)
    requires 0 < j <= |calls| && !VerdictAt(c, calls, j - 1).allowed
    ensures Admissions(c, calls[..j]) == Admissions(c, calls[..j - 1])
  {
    assert calls[..j] == calls[..j - 1] + [calls[j - 1]] && calls[..j][..j - 1] == calls[..j - 1];
    AdmissionsGrown(c, calls[..j - 1], calls[j - 1]);
    assert VerdictAt(c, calls[..j], j - 1) == VerdictAt(c, calls, j - 1);
  }

  lemma {:induction false} RejectionsAddNothing(c: Config, calls: seq<Call>, i: nat, j: nat)
    requires i <= j <= |calls| && OnlyRejections(c, calls, i, j)
    ensures Admissions(c, calls[..j]) == Admissions(c, calls[..i])
  {
    if i < j {
      RejectionsAddNothing(c, calls, i, j - 1);
      LastVerdict(c, calls, j);
    }
  }

  /** A log full at `w` has room again exactly once the window has passed its oldest entry. */
  lemma FullLogOpens(limit: int, log: seq<Entry>, w: int, bound: int)
    requires Sorted(log) && |log| <= limit <= |Above(log, w)| && limit > 0 && w <= bound
    ensures |Above(log, bound)| < limit <==> Above(log, w)[0].score <= bound
    ensures Above(log, w)[0].score > w
  {
    var seen := Above(log, w);
    AboveLength(log, w);
    AboveSorted(log, w);
    AboveMembers(log, w);
    AboveAbove(log, w, bound);
    assert seen[0] in seen;
    if seen[0].score > bound {
      AboveAll(seen, bound);
    } else {
      AboveLength(seen[1..], bound);
    }
  }

  lemma RejectedVerdict(c: Config, calls: seq<Call>, i: nat)
    requires Orderly(calls) && i < |calls| && c.limit > 0 && !VerdictAt(c, calls, i).allowed
    ensures var log := After(c, calls[..i]).log; var w := calls[i].now - c.window;
      && Sorted(log) && |log| <= c.limit <= |Above(log, w)|
      && VerdictAt(c, calls, i).reset == Reset(Above(log, w), calls[i].now, c.window)
      && VerdictAt(c, calls, i).count == |Above(log, w)|
  {
    VerdictOnSeen(c, calls, i);
  }

  lemma LaterDecision(c: Config, calls: seq<Call>, i: nat, j: nat)
    requires Orderly(calls) && i < j < |calls| && OnlyRejections(c, calls, i, j)
    ensures VerdictAt(c, calls, j).allowed <==> |Above(After(c, calls[..i]).log, calls[j].now - c.window)| < c.limit
  {
    DecisionIsExact(c, calls, j);
    RejectionsAddNothing(c, calls, i, j);
    LogIsExact(c, calls[..i]);
    assert Reached(c, calls[..i], calls[j].now - c.window, calls[j].now);
  }

  /**
   * The reset is exact: a rejected caller that nobody overtakes is admitted on a retry exactly when the
   * returned number of milliseconds has passed.
   */
  lemma ResetIsExact(c: Config, calls: seq<Call>, i: nat, j: nat)
    requires Orderly(calls) && i < j < |calls| && c.limit > 0
    requires OnlyRejections(c, calls, i, j)
    ensures VerdictAt(c, calls, j).allowed <==> calls[j].now >= calls[i].now + VerdictAt(c, calls, i).reset
    ensures VerdictAt(c, calls, i).reset > 0
  {
    RejectedVerdict(c, calls, i);
    LaterDecision(c, calls, i, j);
    FullLogOpens(c.limit, After(c, calls[..i]).log, calls[i].now - c.window, calls[j].now - c.window);
  }

  // ---------------------------------------------------------------- the limiter as a program

  datatype Headers = Headers(remaining: int, resetSeconds: int)

  class Limiter {
    var log: seq<Entry>
    var until: Option<Instant>
    const config: Config

    constructor (c: Config)
      ensures View() == After(c, []) && config == c
    {
      log, until, config := [], None, c;
    }

    function View(): Slot
      reads this
    {
      Slot(log, until)
    }

    /** The script, command by command. */
    method Eval(call: Call) returns (v: Verdict)
      modifies this
      ensures (View(), v) == Decide(config, old(View()), call)
    {
      log := RemoveRange(Visible(View(), call.now), call.now - config.window);
      var count := |log|;
      if count >= config.limit {
        var reset: int := config.window;
        if log != [] {
          reset := log[0].score + config.window - call.now;
          if reset < 0 {
            reset := 0;
          }
        }
        until := if log == [] then None else Some(call.now + config.window);
        return Verdict(false, count, reset);
      }
      InsertLength(Without(log, call.member), Entry(call.now, call.member));
      log := Add(log, Entry(call.now, call.member));
      until := Some(call.now + config.window);
      return Verdict(true, count + 1, config.window);
    }

    /** The middleware's answer: whether to go on, and the numbers in the response headers. */
    method Limit(call: Call) returns (allowed: bool, h: Headers)
      modifies this
      ensures View() == Decide(config, old(View()), call).0
      ensures allowed == Decide(config, old(View()), call).1.allowed
      ensures h == HeadersFor(config, Decide(config, old(View()), call).1)
    {
      var v := Eval(call);
      var remaining := config.limit - v.count;
      if remaining < 0 {
        remaining := 0;
      }
      var resetSeconds := (v.reset + 999) / 1000;
      if resetSeconds < 1 {
        resetSeconds := 1;
      }
      return v.allowed, Headers(remaining, resetSeconds);
    }
  }

  function HeadersFor(c: Config, v: Verdict): Headers {
    var seconds := (v.reset + 999) / 1000;
    Headers(if c.limit < v.count then 0 else c.limit - v.count, if seconds < 1 then 1 else seconds)
  }

  /**
   * Retry-After is the least whole number of seconds, one at least, that covers the reset in milliseconds, and
   * the remaining header is what is left of the limit, never negative.
   */
  lemma HeadersInNumbers(c: Config, v: Verdict)
    ensures var h := HeadersFor(c, v);
      && h.resetSeconds >= 1 && h.resetSeconds * 1000 >= v.reset
      && (h.resetSeconds > 1 ==> (h.resetSeconds - 1) * 1000 < v.reset)
      && (v.count <= c.limit ==> h.remaining == c.limit - v.count) && (v.count > c.limit ==> h.remaining == 0)
  {
  }

  /** After every call that leaves entries, the key lives exactly one window longer. */
  lemma KeyLivesOneWindow(c: Config, calls: seq<Call>)
    requires calls != [] && c.limit > 0
    ensures var s := After(c, calls);
      s.log != [] ==> s.until == Some(calls[|calls| - 1].now + c.window)
  {
  }

  /** Waiting the advertised Retry-After seconds is enough, and X-RateLimit-Remaining is what is left of the limit. */
  lemma HeadersAreTruthful(c: Config, calls: seq<Call>, i: nat, j: nat)
    requires Orderly(calls) && i < j < |calls| && c.limit > 0 && c.window > 0 && OnlyRejections(c, calls, i, j)
    requires calls[j].now >= calls[i].now + 1000 * HeadersFor(c, VerdictAt(c, calls, i)).resetSeconds
    ensures VerdictAt(c, calls, j).allowed
    ensures HeadersFor(c, VerdictAt(c, calls, i)).remaining == 0
    ensures HeadersFor(c, VerdictAt(c, calls, j)).remaining
         == c.limit - Admitted(c, calls[..j + 1], calls[j].now - c.window, calls[j].now)
  {
    ResetIsExact(c, calls, i, j);
    RejectedVerdict(c, calls, i);
    CountIsAdmitted(c, calls, j);
  }

  /** The count of an admitted call includes it. */
  lemma CountIsAdmitted(c: Config, calls: seq<Call>, j: nat)
    requires Orderly(calls) && j < |calls| && VerdictAt(c, calls, j).allowed && c.window > 0
    ensures VerdictAt(c, calls, j).count
      == Admitted(c, calls[..j + 1], calls[j].now - c.window, calls[j].now) <= c.limit
  {
    hide Decide;
    hide After;
    hide Admitted;
    DecisionIsExact(c, calls, j);
    assert calls[..j + 1] == calls[..j] + [calls[j]];
    assert VerdictAt(c, calls[..j + 1], j) == VerdictAt(c, calls, j) by {
      assert calls[..j + 1][..j] == calls[..j];
    }
    AdmittedGrown(c, calls[..j], calls[j], calls[j].now - c.window, calls[j].now);
  }
}
