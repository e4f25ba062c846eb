/**
 * The kitchen print dispatcher of the desktop POS: a reader goroutine queues orders it sights on the
 * branch's event stream, a worker goroutine prints them. Each lock region, channel operation and call
 * into the printed-order memory is one atomic step; the two goroutines interleave freely.
 */
module Kitchen {

  type OrderId = string

  const QUEUE_SIZE: nat := 256
  const SOURCE_ONLINE_QR: string := "online_qr"

  datatype Event = Event(orderId: OrderId, tableLabel: string, source: string, status: string)

  datatype Job = Job(orderId: OrderId, tableLabel: string)

  /** Where the reader is in `enqueue`. */
  datatype Reader =
    | Reading
    | Decided(evt: Event)   // shouldPrint said yes, the inflight lock is not taken yet
    | Sending(job: Job)     // marked inflight, blocked on the queue
    | ReaderDone

  datatype Outcome = AlreadyPrinted | Printed | Failed

  /** Where the worker is in `printLoop`; Finishing lies between `process` and `release`. */
  datatype Worker =
    | Waiting
    | Taken(job: Job)
    | Printing(job: Job)
    | Finishing(job: Job, outcome: Outcome)

  /**
   * `printed`, `inflight` and `queue` are the shared structures. Histories: `tickets` counts the
   * tickets this dispatcher printed per order; `owed` holds the orders sighted as owed for which no
   * print decision has concluded since; `swallowed` those of them the reader dropped.
   */
  datatype State = State(
    printed: set<OrderId>,
    inflight: set<OrderId>,
    queue: seq<Job>,
    reader: Reader,
    worker: Worker,
    cancelled: bool,
    tickets: map<OrderId, nat>,
    owed: set<OrderId>,
    swallowed: set<OrderId>)

  datatype Step =
    | Sight(evt: Event)
    | Mark
    | Send
    | AbandonSend
    | Take
    | Check
    | PrintReturns(ok: bool)
    | Release
    | PrintedElsewhere(id: OrderId)
    | Cancel

  function Started(printed: set<OrderId>): State {
    State(printed, {}, [], Reading, Waiting, false, map[], {}, {})
  }

  /** An order this station still owes the kitchen a ticket for. */
  predicate ShouldPrint(printed: set<OrderId>, evt: Event) {
    && evt.orderId != "" && evt.source == SOURCE_ONLINE_QR
    && (evt.status == "pending" || evt.status == "accepted")
    && evt.orderId !in printed
  }

  function Tickets(s: State, id: OrderId): nat {
    if id in s.tickets then s.tickets[id] else 0
  }

  predicate Enabled(s: State, step: Step) {
    match step
    case Sight(_) => s.reader.Reading?
    case Mark => s.reader.Decided?
    case Send => s.reader.Sending? && |s.queue| < QUEUE_SIZE
    case AbandonSend => s.reader.Sending? && s.cancelled
    case Take => s.worker.Waiting? && s.queue != []
    case Check => s.worker.Taken?
    case PrintReturns(_) => s.worker.Printing?
    case Release => s.worker.Finishing?
    case PrintedElsewhere(_) => true
    case Cancel => true
  }

  function Do(s: State, step: Step): State
    requires Enabled(s, step)
  {
    match step
    case Sight(evt) =>
      if ShouldPrint(s.printed, evt) then s.(reader := Decided(evt), owed := s.owed + {evt.orderId}) else s
    case Mark =>
      var id := s.reader.evt.orderId;
      if id in s.inflight then
        s.(reader := Reading,
           swallowed := if s.worker.Finishing? && s.worker.job.orderId == id && id in s.owed then s.swallowed + {id}
             else s.swallowed)
      else s.(reader := Sending(Job(id, s.reader.evt.tableLabel)), inflight := s.inflight + {id})
    case Send => s.(reader := Reading, queue := s.queue + [s.reader.job])
    case AbandonSend => s.(reader := ReaderDone, inflight := s.inflight - {s.reader.job.orderId})
    case Take => s.(worker := Taken(s.queue[0]), queue := s.queue[1..])
    case Check =>
      var job := s.worker.job;
      if job.orderId in s.printed then Concluded(s, job, AlreadyPrinted) else s.(worker := Printing(job))
    case PrintReturns(ok) =>
      var job := s.worker.job;
      // A successful print is on paper and in the printed-order memory before it returns.
      if ok then
        Concluded(s.(printed := s.printed + {job.orderId},
                     tickets := s.tickets[job.orderId := Tickets(s, job.orderId) + 1]),
                  job, Printed)
      else Concluded(s, job, Failed)
    case Release => s.(worker := Waiting, inflight := s.inflight - {s.worker.job.orderId})
    case PrintedElsewhere(id) => s.(printed := s.printed + {id})
    case Cancel => s.(cancelled := true)
  }

  function Concluded(s: State, job: Job, outcome: Outcome): State {
    s.(worker := Finishing(job, outcome), owed := s.owed - {job.orderId}, swallowed := s.swallowed - {job.orderId})
  }

  ghost predicate IsRun(printed: set<OrderId>, states: seq<State>, steps: seq<Step>) {
    && |states| == |steps| + 1
    && states[0] == Started(printed)
    && forall i :: 0 <= i < |steps| ==> Enabled(states[i], steps[i]) && states[i + 1] == Do(states[i], steps[i])
  }

  // ---------------------------------------------------------------- inflight is exact, no ticket twice

  /** Every outstanding job: with the worker, queued, being sent. */
  function Jobs(s: State): seq<Job> {
    (if s.worker.Waiting? then [] else [s.worker.job]) + s.queue + (if s.reader.Sending? then [s.reader.job] else [])
  }

  ghost predicate OneJobPerOrder(jobs: seq<Job>) {
    forall i, j :: 0 <= i < j < |jobs| ==> jobs[i].orderId != jobs[j].orderId
  }

  predicate HasJob(jobs: seq<Job>, id: OrderId) {
    exists i :: 0 <= i < |jobs| && jobs[i].orderId == id
  }

  ghost predicate InflightExact(jobs: seq<Job>, inflight: set<OrderId>) {
    forall id :: id in inflight <==> HasJob(jobs, id)
  }

  ghost predicate NoTicketTwice(s: State) {
    && (forall id <- s.tickets :: s.tickets[id] <= 1 && (s.tickets[id] == 1 ==> id in s.printed))
    && (s.worker.Printing? ==> Tickets(s, s.worker.job.orderId) == 0)
  }

  ghost predicate Bookkeeping(s: State) {
    OneJobPerOrder(Jobs(s)) && InflightExact(Jobs(s), s.inflight) && NoTicketTwice(s) && |s.queue| <= QUEUE_SIZE
  }

  lemma AddJob(jobs: seq<Job>, job: Job, inflight: set<OrderId>)
    requires OneJobPerOrder(jobs) && InflightExact(jobs, inflight) && job.orderId !in inflight
    ensures OneJobPerOrder(jobs + [job]) && InflightExact(jobs + [job], inflight + {job.orderId})
  {
    var jobs' := jobs + [job];
    forall id | id in inflight + {job.orderId} ensures HasJob(jobs', id) {
      if HasJob(jobs, id) {
        var i :| 0 <= i < |jobs| && jobs[i].orderId == id;
        assert jobs'[i].orderId == id;
      } else {
        assert jobs'[|jobs|].orderId == id;
      }
    }
    forall i | 0 <= i < |jobs| ensures jobs[i].orderId in inflight {
      assert HasJob(jobs, jobs[i].orderId);
    }
  }

  lemma DropFirstJob(jobs: seq<Job>, inflight: set<OrderId>)
    requires OneJobPerOrder(jobs) && InflightExact(jobs, inflight) && jobs != []
    ensures OneJobPerOrder(jobs[1..]) && InflightExact(jobs[1..], inflight - {jobs[0].orderId})
  {
    forall id | id in inflight - {jobs[0].orderId} ensures HasJob(jobs[1..], id) {
      var i :| 0 <= i < |jobs| && jobs[i].orderId == id;
      assert jobs[1..][i - 1].orderId == id;
    }
    forall i | 0 <= i < |jobs[1..]| ensures jobs[1..][i].orderId in inflight - {jobs[0].orderId} {
      assert HasJob(jobs, jobs[i + 1].orderId);
    }
  }

  lemma DropLastJob(jobs: seq<Job>, inflight: set<OrderId>)
    requires OneJobPerOrder(jobs) && InflightExact(jobs, inflight) && jobs != []
    ensures OneJobPerOrder(jobs[..|jobs| - 1])
      && InflightExact(jobs[..|jobs| - 1], inflight - {jobs[|jobs| - 1].orderId})
  {
    var rest := jobs[..|jobs| - 1];
    forall id | id in inflight - {jobs[|jobs| - 1].orderId} ensures HasJob(rest, id) {
      var i :| 0 <= i < |jobs| && jobs[i].orderId == id;
      assert rest[i].orderId == id;
    }
    forall i | 0 <= i < |rest| ensures rest[i].orderId in inflight - {jobs[|jobs| - 1].orderId} {
      assert HasJob(jobs, jobs[i].orderId);
    }
  }

  lemma StepKeepsJobs(s: State, step: Step)
    requires OneJobPerOrder(Jobs(s)) && InflightExact(Jobs(s), s.inflight) && Enabled(s, step)
    ensures OneJobPerOrder(Jobs(Do(s, step))) && InflightExact(Jobs(Do(s, step)), Do(s, step).inflight)
  {
    var jobs, jobs' := Jobs(s), Jobs(Do(s, step));
    if step == Mark && s.reader.evt.orderId !in s.inflight {
      assert jobs' == jobs + [Do(s, step).reader.job];
      AddJob(jobs, Do(s, step).reader.job, s.inflight);
    } else if step == AbandonSend {
      assert jobs' == jobs[..|jobs| - 1];
      DropLastJob(jobs, s.inflight);
    } else if step == Release {
      assert jobs' == jobs[1..];
      DropFirstJob(jobs, s.inflight);
    } else {
      OtherStepSameJobs(s, step);
    }
  }

  lemma OtherStepSameJobs(s: State, step: Step)
    requires Enabled(s, step) && step != AbandonSend && step != Release
    requires step == Mark ==> s.reader.evt.orderId in s.inflight
    ensures Jobs(Do(s, step)) == Jobs(s) && Do(s, step).inflight == s.inflight
  {
    var s' := Do(s, step);
    var busy := if s.worker.Waiting? then [] else [s.worker.job];
    if step == Send {
      assert Jobs(s) == busy + (s.queue + [s.reader.job]) + [];
    } else if step == Take {
      assert Jobs(s') == ([s.queue[0]] + s.queue[1..]) + (if s.reader.Sending? then [s.reader.job] else []);
      assert [s.queue[0]] + s.queue[1..] == s.queue;
    }
  }

  /** When each goroutine can move: the reader is held up by a full queue of 256 until the context ends. */
  lemma MovesExactly(s: State, id: OrderId)
    ensures Enabled(s, Send) <==> s.reader.Sending? && |s.queue| < 256
    ensures Enabled(s, AbandonSend) <==> s.reader.Sending? && s.cancelled
    ensures Enabled(s, Take) <==> s.worker.Waiting? && |s.queue| > 0
    ensures Enabled(s, Cancel) && Enabled(s, PrintedElsewhere(id))
  {
  }

  lemma StepKeepsBookkeeping(s: State, step: Step)
    requires Bookkeeping(s) && Enabled(s, step)
    ensures Bookkeeping(Do(s, step))
  {
    StepKeepsJobs(s, step);
  }

  /**
   * In every interleaving: inflight is exactly the orders queued, being sent or being processed, no
   * order has two outstanding jobs, the queue stays within its bound, and the dispatcher never prints
   * an order's ticket twice.
   */
  lemma {:induction false} RunKeepsBookkeeping(printed: set<OrderId>, states: seq<State>, steps: seq<Step>, i: nat)
    requires IsRun(printed, states, steps) && i < |states|
    ensures Bookkeeping(states[i])
    ensures forall id <- states[i].tickets :: states[i].tickets[id] <= 1
    ensures |states[i].queue| <= 256
    ensures forall id :: id in states[i].inflight <==>
      exists k :: 0 <= k < |Jobs(states[i])| && Jobs(states[i])[k].orderId == id
  {
    if i > 0 {
      RunKeepsBookkeeping(printed, states, steps, i - 1);
      StepKeepsBookkeeping(states[i - 1], steps[i - 1]);
    }
  }

  // ---------------------------------------------------------------- what is printed at all

  /** The step sights the order of the job, which came in online and is pending or accepted. */
  predicate Sights(step: Step, job: Job) {
    && step.Sight? && step.evt.orderId == job.orderId && step.evt.tableLabel == job.tableLabel
    && step.evt.orderId != "" && step.evt.source == "online_qr" && step.evt.status in {"pending", "accepted"}
  }

  ghost predicate SightedBefore(steps: seq<Step>, n: nat, job: Job) {
    n <= |steps| && exists k :: 0 <= k < n && Sights(steps[k], job)
  }

  ghost predicate JobsSighted(steps: seq<Step>, n: nat, s: State) {
    && (s.reader.Decided? ==> SightedBefore(steps, n, Job(s.reader.evt.orderId, s.reader.evt.tableLabel)))
    && (forall job <- Jobs(s) :: SightedBefore(steps, n, job))
    && (forall id <- s.tickets :: exists table :: SightedBefore(steps, n, Job(id, table)))
  }

  /**
   * What a sighting does: an order that came in online, is pending or accepted and not printed yet comes into
   * the reader's hand as owed; any other event changes nothing.
   */
  lemma SightMeans(s: State, evt: Event)
    requires s.reader.Reading?
    ensures Do(s, Sight(evt))
         == if evt.orderId != "" && evt.source == "online_qr" && evt.status in {"pending", "accepted"}
              && evt.orderId !in s.printed
            then s.(reader := Decided(evt), owed := s.owed + {evt.orderId}) else s
  {
  }

  lemma SightedLater(steps: seq<Step>, n: nat, job: Job)
    requires SightedBefore(steps, n, job) && n < |steps|
    ensures SightedBefore(steps, n + 1, job)
  {
  }

  lemma JobsComeFrom(s: State, step: Step, job: Job)
    requires Enabled(s, step) && job in Jobs(Do(s, step))
    ensures job in Jobs(s) || (step.Mark? && job == Job(s.reader.evt.orderId, s.reader.evt.tableLabel))
  {
    if step == AbandonSend || step == Release || (step == Mark && s.reader.evt.orderId !in s.inflight) {
    } else {
      OtherStepSameJobs(s, step);
    }
  }

  lemma StepKeepsJobsSighted(steps: seq<Step>, n: nat, s: State)
    requires n < |steps| && Enabled(s, steps[n]) && JobsSighted(steps, n, s)
    ensures JobsSighted(steps, n + 1, Do(s, steps[n]))
  {
    hide SightedBefore;
    var s' := Do(s, steps[n]);
    forall job: Job | SightedBefore(steps, n, job) ensures SightedBefore(steps, n + 1, job) {
      SightedLater(steps, n, job);
    }
    forall job <- Jobs(s') ensures SightedBefore(steps, n + 1, job) {
      JobsComeFrom(s, steps[n], job);
    }
    if steps[n].Sight? && s'.reader.Decided? {
      NewSighting(steps, n, s);
    }
    forall id <- s'.tickets ensures exists table :: SightedBefore(steps, n + 1, Job(id, table)) {
      if id in s.tickets {
        var table :| SightedBefore(steps, n, Job(id, table));
      } else {
        assert s.worker.job in Jobs(s) && SightedBefore(steps, n + 1, Job(id, s.worker.job.tableLabel));
      }
    }
  }

  lemma NewSighting(steps: seq<Step>, n: nat, s: State)
    requires n < |steps| && steps[n].Sight? && Enabled(s, steps[n]) && Do(s, steps[n]).reader.Decided?
    ensures var evt := Do(s, steps[n]).reader.evt; SightedBefore(steps, n + 1, Job(evt.orderId, evt.tableLabel))
  {
    SightMeans(s, steps[n].evt);
    assert Sights(steps[n], Job(steps[n].evt.orderId, steps[n].evt.tableLabel));
  }

  /**
   * In every run, whatever is queued, being sent, being printed or counted as printed by the dispatcher was
   * sighted before as an online order, pending or accepted, with that table label; nothing else is ever printed.
   */
  lemma {:induction false} OnlySightedOrders(printed: set<OrderId>, states: seq<State>, steps: seq<Step>, n: nat)
    requires IsRun(printed, states, steps) && n < |states|
    ensures JobsSighted(steps, n, states[n])
  {
    if n > 0 {
      OnlySightedOrders(printed, states, steps, n - 1);
      StepKeepsJobsSighted(steps, n - 1, states[n - 1]);
    }
  }

  // ---------------------------------------------------------------- owed sightings

  /** A job for the order is outstanding and its print decision has not concluded. */
  ghost predicate Pending(s: State, id: OrderId) {
    || ((s.worker.Taken? || s.worker.Printing?) && s.worker.job.orderId == id)
    || (exists i :: 0 <= i < |s.queue| && s.queue[i].orderId == id)
    || (s.reader.Sending? && s.reader.job.orderId == id)
  }

  ghost predicate InHand(s: State, id: OrderId) {
    s.reader.Decided? && s.reader.evt.orderId == id
  }

  /**
   * Until the context ends, an owed order is in the reader's hand, pending, or swallowed; and a
   * sighting of an order the worker is finishing is still owed only if that print failed.
   */
  ghost predicate NothingOwedLost(s: State) {
    && (!s.cancelled ==> forall id <- s.owed :: InHand(s, id) || Pending(s, id) || id in s.swallowed)
    && (s.swallowed <= s.owed)
    && (s.worker.Finishing? && s.worker.job.orderId in s.owed && InHand(s, s.worker.job.orderId) ==>
      s.worker.outcome == Failed)
    && (s.worker.Finishing? && s.worker.outcome != Failed ==> s.worker.job.orderId in s.printed)
  }

  lemma InflightIsPendingOrFinishing(s: State, id: OrderId)
    requires InflightExact(Jobs(s), s.inflight)
    ensures id in s.inflight <==> Pending(s, id) || (s.worker.Finishing? && s.worker.job.orderId == id)
  {
    if id in s.inflight {
      var i :| 0 <= i < |Jobs(s)| && Jobs(s)[i].orderId == id;
      var n := if s.worker.Waiting? then 0 else 1;
      if n <= i < n + |s.queue| {
        assert s.queue[i - n].orderId == id;
      }
    }
    if Pending(s, id) {
      var n := if s.worker.Waiting? then 0 else 1;
      if i :| 0 <= i < |s.queue| && s.queue[i].orderId == id {
        assert Jobs(s)[n + i].orderId == id;
      } else if s.reader.Sending? && s.reader.job.orderId == id {
        assert Jobs(s)[n + |s.queue|].orderId == id;
      } else {
        assert Jobs(s)[0].orderId == id;
      }
    } else if s.worker.Finishing? && s.worker.job.orderId == id {
      assert Jobs(s)[0].orderId == id;
    }
  }

  /**
   * A sighting that reaches the inflight test leaves a pending job behind exactly unless it meets the
   * finishing window.
   */
  lemma SightingKeptExactly(s: State)
    requires Bookkeeping(s) && Enabled(s, Mark)
    ensures Pending(Do(s, Mark), s.reader.evt.orderId)
       <==> !(s.worker.Finishing? && s.worker.job.orderId == s.reader.evt.orderId)
  {
    var id := s.reader.evt.orderId;
    var s' := Do(s, Mark);
    InflightIsPendingOrFinishing(s, id);
    if s.worker.Finishing? && s.worker.job.orderId == id {
      assert Jobs(s)[0].orderId == id;
      forall i | 0 <= i < |s.queue| ensures s.queue[i].orderId != id {
        assert Jobs(s)[1 + i] == s.queue[i];
      }
    }
  }

  lemma PendingSurvives(s: State, step: Step, id: OrderId)
    requires Bookkeeping(s) && Enabled(s, step) && Pending(s, id)
    requires step != AbandonSend
    ensures Pending(Do(s, step), id) || (Do(s, step).worker.Finishing? && id !in Do(s, step).owed)
  {
    var s' := Do(s, step);
    if i :| 0 <= i < |s.queue| && s.queue[i].orderId == id {
      if step != Take {
        assert s'.queue[i].orderId == id;
      } else if i > 0 {
        assert s'.queue[i - 1].orderId == id;
      }
    } else if s.reader.Sending? && step == Send {
      assert s'.queue[|s.queue|] == s.reader.job;
    }
  }

  lemma MarkKeepsOwed(s: State)
    requires Bookkeeping(s) && NothingOwedLost(s) && Enabled(s, Mark)
    ensures NothingOwedLost(Do(s, Mark))
  {
    var s' := Do(s, Mark);
    SightingKeptExactly(s);
    if !s.cancelled {
      forall id <- s'.owed ensures InHand(s', id) || Pending(s', id) || id in s'.swallowed {
        if Pending(s, id) {
          PendingSurvives(s, Mark, id);
        } else if InHand(s, id) {
          InflightIsPendingOrFinishing(s, id);
        }
      }
    }
  }

  lemma StepKeepsOwed(s: State, step: Step)
    requires Bookkeeping(s) && NothingOwedLost(s) && Enabled(s, step)
    ensures NothingOwedLost(Do(s, step))
  {
    var s' := Do(s, step);
    if step == Mark {
      MarkKeepsOwed(s);
    } else if !s'.cancelled {
      forall id <- s'.owed ensures InHand(s', id) || Pending(s', id) || id in s'.swallowed {
        if Pending(s, id) {
          PendingSurvives(s, step, id);
        }
      }
    }
  }

  /**
   * In every interleaving, until the context ends: an owed sighting is never dropped, except one of
   * an order whose failed print the worker is just finishing.
   */
  lemma {:induction false} RunKeepsOwed(printed: set<OrderId>, states: seq<State>, steps: seq<Step>, i: nat)
    requires IsRun(printed, states, steps) && i < |states|
    ensures NothingOwedLost(states[i])
    ensures i < |steps| ==> forall id | id in states[i + 1].swallowed && id !in states[i].swallowed ::
      && steps[i] == Mark && InHand(states[i], id)
      && states[i].worker.Finishing? && states[i].worker.job.orderId == id && states[i].worker.outcome == Failed
  {
    if i > 0 {
      RunKeepsOwed(printed, states, steps, i - 1);
      RunKeepsBookkeeping(printed, states, steps, i - 1);
      StepKeepsOwed(states[i - 1], steps[i - 1]);
    }
  }

  /** Owed, and nobody is going to print it: neither in the reader's hand nor pending. */
  ghost predicate Lost(s: State, id: OrderId) {
    id in s.owed && !InHand(s, id) && !Pending(s, id)
  }

  /** The reader drops an owed order: in the window after its failed print, or because the context has ended. */
  predicate Drops(s: State, step: Step, id: OrderId) {
    && id in s.owed
    && ((step == Mark && s.reader.Decided? && s.reader.evt.orderId == id
         && s.worker.Finishing? && s.worker.outcome == Failed && s.worker.job.orderId == id)
        || (step == AbandonSend && s.reader.Sending? && s.reader.job.orderId == id))
  }

  lemma AbandonedIsGone(s: State)
    requires Bookkeeping(s) && Enabled(s, AbandonSend)
    ensures !Pending(Do(s, AbandonSend), s.reader.job.orderId)
  {
    var n := if s.worker.Waiting? then 0 else 1;
    assert Jobs(s)[n + |s.queue|] == s.reader.job;
    assert n == 1 ==> Jobs(s)[0] == s.worker.job;
    forall i | 0 <= i < |s.queue| ensures s.queue[i].orderId != s.reader.job.orderId {
      assert Jobs(s)[n + i] == s.queue[i];
    }
  }

  /** An owed order gets lost in a step exactly when the reader drops it there. */
  lemma StepLosesExactly(s: State, step: Step, id: OrderId)
    requires Bookkeeping(s) && NothingOwedLost(s) && Enabled(s, step) && !Lost(s, id)
    ensures Lost(Do(s, step), id) <==> Drops(s, step, id)
  {
    if step == AbandonSend {
      AbandonedIsGone(s);
    } else if Pending(s, id) {
      PendingSurvives(s, step, id);
      InflightIsPendingOrFinishing(s, id);
      if step == Mark && s.reader.evt.orderId == id {
        SightingKeptExactly(s);
      }
    } else if step == Mark && InHand(s, id) {
      SightingKeptExactly(s);
    }
  }

  /**
   * Over every run: an owed order is left without anybody to print it at some point if and only if the
   * reader drops it, in the window between its failed print and the release or by giving up its send.
   */
  lemma {:induction false} OwedLostExactly(printed: set<OrderId>, states: seq<State>, steps: seq<Step>, n: nat,
                                           id: OrderId)
    requires IsRun(printed, states, steps) && n < |states|
    ensures (exists i :: 0 <= i <= n && Lost(states[i], id)) <==>
      (exists i :: 0 <= i < n && Drops(states[i], steps[i], id))
  {
    hide Do;
    hide Lost;
    hide Drops;
    if n == 0 {
      NothingOwedAtStart(printed, id);
    } else {
      OwedLostExactly(printed, states, steps, n - 1, id);
      RunKeepsBookkeeping(printed, states, steps, n - 1);
      RunKeepsOwed(printed, states, steps, n - 1);
      if Lost(states[n - 1], id) {
        var i :| 0 <= i < n - 1 && Drops(states[i], steps[i], id);
        assert 0 <= n - 1 <= n && 0 <= i < n;
      } else {
        StepLosesExactly(states[n - 1], steps[n - 1], id);
        assert states[n] == Do(states[n - 1], steps[n - 1]);
        assert Lost(states[n], id) <==> Drops(states[n - 1], steps[n - 1], id);
      }
    }
  }

  lemma NothingOwedAtStart(printed: set<OrderId>, id: OrderId)
    ensures !Lost(Started(printed), id)
  {
  }

  /**
   * The limit is real: the print of order "q" fails, the order is sighted again before the worker
   * releases it, and both goroutines come to rest with the order neither printed nor outstanding.
   */
  lemma SwallowedSighting() returns (states: seq<State>, steps: seq<Step>)
    ensures IsRun({}, states, steps) && |states| == 10
    ensures var s := states[9]; var id := "q";
      && s.reader.Reading? && s.worker.Waiting? && s.queue == [] && s.inflight == {} && !s.cancelled
      && id in s.swallowed && id !in s.printed && Lost(s, id)
  {
    hide Do;
    hide Enabled;
    hide IsRun;
    var evt := Event("q", "", SOURCE_ONLINE_QR, "pending");
    var job := Job("q", "");
    var s0 := Started({});
    var s1 := s0.(reader := Decided(evt), owed := {"q"});
    var s2 := s1.(reader := Sending(job), inflight := {"q"});
    var s3 := s2.(reader := Reading, queue := [job]);
    var s4 := s3.(worker := Taken(job), queue := []);
    var s5 := s4.(worker := Printing(job));
    var s6 := s5.(worker := Finishing(job, Failed), owed := {});
    var s7 := s6.(reader := Decided(evt), owed := {"q"});
    var s8 := s7.(reader := Reading, swallowed := {"q"});
    var s9 := s8.(worker := Waiting, inflight := {});
    states := [s0, s1, s2, s3, s4, s5, s6, s7, s8, s9];
    steps := [Sight(evt), Mark, Send, Take, Check, PrintReturns(false), Sight(evt), Mark, Release];
    SwallowedFirst(evt, job, s0, s1, s2, s3, s4, s5);
    SwallowedLater(evt, job, s5, s6, s7, s8, s9);
    NineSteps(states, steps);
  }

  lemma NineSteps(states: seq<State>, steps: seq<Step>)
    requires |states| == 10 && |steps| == 9 && states[0] == Started({})
    requires Enabled(states[0], steps[0]) && states[1] == Do(states[0], steps[0])
    requires Enabled(states[1], steps[1]) && states[2] == Do(states[1], steps[1])
    requires Enabled(states[2], steps[2]) && states[3] == Do(states[2], steps[2])
    requires Enabled(states[3], steps[3]) && states[4] == Do(states[3], steps[3])
    requires Enabled(states[4], steps[4]) && states[5] == Do(states[4], steps[4])
    requires Enabled(states[5], steps[5]) && states[6] == Do(states[5], steps[5])
    requires Enabled(states[6], steps[6]) && states[7] == Do(states[6], steps[6])
    requires Enabled(states[7], steps[7]) && states[8] == Do(states[7], steps[7])
    requires Enabled(states[8], steps[8]) && states[9] == Do(states[8], steps[8])
    ensures IsRun({}, states, steps)
  {
    hide Do;
    hide Enabled;
  }

  /** The first half: the order is sighted, queued and taken. */
  lemma SwallowedFirst(evt: Event, job: Job, s0: State, s1: State, s2: State, s3: State, s4: State, s5: State)
    requires evt == Event("q", "", SOURCE_ONLINE_QR, "pending") && job == Job("q", "")
    requires s0 == Started({}) && s1 == s0.(reader := Decided(evt), owed := {"q"})
    requires s2 == s1.(reader := Sending(job), inflight := {"q"}) && s3 == s2.(reader := Reading, queue := [job])
    requires s4 == s3.(worker := Taken(job), queue := []) && s5 == s4.(worker := Printing(job))
    ensures Enabled(s0, Sight(evt)) && s1 == Do(s0, Sight(evt))
    ensures Enabled(s1, Mark) && s2 == Do(s1, Mark)
    ensures Enabled(s2, Send) && s3 == Do(s2, Send)
    ensures Enabled(s3, Take) && s4 == Do(s3, Take)
    ensures Enabled(s4, Check) && s5 == Do(s4, Check)
  {
    assert [job][0] == job && [job][1..] == [];
  }

  /** The second half: the failed print, the second sighting, and the release that comes too late. */
  lemma SwallowedLater(evt: Event, job: Job, s5: State, s6: State, s7: State, s8: State, s9: State)
    requires evt == Event("q", "", SOURCE_ONLINE_QR, "pending") && job == Job("q", "")
    requires s5 == Started({}).(inflight := {"q"}, owed := {"q"}, worker := Printing(job))
    requires s6 == s5.(worker := Finishing(job, Failed), owed := {})
    requires s7 == s6.(reader := Decided(evt), owed := {"q"})
    requires s8 == s7.(reader := Reading, swallowed := {"q"})
    requires s9 == s8.(worker := Waiting, inflight := {})
    ensures Enabled(s5, PrintReturns(false)) && s6 == Do(s5, PrintReturns(false))
    ensures Enabled(s6, Sight(evt)) && s7 == Do(s6, Sight(evt))
    ensures Enabled(s7, Mark) && s8 == Do(s7, Mark)
    ensures Enabled(s8, Release) && s9 == Do(s8, Release)
  {
  }

  // ---------------------------------------------------------------- each goroutine on its own

  /** `enqueue` while the worker does not move; `sends` tells which arm of its select fires. */
  function EnqueueAlone(s: State, evt: Event, sends: bool): State
    requires s.reader.Reading?
    requires if sends then |s.queue| < QUEUE_SIZE else s.cancelled
  {
    var decided := Do(s, Sight(evt));
    if decided.reader.Reading? then decided
    else
      var marked := Do(decided, Mark);
      if marked.reader.Reading? then marked
      else if sends then Do(marked, Send)
      else Do(marked, AbandonSend).(reader := Reading)
  }

  /** One turn of `printLoop` while the reader does not move. */
  function PrintAlone(s: State, ok: bool): State
    requires s.worker.Waiting? && s.queue != []
  {
    var checked := Do(Do(s, Take), Check);
    Do(if checked.worker.Printing? then Do(checked, PrintReturns(ok)) else checked, Release)
  }

  class Dispatcher {
    var printed: set<OrderId>
    var inflight: set<OrderId>
    var queue: seq<Job>
    var cancelled: bool
    ghost var tickets: map<OrderId, nat>
    ghost var owed: set<OrderId>
    ghost var swallowed: set<OrderId>

    constructor (known: set<OrderId>)
      ensures View() == Started(known)
    {
      printed, inflight, queue, cancelled := known, {}, [], false;
      tickets, owed, swallowed := map[], {}, {};
    }

    /** The dispatcher between two turns of its goroutines. */
    ghost function View(): State
      reads this
    {
      State(printed, inflight, queue, Reading, Waiting, cancelled, tickets, owed, swallowed)
    }

    method Enqueue(evt: Event, sends: bool) returns (more: bool)
      requires if sends then |queue| < QUEUE_SIZE else cancelled
      modifies this
      ensures View() == EnqueueAlone(old(View()), evt, sends)
      ensures !more ==> cancelled && View().inflight == old(View().inflight)
    {
      if !ShouldPrint(printed, evt) {
        return true;
      }
      owed := owed + {evt.orderId};
      if evt.orderId in inflight {
        return true;
      }
      inflight := inflight + {evt.orderId};
      if sends {
        queue := queue + [Job(evt.orderId, evt.tableLabel)];
        return true;
      }
      inflight := inflight - {evt.orderId};
      return false;
    }

    method PrintNext(ok: bool)
      requires queue != []
      modifies this
      ensures View() == PrintAlone(old(View()), ok)
    {
      var job := queue[0];
      queue := queue[1..];
      if job.orderId !in printed && ok {
        printed := printed + {job.orderId};
        tickets := tickets[job.orderId := (if job.orderId in tickets then tickets[job.orderId] else 0) + 1];
      }
      owed, swallowed := owed - {job.orderId}, swallowed - {job.orderId};
      inflight := inflight - {job.orderId};
    }

    /** The worker empties the queue while nothing new arrives; `ok` is the printer's answer to each attempt. */
    method DrainQueue(ok: bool)
      modifies this
      ensures View() == DrainAlone(old(View()), ok)
    {
      ghost var start := View();
      while queue != []
        invariant DrainAlone(View(), ok) == DrainAlone(start, ok)
        decreases |queue|
      {
        PrintNext(ok);
      }
    }
  }

  function DrainAlone(s: State, ok: bool): State
    requires s.worker.Waiting?
    decreases |s.queue|
  {
    if s.queue == [] then s else DrainAlone(PrintAlone(s, ok), ok)
  }

  /**
   * Queued orders do reach the printer: when the worker drains the queue and the printer works, every
   * queued order ends up printed, nothing queued stays owed, and inflight keeps only the reader's order.
   */
  lemma {:induction false} DrainPrintsAll(s: State)
    requires Bookkeeping(s) && s.worker.Waiting?
    ensures var s' := DrainAlone(s, true);
      && s'.queue == [] && s'.reader == s.reader && s.printed <= s'.printed
      && (forall i :: 0 <= i < |s.queue| ==> s.queue[i].orderId in s'.printed && s.queue[i].orderId !in s'.owed)
      && (forall id :: id in s'.inflight <==> s.reader.Sending? && s.reader.job.orderId == id)
    decreases |s.queue|
  {
    if s.queue == [] {
      InflightIsJobs(s);
    } else {
      var next := PrintAlone(s, true);
      PrintAloneKeepsBookkeeping(s, true);
      DrainPrintsAll(next);
      DrainOwesLess(next, true);
      forall i | 0 <= i < |s.queue|
        ensures s.queue[i].orderId in DrainAlone(s, true).printed && s.queue[i].orderId !in DrainAlone(s, true).owed
      {
        if i > 0 {
          assert next.queue[i - 1] == s.queue[i];
        }
      }
    }
  }

  lemma InflightIsJobs(s: State)
    requires Bookkeeping(s) && s.worker.Waiting? && s.queue == []
    ensures forall id :: id in s.inflight <==> s.reader.Sending? && s.reader.job.orderId == id
  {
    forall id ensures HasJob(Jobs(s), id) <==> s.reader.Sending? && s.reader.job.orderId == id {
      if s.reader.Sending? {
        assert Jobs(s)[0] == s.reader.job;
      }
    }
  }

  lemma PrintAloneKeepsBookkeeping(s: State, ok: bool)
    requires Bookkeeping(s) && s.worker.Waiting? && s.queue != []
    ensures Bookkeeping(PrintAlone(s, ok))
  {
    StepKeepsBookkeeping(s, Take);
    StepKeepsBookkeeping(Do(s, Take), Check);
    var checked := Do(Do(s, Take), Check);
    if checked.worker.Printing? {
      StepKeepsBookkeeping(checked, PrintReturns(ok));
      StepKeepsBookkeeping(Do(checked, PrintReturns(ok)), Release);
    } else {
      StepKeepsBookkeeping(checked, Release);
    }
  }

  lemma {:induction false} DrainOwesLess(s: State, ok: bool)
    requires s.worker.Waiting?
    ensures DrainAlone(s, ok).owed <= s.owed
    decreases |s.queue|
  {
    if s.queue != [] {
      DrainOwesLess(PrintAlone(s, ok), ok);
    }
  }
}
