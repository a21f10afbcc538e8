// Which result a run of the parallel hasher reports, and why: the outcome of every
// complete run is a function of the answers its environment gave.

module HashOutcomes {
  import opened Wrappers
  import opened HashMachine
  import opened HashRuns

  // ------------------------------------------------------------ causes of an outcome

  /** In this step the last job asks whether the future was cancelled. */
  predicate Asks(s: State, e: Event) {
    (e.ReaderFinishes? || e.ProcessorFinishes?) && s.runningJobs == 1 && !s.errorOccurred && !s.readingFinished
  }

  /** Somewhere in the run the question was asked and the answer was yes. */
  ghost predicate CancelAnswered(j: Job, s: State, events: seq<Event>)
    requires IsRun(j, s, events)
    decreases |events|
  {
    events != [] &&
    ((Asks(s, events[0]) && IsCancelled(events[0])) || CancelAnswered(j, Apply(j, s, events[0]), events[1..]))
  }

  /** The result that the answers given in a run call for. */
  ghost function Verdict(j: Job, s: State, events: seq<Event>): Outcome
    requires ValidJob(j) && IsRun(j, s, events)
  {
    if ReaderReadFails in events then ReadError
    else if CancelAnswered(j, s, events) then Cancelled
    else Hashes(Expected(j))
  }

  /** failed and cancelled say what has happened so far, and the state shows it. */
  ghost predicate Traced(s: State, failed: bool, cancelled: bool) {
    && (failed <==> s.errorOccurred || s.reader.ReaderFailed?)
    && (cancelled <==> Cancelled in s.reported)
    && (ReadError in s.reported <==> s.errorOccurred)
  }

  lemma StepIsTraced(j: Job, s: State, e: Event, failed: bool, cancelled: bool)
    requires Inv(j, s) && Enabled(j, s, e) && Traced(s, failed, cancelled)
    ensures Traced(Apply(j, s, e), failed || e == ReaderReadFails, cancelled || (Asks(s, e) && IsCancelled(e)))
  {
    hide DataInv, OutcomeInv, HashesOf, StartAll, Resize;
    BusyBounds(s.processors);
    if e.ProcessorFinishes? {
      BusyUpdate(s.processors, e.i, s.processors[e.i].(phase := Idle));
    }
  }

  lemma {:induction false} RunIsTraced(j: Job, s: State, events: seq<Event>, failed: bool, cancelled: bool)
    requires Inv(j, s) && IsRun(j, s, events) && Traced(s, failed, cancelled)
    ensures Traced(After(j, s, events), failed || ReaderReadFails in events, cancelled || CancelAnswered(j, s, events))
    decreases |events|
  {
    hide Inv, Traced, Apply, Enabled;
    if events != [] {
      StepIsTraced(j, s, events[0], failed, cancelled);
      StepKeepsInv(j, s, events[0]);
      RunIsTraced(j, Apply(j, s, events[0]), events[1..],
                  failed || events[0] == ReaderReadFails, cancelled || (Asks(s, events[0]) && IsCancelled(events[0])));
      assert events == [events[0]] + events[1..];
    }
  }

  /** Nothing has been reported and no read has failed yet. */
  predicate Undecided(s: State) { s.reported == [] && !s.errorOccurred && !s.reader.ReaderFailed? }

  lemma ReportedAtRest(j: Job, t: State, failed: bool, cancelled: bool)
    requires Inv(j, t) && Quiescent(j, t) && j.algorithms != [] && Traced(t, failed, cancelled)
    ensures t.reported == [if failed then ReadError else if cancelled then Cancelled else Hashes(Expected(j))]
  {
    QuiescentMeansReported(j, t);
    hide DataInv;
    assert Enabled(j, t, ReaderReportsError) ==> !Cooperative(j, t, ReaderReportsError);
    assert t.reported[0] in t.reported;
    assert t.reported == [t.reported[0]];
  }

  /**
   * Main result on outcomes.  A run that has come to rest has reported the read error if a read failed; otherwise
   * the cancellation if the question was answered yes; otherwise the hashes of all bytes.
   */
  lemma OutcomeIsDetermined(j: Job, s: State, events: seq<Event>)
    requires Inv(j, s) && Undecided(s) && j.algorithms != []
    requires IsRun(j, s, events) && Quiescent(j, After(j, s, events))
    ensures After(j, s, events).reported == [Verdict(j, s, events)]
  {
    hide Inv, IsRun, After, CancelAnswered, Quiescent;
    RunKeepsInv(j, s, events);
    assert Traced(s, false, false);
    RunIsTraced(j, s, events, false, false);
    ReportedAtRest(j, After(j, s, events), ReaderReadFails in events, CancelAnswered(j, s, events));
  }

  /** In particular, a run in which no read fails and no answer is "cancelled" ends with the hashes. */
  lemma CalmRunsSucceed(j: Job, readCapacity: nat, processCapacity: nat, events: seq<Event>)
    requires ValidStart(j, readCapacity, processCapacity) && j.algorithms != []
    requires IsRun(j, Init(j, readCapacity, processCapacity), events)
    requires Quiescent(j, After(j, Init(j, readCapacity, processCapacity), events))
    requires forall e :: e in events ==> e != ReaderReadFails && !IsCancelled(e)
    ensures After(j, Init(j, readCapacity, processCapacity), events).reported == [Hashes(Expected(j))]
  {
    var s := Init(j, readCapacity, processCapacity);
    InitKeepsInv(j, readCapacity, processCapacity);
    OutcomeIsDetermined(j, s, events);
    if CancelAnswered(j, s, events) { CancelHasCause(j, s, events); }
  }

  lemma {:induction false} CancelHasCause(j: Job, s: State, events: seq<Event>)
    requires IsRun(j, s, events) && CancelAnswered(j, s, events)
    ensures exists e :: e in events && IsCancelled(e)
    decreases |events|
  {
    if Asks(s, events[0]) && IsCancelled(events[0]) {
      assert events[0] in events;
    } else {
      CancelHasCause(j, Apply(j, s, events[0]), events[1..]);
      var e :| e in events[1..] && IsCancelled(e);
      assert e in events;
    }
  }

  // ---------------------------------------------------------------- scheduled runs

  /**
   * The environment: the step the pool, the device and the caller propose at each moment.  It decides which job
   * goes on, how much is read or hashed, whether the read fails and whether the future is cancelled.
   */
  type Pool = nat -> Event

  /** The proposed step if it is possible, else the default one. */
  function Scheduled(j: Job, s: State, proposal: Event): Event
    requires Inv(j, s)
  {
    if Enabled(j, s, proposal) && Cooperative(j, s, proposal) then proposal else DefaultStep(j, s)
  }

  lemma ScheduledIsPossible(j: Job, s: State, proposal: Event)
    requires Inv(j, s) && Outstanding(s) > 0
    ensures Enabled(j, s, Scheduled(j, s, proposal)) && Cooperative(j, s, Scheduled(j, s, proposal))
  {
    OutstandingJobsCanStep(j, s);
  }

  /** The run of a pool from moment k on, until no job is outstanding. */
  ghost function Trace(j: Job, s: State, pool: Pool, k: nat): (events: seq<Event>)
    requires Inv(j, s)
    ensures IsRun(j, s, events) && IsCooperativeRun(j, s, events) && Outstanding(After(j, s, events)) == 0
    decreases Measure(j, s)
  {
    if Outstanding(s) == 0 then []
    else
      ScheduledIsPossible(j, s, pool(k));
      var e := Scheduled(j, s, pool(k));
      StepDecreasesMeasure(j, s, e);
      StepKeepsInv(j, s, e);
      var rest := Trace(j, Apply(j, s, e), pool, k + 1);
      assert ([e] + rest)[1..] == rest;
      [e] + rest
  }

  lemma TraceStep(j: Job, s: State, pool: Pool, k: nat) returns (e: Event)
    requires Inv(j, s) && Outstanding(s) > 0
    ensures e == Scheduled(j, s, pool(k)) && Enabled(j, s, e) && Cooperative(j, s, e)
    ensures Inv(j, Apply(j, s, e)) && Measure(j, Apply(j, s, e)) < Measure(j, s)
    ensures Trace(j, s, pool, k) == [e] + Trace(j, Apply(j, s, e), pool, k + 1)
  {
    hide Inv, Measure, Apply, Enabled, Cooperative;
    e := Scheduled(j, s, pool(k));
    ScheduledIsPossible(j, s, pool(k));
    StepDecreasesMeasure(j, s, e);
    StepKeepsInv(j, s, e);
  }

  /** What the generator reports when it is started in this state and run by this pool. */
  ghost function RunOutcome(j: Job, s: State, pool: Pool): Outcome
    requires Inv(j, s)
  {
    Verdict(j, s, Trace(j, s, pool, 0))
  }

  predicate NeverFails(pool: Pool, k: nat) { pool(k) != ReaderReadFails }

  predicate NeverCancels(pool: Pool, k: nat) { !IsCancelled(pool(k)) }

  ghost predicate Reliable(pool: Pool) { forall k :: NeverFails(pool, k) }

  ghost predicate Uncancelled(pool: Pool) { forall k :: NeverCancels(pool, k) }

  lemma {:induction false} TraceHasCause(j: Job, s: State, pool: Pool, k: nat)
    requires Inv(j, s)
    ensures Reliable(pool) ==> ReaderReadFails !in Trace(j, s, pool, k)
    ensures Uncancelled(pool) ==> !CancelAnswered(j, s, Trace(j, s, pool, k))
    decreases Measure(j, s)
  {
    if Outstanding(s) > 0 {
      hide Inv, Measure, Apply, Enabled, Cooperative;
      OutstandingJobsCanStep(j, s);
      assert NeverFails(pool, k) ==> Scheduled(j, s, pool(k)) != ReaderReadFails;
      assert NeverCancels(pool, k) ==> !IsCancelled(Scheduled(j, s, pool(k)));
      hide Trace;
      var e := TraceStep(j, s, pool, k);
      TraceHasCause(j, Apply(j, s, e), pool, k + 1);
      var rest := Trace(j, Apply(j, s, e), pool, k + 1);
      assert ([e] + rest)[1..] == rest;
    } else {
      assert Trace(j, s, pool, k) == [];
    }
  }

  /** From moment k on the pool proposes these events. */
  ghost predicate Proposes(pool: Pool, k: nat, events: seq<Event>)
    decreases |events|
  {
    events == [] || (pool(k) == events[0] && Proposes(pool, k + 1, events[1..]))
  }

  /** Every run of a cooperative device is the run of some pool, so a statement about all pools covers all of them. */
  lemma {:induction false} EveryRunIsScheduled(j: Job, s: State, events: seq<Event>, pool: Pool, k: nat)
    requires Inv(j, s) && IsCooperativeRun(j, s, events)
    requires IsRun(j, s, events) && Outstanding(After(j, s, events)) == 0
    requires Proposes(pool, k, events)
    ensures Trace(j, s, pool, k) == events
    decreases |events|
  {
    if events == [] {
      assert Outstanding(s) == 0;
    } else {
      RunTail(j, s, events);
      hide Inv, Apply, Enabled, Cooperative, Outstanding, Scheduled, Trace, IsRun, IsCooperativeRun, After, Measure;
      var e := TraceStep(j, s, pool, k);
      EveryRunIsScheduled(j, Apply(j, s, e), events[1..], pool, k + 1);
      assert events == [events[0]] + events[1..];
    }
  }

  lemma RunTail(j: Job, s: State, events: seq<Event>)
    requires Inv(j, s) && IsCooperativeRun(j, s, events) && IsRun(j, s, events)
    requires Outstanding(After(j, s, events)) == 0 && events != []
    ensures Outstanding(s) > 0 && Scheduled(j, s, events[0]) == events[0] && Enabled(j, s, events[0])
    ensures var t := Apply(j, s, events[0]);
            IsCooperativeRun(j, t, events[1..]) && IsRun(j, t, events[1..]) && Outstanding(After(j, t, events[1..])) == 0
  {
    EnabledIsOutstanding(j, s, events[0]);
    hide Inv, Apply, Enabled, Cooperative, Outstanding;
  }

  lemma EnabledIsOutstanding(j: Job, s: State, e: Event)
    requires Inv(j, s)
    ensures Enabled(j, s, e) ==> Outstanding(s) > 0
  {
    BusyBounds(s.processors);
  }

  lemma AtRestIsQuiescent(j: Job, s: State)
    requires Inv(j, s) && Outstanding(s) == 0
    ensures Quiescent(j, s)
  {
    forall e ensures !Enabled(j, s, e) { EnabledIsOutstanding(j, s, e); }
  }

  /** The generator comes to rest having reported exactly its outcome, whatever the pool does. */
  lemma PoolOutcome(j: Job, s: State, pool: Pool)
    requires Inv(j, s) && Undecided(s) && j.algorithms != []
    ensures After(j, s, Trace(j, s, pool, 0)).reported == [RunOutcome(j, s, pool)]
    ensures Reliable(pool) ==> RunOutcome(j, s, pool) != ReadError
    ensures Uncancelled(pool) ==> RunOutcome(j, s, pool) != Cancelled
  {
    hide Inv, Trace, Quiescent;
    var events := Trace(j, s, pool, 0);
    RunKeepsInv(j, s, events);
    AtRestIsQuiescent(j, After(j, s, events));
    OutcomeIsDetermined(j, s, events);
    TraceHasCause(j, s, pool, 0);
  }
}
