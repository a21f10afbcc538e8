// What every run of the parallel hasher guarantees: the invariant over whole runs,
// exactness of the reported hashes, exclusive use of the buffers, safe use of the
// device, and termination with exactly one result.

module HashRuns {
  import opened HashMachine

  // ------------------------------------------------------------------ safety

  lemma {:induction false} RunKeepsInv(j: Job, s: State, events: seq<Event>)
    requires Inv(j, s) && IsRun(j, s, events)
    ensures Inv(j, After(j, s, events))
    decreases |events|
  {
    if events != [] {
      StepKeepsInv(j, s, events[0]);
      RunKeepsInv(j, Apply(j, s, events[0]), events[1..]);
    }
  }

  ghost predicate ValidStart(j: Job, readCapacity: nat, processCapacity: nat) {
    ValidJob(j) && readCapacity + processCapacity > 0
  }

  /** In every interleaving and for every chunking, reported hashes cover exactly the device's bytes. */
  lemma ReportedHashesAreExact(j: Job, readCapacity: nat, processCapacity: nat, events: seq<Event>)
    requires ValidStart(j, readCapacity, processCapacity)
    requires IsRun(j, Init(j, readCapacity, processCapacity), events)
    ensures forall outcome :: outcome in After(j, Init(j, readCapacity, processCapacity), events).reported ==>
              outcome == Hashes(Expected(j)) || outcome == Cancelled || outcome == ReadError
  {
    InitKeepsInv(j, readCapacity, processCapacity);
    RunKeepsInv(j, Init(j, readCapacity, processCapacity), events);
  }

  /** At every moment of every run each hash job has consumed a prefix of the bytes read so far, in order. */
  lemma HashedBytesAreAPrefix(j: Job, readCapacity: nat, processCapacity: nat, events: seq<Event>, i: nat)
    requires ValidStart(j, readCapacity, processCapacity) && i < |j.algorithms|
    requires IsRun(j, Init(j, readCapacity, processCapacity), events)
    ensures var s := After(j, Init(j, readCapacity, processCapacity), events);
            |s.processors| == |j.algorithms| && j.start <= s.pos <= |j.data| &&
            s.processors[i].fed <= j.data[j.start..s.pos]
  {
    InitKeepsInv(j, readCapacity, processCapacity);
    RunKeepsInv(j, Init(j, readCapacity, processCapacity), events);
    var s := After(j, Init(j, readCapacity, processCapacity), events);
    assert Consumed(j, Base(s), |s.processBuffer|, s.processors[i]);
  }

  /** The counter always equals the number of outstanding jobs, and at most one result is reported. */
  lemma CounterIsOutstandingJobs(j: Job, readCapacity: nat, processCapacity: nat, events: seq<Event>)
    requires ValidStart(j, readCapacity, processCapacity)
    requires IsRun(j, Init(j, readCapacity, processCapacity), events)
    ensures var s := After(j, Init(j, readCapacity, processCapacity), events);
            s.runningJobs == Outstanding(s) && |s.reported| <= 1 && (s.deleted ==> |s.reported| == 1)
  {
    InitKeepsInv(j, readCapacity, processCapacity);
    RunKeepsInv(j, Init(j, readCapacity, processCapacity), events);
  }

  /** The device pointer is only dereferenced, or moved, while the generator still owns the device. */
  lemma DeviceIsNeverTouchedAfterMove(j: Job, readCapacity: nat, processCapacity: nat, events: seq<Event>, e: Event)
    requires ValidStart(j, readCapacity, processCapacity)
    requires IsRun(j, Init(j, readCapacity, processCapacity), events)
    requires Enabled(j, After(j, Init(j, readCapacity, processCapacity), events), e)
    ensures var s := After(j, Init(j, readCapacity, processCapacity), events);
            TouchesDevice(s, e) || Apply(j, s, e).reported != s.reported ==> s.deviceHeld
  {
    InitKeepsInv(j, readCapacity, processCapacity);
    RunKeepsInv(j, Init(j, readCapacity, processCapacity), events);
    var s := After(j, Init(j, readCapacity, processCapacity), events);
    BusyBounds(s.processors);
    if e.ProcessorFinishes? {
      BusyUpdate(s.processors, e.i, s.processors[e.i].(phase := Idle));
    }
  }

  /** No job changes a buffer that another outstanding job uses; buffers are swapped by the last job only. */
  lemma BuffersAreNeverShared(j: Job, readCapacity: nat, processCapacity: nat, events: seq<Event>, e: Event)
    requires ValidStart(j, readCapacity, processCapacity)
    requires IsRun(j, Init(j, readCapacity, processCapacity), events)
    requires Enabled(j, After(j, Init(j, readCapacity, processCapacity), events), e)
    ensures var s := After(j, Init(j, readCapacity, processCapacity), events);
            var s' := Apply(j, s, e);
            && (s'.processBuffer != s.processBuffer ==> Outstanding(s) == 1 && (e.ReaderFinishes? || e.ProcessorFinishes?))
            && (s'.readBuffer != s.readBuffer ==>
                  e.ReaderResize? || e.ReaderRead? || e.ReaderReadFails? || (Outstanding(s) == 1 && (e.ReaderFinishes? || e.ProcessorFinishes?)))
            && (e.ProcessorFinishes? && Outstanding(s) == 1 ==> s.reader.ReaderIdle? && forall k :: 0 <= k < |s.processors| && k != e.i ==> s.processors[k].phase.Idle?)
            && (e.ReaderFinishes? && Outstanding(s) == 1 ==> forall k :: 0 <= k < |s.processors| ==> s.processors[k].phase.Idle?)
  {
    InitKeepsInv(j, readCapacity, processCapacity);
    RunKeepsInv(j, Init(j, readCapacity, processCapacity), events);
    var s := After(j, Init(j, readCapacity, processCapacity), events);
    BusyBounds(s.processors);
    if e.ProcessorFinishes? {
      var ps := s.processors[e.i := s.processors[e.i].(phase := Idle)];
      BusyUpdate(s.processors, e.i, ps[e.i]);
      BusyBounds(ps);
      if Outstanding(s) == 1 {
        assert forall k :: 0 <= k < |ps| && k != e.i ==> ps[k] == s.processors[k];
      }
    }
  }

  // -------------------------------------------------------------- termination

  /** The contract of the device: a read into a non-empty buffer delivers bytes until the end. */
  predicate Cooperative(j: Job, s: State, e: Event) {
    e.ReaderRead? && e.n == 0 ==> s.readBuffer == [] || s.pos >= |j.data|
  }

  ghost predicate IsCooperativeRun(j: Job, s: State, events: seq<Event>)
    decreases |events|
  {
    events == [] ||
    (Enabled(j, s, events[0]) && Cooperative(j, s, events[0]) && IsCooperativeRun(j, Apply(j, s, events[0]), events[1..]))
  }

  lemma {:induction false} CooperativeRunsAreRuns(j: Job, s: State, events: seq<Event>)
    requires IsCooperativeRun(j, s, events)
    ensures IsRun(j, s, events)
    decreases |events|
  {
    if events != [] {
      CooperativeRunsAreRuns(j, Apply(j, s, events[0]), events[1..]);
    }
  }

  /** Work left to the hash jobs in this round. */
  function ProcessorWork(ps: seq<Processor>, length: nat): nat {
    if ps == [] then 0 else
      (if ps[0].phase.Feeding? && ps[0].phase.done <= length then length - ps[0].phase.done + 1 else 0) + ProcessorWork(ps[1..], length)
  }

  function ReaderWork(r: ReaderPhase): nat {
    match r
    case ReaderQueued => 4
    case ReaderWriting => 3
    case ReaderFailed => 2
    case ReaderDone => 1
    case ReaderIdle => 0
  }

  function Work(s: State): nat { ReaderWork(s.reader) + ProcessorWork(s.processors, |s.processBuffer|) }

  /** Upper bound on the rounds that can still start. */
  function Rounds(j: Job, s: State): nat {
    if s.readingFinished || s.errorOccurred || s.deleted || s.reader.ReaderFailed? then 0
    else if s.pos >= |j.data| then 1
    else if s.reader.ReaderQueued? || s.reader.ReaderWriting? then
      2 * (|j.data| - s.pos) + (if s.readCapacity == 0 then 1 else 0) + 1
    else
      2 * (|j.data| - s.pos) + (if s.processCapacity == 0 then 1 else 0) + 2
  }

  function RoundCost(j: Job): nat { 6 + |j.algorithms| * (|j.data| + 2) }

  function Measure(j: Job, s: State): nat { RoundCost(j) * Rounds(j, s) + Work(s) }

  lemma {:induction false} ProcessorWorkUpdate(ps: seq<Processor>, length: nat, i: nat, p: Processor)
    requires i < |ps|
    ensures ProcessorWork(ps[i := p], length) == ProcessorWork(ps, length)
              - ProcessorWork([ps[i]], length) + ProcessorWork([p], length)
  {
    if i == 0 {
      assert ps[i := p][1..] == ps[1..];
    } else {
      assert ps[i := p][1..] == ps[1..][i - 1 := p];
      ProcessorWorkUpdate(ps[1..], length, i - 1, p);
    }
  }

  lemma {:induction false} ProcessorWorkBound(ps: seq<Processor>, length: nat)
    ensures ProcessorWork(ps, length) <= |ps| * (length + 1)
  {
    if ps != [] {
      ProcessorWorkBound(ps[1..], length);
      assert |ps| * (length + 1) == (|ps| - 1) * (length + 1) + (length + 1);
    }
  }

  lemma {:induction false} NoProcessorWork(ps: seq<Processor>, length: nat)
    requires forall i :: 0 <= i < |ps| ==> ps[i].phase.Idle?
    ensures ProcessorWork(ps, length) == 0
  {
    if ps != [] {
      NoProcessorWork(ps[1..], length);
    }
  }

  lemma MulMonotone(k: nat, a: nat, b: nat)
    requires a <= b
    ensures k * a <= k * b
  {}

  lemma WorkBound(j: Job, s: State)
    requires Inv(j, s)
    ensures Work(s) < RoundCost(j)
  {
    ProcessorWorkBound(s.processors, |s.processBuffer|);
    MulMonotone(|j.algorithms|, |s.processBuffer| + 1, |j.data| + 2);
  }

  /** A new round costs less than the round it uses up. */
  lemma MeasureDrops(cost: nat, rounds: nat, rounds': nat, work: nat, work': nat)
    requires rounds' <= rounds && (rounds' == rounds ==> work' < work) && work' < cost
    ensures cost * rounds' + work' < cost * rounds + work
  {
    if rounds' < rounds {
      MulMonotone(cost, rounds' + 1, rounds);
      assert cost * (rounds' + 1) == cost * rounds' + cost;
    }
  }

  lemma StepWithinRound(j: Job, s: State, e: Event)
    requires Inv(j, s) && Enabled(j, s, e) && Cooperative(j, s, e)
    requires !e.ReaderFinishes? && !e.ProcessorFinishes?
    ensures Rounds(j, Apply(j, s, e)) <= Rounds(j, s) && Work(Apply(j, s, e)) < Work(s)
  {
    if e.ProcessorFeeds? {
      var s' := Apply(j, s, e);
      assert Consumed(j, Base(s), |s.processBuffer|, s.processors[e.i]);
      ProcessorWorkUpdate(s.processors, |s.processBuffer|, e.i, s'.processors[e.i]);
    }
  }

  lemma FinishingStep(j: Job, s: State, e: Event)
    requires Inv(j, s) && Enabled(j, s, e)
    requires e.ReaderFinishes? || e.ProcessorFinishes?
    ensures var s' := Apply(j, s, e);
            Rounds(j, s') <= Rounds(j, s) && (Rounds(j, s') == Rounds(j, s) ==> Work(s') < Work(s))
  {
    var s' := Apply(j, s, e);
    BusyBounds(s.processors);
    if e.ProcessorFinishes? {
      var ps := s.processors[e.i := s.processors[e.i].(phase := Idle)];
      BusyUpdate(s.processors, e.i, ps[e.i]);
      BusyBounds(ps);
      ProcessorWorkUpdate(s.processors, |s.processBuffer|, e.i, ps[e.i]);
      if s.runningJobs == 1 && s'.deleted {
        NoProcessorWork(ps, |s.processBuffer|);
      }
    } else if s.runningJobs == 1 && s'.deleted {
      NoProcessorWork(s.processors, |s.processBuffer|);
    }
  }

  /** Every step of a cooperative run decreases the measure. */
  lemma StepDecreasesMeasure(j: Job, s: State, e: Event)
    requires Inv(j, s) && Enabled(j, s, e) && Cooperative(j, s, e)
    ensures Measure(j, Apply(j, s, e)) < Measure(j, s)
  {
    var s' := Apply(j, s, e);
    StepKeepsInv(j, s, e);
    WorkBound(j, s');
    if e.ReaderFinishes? || e.ProcessorFinishes? {
      FinishingStep(j, s, e);
    } else {
      StepWithinRound(j, s, e);
    }
    MeasureDrops(RoundCost(j), Rounds(j, s), Rounds(j, s'), Work(s), Work(s'));
  }

  /** No cooperative run is longer than the measure of its first state. */
  lemma {:induction false} RunsAreBounded(j: Job, s: State, events: seq<Event>)
    requires Inv(j, s) && IsCooperativeRun(j, s, events)
    ensures |events| <= Measure(j, s)
    decreases |events|
  {
    if events != [] {
      StepDecreasesMeasure(j, s, events[0]);
      StepKeepsInv(j, s, events[0]);
      RunsAreBounded(j, Apply(j, s, events[0]), events[1..]);
    }
  }

  // ------------------------------------------------------------------ progress

  /** Nothing is left to do: no event is enabled that the device contract allows. */
  ghost predicate Quiescent(j: Job, s: State) {
    forall e :: Enabled(j, s, e) ==> !Cooperative(j, s, e)
  }

  predicate IsCancelled(e: Event) { (e.ReaderFinishes? || e.ProcessorFinishes?) && e.cancelled }

  function FirstBusy(ps: seq<Processor>): nat {
    if ps == [] || ps[0].phase.Feeding? then 0 else 1 + FirstBusy(ps[1..])
  }

  lemma {:induction false} FirstBusyIsBusy(ps: seq<Processor>, i: nat)
    requires i < |ps| && ps[i].phase.Feeding?
    ensures FirstBusy(ps) < |ps| && ps[FirstBusy(ps)].phase.Feeding?
  {
    if !ps[0].phase.Feeding? { FirstBusyIsBusy(ps[1..], i - 1); }
  }

  /** Some step of an outstanding job that neither fails nor is cancelled. */
  function DefaultStep(j: Job, s: State): Event
    requires Inv(j, s)
  {
    match s.reader
    case ReaderQueued => ReaderResize
    case ReaderWriting => ReaderRead(Min(|s.readBuffer|, |j.data| - s.pos))
    case ReaderFailed => ReaderReportsError
    case ReaderDone => ReaderFinishes(false)
    case ReaderIdle =>
      var i := FirstBusy(s.processors);
      if i < |s.processors| && s.processors[i].phase.Feeding? && s.processors[i].phase.done < |s.processBuffer|
      then ProcessorFeeds(i, |s.processBuffer| - s.processors[i].phase.done)
      else ProcessorFinishes(i, false)
  }

  /** While jobs are outstanding, some job can take a step. */
  lemma OutstandingJobsCanStep(j: Job, s: State)
    requires Inv(j, s) && Outstanding(s) > 0
    ensures Enabled(j, s, DefaultStep(j, s)) && Cooperative(j, s, DefaultStep(j, s))
    ensures DefaultStep(j, s) != ReaderReadFails && !IsCancelled(DefaultStep(j, s))
  {
    if s.reader.ReaderIdle? {
      BusyBounds(s.processors);
      var k :| 0 <= k < |s.processors| && s.processors[k].phase.Feeding?;
      FirstBusyIsBusy(s.processors, k);
      assert Consumed(j, Base(s), |s.processBuffer|, s.processors[FirstBusy(s.processors)]);
    }
  }

  /** The state a stalled run ends in: everything was read, nothing was and nothing will be reported. */
  ghost predicate Stalled(j: Job, s: State) { Quiescent(j, s) && s.reported == [] }

  /** A run with at least one algorithm that has come to rest has reported exactly one result. */
  lemma QuiescentMeansReported(j: Job, s: State)
    requires Inv(j, s) && Quiescent(j, s) && j.algorithms != []
    ensures s.deleted && |s.reported| == 1
  {
    if Outstanding(s) > 0 {
      OutstandingJobsCanStep(j, s);
      assert false;
    }
  }

  /** Without algorithms, a run on a device that never fails stalls once everything is read. */
  lemma {:induction false} NoAlgorithmsStall(j: Job, s: State) returns (events: seq<Event>)
    requires Inv(j, s) && j.algorithms == [] && !s.deleted && !s.errorOccurred && !s.reader.ReaderFailed?
    ensures IsCooperativeRun(j, s, events)
    ensures IsRun(j, s, events) && Stalled(j, After(j, s, events))
    decreases Measure(j, s)
  {
    if Outstanding(s) == 0 {
      events := [];
    } else {
      assert s.processors == [];
      var e := DefaultStep(j, s);
      OutstandingJobsCanStep(j, s);
      StepDecreasesMeasure(j, s, e);
      StepKeepsInv(j, s, e);
      var rest := NoAlgorithmsStall(j, Apply(j, s, e));
      events := [e] + rest;
      assert events[1..] == rest;
    }
  }

  /** Every run of a cooperative device that has come to rest has reported exactly one result. */
  ghost predicate AlwaysReportsOnce(j: Job, s: State) {
    forall events :: IsRun(j, s, events) && IsCooperativeRun(j, s, events) && Quiescent(j, After(j, s, events)) ==>
                       |After(j, s, events).reported| == 1
  }

  /**
   * Main liveness result.  Runs of a cooperative device are bounded in length, and they end with exactly one
   * result if and only if there is at least one algorithm to compute.
   */
  lemma EveryRunEndsWithOneResult(j: Job, readCapacity: nat, processCapacity: nat)
    requires ValidStart(j, readCapacity, processCapacity)
    ensures forall events :: IsCooperativeRun(j, Init(j, readCapacity, processCapacity), events) ==>
              |events| <= Measure(j, Init(j, readCapacity, processCapacity))
    ensures AlwaysReportsOnce(j, Init(j, readCapacity, processCapacity)) <==> j.algorithms != []
  {
    var s := Init(j, readCapacity, processCapacity);
    InitKeepsInv(j, readCapacity, processCapacity);
    forall events | IsCooperativeRun(j, s, events) ensures |events| <= Measure(j, s) {
      RunsAreBounded(j, s, events);
    }
    if j.algorithms == [] {
      var events := NoAlgorithmsStall(j, s);
      assert After(j, s, events).reported == [];
    } else {
      forall events | IsRun(j, s, events) && IsCooperativeRun(j, s, events) && Quiescent(j, After(j, s, events))
        ensures |After(j, s, events).reported| == 1
      {
        RunKeepsInv(j, s, events);
        QuiescentMeansReported(j, After(j, s, events));
      }
    }
  }
}
