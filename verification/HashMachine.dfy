// The double-buffered parallel hasher as a transition system.
//
// One reader job fills the read buffer while one job per algorithm consumes the
// process buffer.  The job whose decrement of the running-jobs counter reaches
// zero swaps the buffers and starts the next round.  The thread pool is a
// nondeterministic scheduler: a run is any sequence of enabled events.  Neither
// reading nor hashing is atomic: the reader first enlarges the buffer and fills it
// later, and a hash job takes its buffer in chunks of any size, so that an
// overlap of two jobs on one buffer would show in the bytes that were hashed.

module HashMachine {
  import opened Wrappers
  import opened HashAlgorithms

  /** A digest is the free term "algorithm applied to these bytes". */
  datatype Hash = Hash(algorithm: HashAlgorithm, input: seq<Byte>)

  datatype Outcome = Hashes(hashes: seq<Hash>) | Cancelled | ReadError | NotReadable

  /** What a run works on: the algorithms, the device's bytes and its initial position. */
  datatype Job = Job(algorithms: seq<QtAlgorithm>, data: seq<Byte>, start: nat)

  ghost predicate ValidJob(j: Job) { j.start <= |j.data| }

  datatype ReaderPhase =
    | ReaderIdle      // not scheduled, or finished in this round
    | ReaderQueued    // handed to the pool
    | ReaderWriting   // buffer enlarged to its capacity, read in progress
    | ReaderFailed    // read failed, error not reported yet
    | ReaderDone      // only the decrement is left

  datatype ProcessorPhase = Idle | Feeding(done: nat)

  datatype Processor = Processor(algorithm: QtAlgorithm, fed: seq<Byte>, phase: ProcessorPhase)

  datatype State = State(
    errorOccurred: bool,
    readingFinished: bool,
    deviceHeld: bool,          // false once the device was moved into a result
    pos: nat,                  // read position of the device
    readBuffer: seq<Byte>,
    readCapacity: nat,
    processBuffer: seq<Byte>,
    processCapacity: nat,
    runningJobs: int,
    reader: ReaderPhase,
    processors: seq<Processor>,
    reported: seq<Outcome>,    // every result passed to the callback so far
    deleted: bool              // the generator scheduled its own deletion
  )

  datatype Event =
    | ReaderResize
    | ReaderRead(n: nat)
    | ReaderReadFails
    | ReaderReportsError
    | ReaderFinishes(cancelled: bool)          // cancelled: the answer, if it is asked for
    | ProcessorFeeds(i: nat, m: nat)
    | ProcessorFinishes(i: nat, cancelled: bool)

  // ---------------------------------------------------------------- transitions

  function Init(j: Job, readCapacity: nat, processCapacity: nat): State {
    State(false, false, true, j.start, [], readCapacity, [], processCapacity, 1, ReaderQueued,
          seq(|j.algorithms|, k requires 0 <= k < |j.algorithms| => Processor(j.algorithms[k], [], Idle)), [], false)
  }

  function Zeros(n: nat): seq<Byte> { seq(n, _ => 0) }

  function Resize(buffer: seq<Byte>, size: nat): seq<Byte> {
    if size <= |buffer| then buffer[..size] else buffer + Zeros(size - |buffer|)
  }

  function Min(a: nat, b: nat): nat { if a <= b then a else b }

  function HashOf(p: Processor): Hash { Hash(ToHashAlgorithm(p.algorithm), p.fed) }

  function HashesOf(ps: seq<Processor>): seq<Hash> {
    seq(|ps|, k requires 0 <= k < |ps| => HashOf(ps[k]))
  }

  function Report(s: State, outcome: Outcome): State {
    s.(reported := s.reported + [outcome], deviceHeld := false)
  }

  function StartAll(ps: seq<Processor>): seq<Processor> {
    seq(|ps|, k requires 0 <= k < |ps| => ps[k].(phase := Feeding(0)))
  }

  function StartNextIteration(j: Job, s: State, cancelled: bool): State {
    if s.errorOccurred then
      s.(deleted := true)
    else if s.readingFinished then
      Report(s, Hashes(HashesOf(s.processors))).(deleted := true)
    else if cancelled then
      Report(s, Cancelled).(deleted := true)
    else
      var finished := s.pos >= |j.data|;
      s.(readingFinished := finished,
         processBuffer := s.readBuffer, processCapacity := s.readCapacity,
         readBuffer := s.processBuffer, readCapacity := s.processCapacity,
         runningJobs := if finished then |s.processors| else |s.processors| + 1,
         reader := if finished then s.reader else ReaderQueued,
         processors := StartAll(s.processors))
  }

  function ReportJobFinished(j: Job, s: State, cancelled: bool): State {
    var s' := s.(runningJobs := s.runningJobs - 1);
    if s'.runningJobs == 0 then StartNextIteration(j, s', cancelled) else s'
  }

  predicate Enabled(j: Job, s: State, e: Event) {
    match e
    case ReaderResize => s.reader == ReaderQueued
    case ReaderRead(n) => s.reader == ReaderWriting && s.pos + n <= |j.data| && n <= |s.readBuffer|
    case ReaderReadFails => s.reader == ReaderWriting
    case ReaderReportsError => s.reader == ReaderFailed
    case ReaderFinishes(_) => s.reader == ReaderDone
    case ProcessorFeeds(i, m) =>
      && i < |s.processors| && s.processors[i].phase.Feeding?
      && 0 < m && s.processors[i].phase.done + m <= |s.processBuffer|
    case ProcessorFinishes(i, _) =>
      i < |s.processors| && s.processors[i].phase == Feeding(|s.processBuffer|)
  }

  function Apply(j: Job, s: State, e: Event): State
    requires Enabled(j, s, e)
  {
    match e
    case ReaderResize =>
      s.(readBuffer := Resize(s.readBuffer, s.readCapacity), reader := ReaderWriting)
    case ReaderRead(n) =>
      s.(readBuffer := j.data[s.pos..s.pos + n], pos := s.pos + n, reader := ReaderDone)
    case ReaderReadFails =>
      s.(readBuffer := [], reader := ReaderFailed)
    case ReaderReportsError =>
      Report(s.(errorOccurred := true, reader := ReaderDone), ReadError)
    case ReaderFinishes(cancelled) =>
      ReportJobFinished(j, s.(reader := ReaderIdle), cancelled)
    case ProcessorFeeds(i, m) =>
      var p := s.processors[i];
      var k := p.phase.done;
      s.(processors := s.processors[i := p.(fed := p.fed + s.processBuffer[k..k + m], phase := Feeding(k + m))])
    case ProcessorFinishes(i, cancelled) =>
      ReportJobFinished(j, s.(processors := s.processors[i := s.processors[i].(phase := Idle)]), cancelled)
  }

  /** The events in which the source dereferences the device pointer. */
  predicate TouchesDevice(s: State, e: Event) {
    match e
    case ReaderResize | ReaderRead(_) | ReaderReadFails | ReaderReportsError => true
    case ReaderFinishes(_) => s.runningJobs == 1 && !s.errorOccurred
    case ProcessorFinishes(_, _) => s.runningJobs == 1 && !s.errorOccurred
    case ProcessorFeeds(_, _) => false
  }

  // ------------------------------------------------------------------ runs

  ghost predicate IsRun(j: Job, s: State, events: seq<Event>)
    decreases |events|
  {
    events == [] || (Enabled(j, s, events[0]) && IsRun(j, Apply(j, s, events[0]), events[1..]))
  }

  ghost function After(j: Job, s: State, events: seq<Event>): State
    requires IsRun(j, s, events)
    decreases |events|
  {
    if events == [] then s else After(j, Apply(j, s, events[0]), events[1..])
  }

  // ------------------------------------------------------------------ invariant

  function Busy(ps: seq<Processor>): nat {
    if ps == [] then 0 else (if ps[0].phase.Feeding? then 1 else 0) + Busy(ps[1..])
  }

  function Outstanding(s: State): nat { Busy(s.processors) + if s.reader.ReaderIdle? then 0 else 1 }

  /** The bytes that were read in this round and wait for the next swap. */
  function Pending(s: State): nat {
    if !s.readingFinished && (s.reader.ReaderIdle? || s.reader.ReaderFailed? || s.reader.ReaderDone?)
    then |s.readBuffer| else 0
  }

  /** Device position of the first byte of the process buffer. */
  function Base(s: State): int { s.pos - Pending(s) - |s.processBuffer| }

  /** s is the part of the data from position a up to position b. */
  ghost predicate IsSlice(data: seq<Byte>, a: int, b: int, s: seq<Byte>) {
    0 <= a <= b <= |data| && s == data[a..b]
  }

  ghost predicate Consumed(j: Job, base: int, length: nat, p: Processor) {
    match p.phase
    case Idle => IsSlice(j.data, j.start, base + length, p.fed)
    case Feeding(done) => done <= length && IsSlice(j.data, j.start, base + done, p.fed)
  }

  ghost predicate DataInv(j: Job, s: State) {
    && j.start <= Base(s) && s.pos <= |j.data|
    && IsSlice(j.data, Base(s), Base(s) + |s.processBuffer|, s.processBuffer)
    && (Pending(s) > 0 ==> IsSlice(j.data, s.pos - Pending(s), s.pos, s.readBuffer))
    && (forall i :: 0 <= i < |s.processors| ==> Consumed(j, Base(s), |s.processBuffer|, s.processors[i]))
  }

  ghost predicate ControlInv(j: Job, s: State) {
    && |s.processors| == |j.algorithms|
    && (forall i :: 0 <= i < |s.processors| ==> s.processors[i].algorithm == j.algorithms[i])
    && |s.readBuffer| <= s.readCapacity && |s.processBuffer| <= s.processCapacity
    && s.readCapacity + s.processCapacity > 0
    && s.runningJobs == Outstanding(s)
    && (s.deviceHeld <==> s.reported == [])
    && (s.errorOccurred ==> s.reported == [ReadError] && !s.readingFinished)
    && (s.errorOccurred ==> s.reader.ReaderDone? || s.reader.ReaderIdle?)
    && (s.reader.ReaderFailed? ==> s.readBuffer == [])
    && (s.reader.ReaderWriting? ==> |s.readBuffer| == s.readCapacity)
    && (s.readingFinished ==> s.reader.ReaderIdle? && s.pos == |j.data|)
    && (s.deleted ==> Outstanding(s) == 0 && |s.reported| == 1)
    && (!s.deleted && !s.errorOccurred ==> s.reported == [])
    && (!s.deleted && Outstanding(s) == 0 ==> j.algorithms == [] && s.readingFinished)
  }

  ghost predicate Inv(j: Job, s: State) { ControlInv(j, s) && DataInv(j, s) && OutcomeInv(j, s) }

  /** The hash list a correct run reports: every algorithm over all bytes from the start position. */
  function Expected(j: Job): seq<Hash>
    requires j.start <= |j.data|
  {
    seq(|j.algorithms|, k requires 0 <= k < |j.algorithms| => Hash(ToHashAlgorithm(j.algorithms[k]), j.data[j.start..]))
  }

  ghost predicate OutcomeInv(j: Job, s: State) {
    && ValidJob(j)
    && (forall o :: o in s.reported && o.Hashes? ==> o.hashes == Expected(j))
    && NotReadable !in s.reported
  }

  // -------------------------------------------------- lemmas about the job counter

  lemma {:induction false} BusyUpdate(ps: seq<Processor>, i: nat, p: Processor)
    requires i < |ps|
    ensures Busy(ps[i := p]) == Busy(ps) - (if ps[i].phase.Feeding? then 1 else 0) + (if p.phase.Feeding? then 1 else 0)
  {
    if i == 0 {
      assert ps[i := p][1..] == ps[1..];
    } else {
      assert ps[i := p][1..] == ps[1..][i - 1 := p];
      BusyUpdate(ps[1..], i - 1, p);
    }
  }

  lemma {:induction false} BusyBounds(ps: seq<Processor>)
    ensures Busy(ps) <= |ps|
    ensures Busy(ps) == 0 <==> forall i :: 0 <= i < |ps| ==> ps[i].phase.Idle?
    ensures Busy(ps) == |ps| <==> forall i :: 0 <= i < |ps| ==> ps[i].phase.Feeding?
  {
    if ps != [] {
      BusyBounds(ps[1..]);
      assert forall i :: 0 <= i < |ps[1..]| ==> ps[1..][i] == ps[i + 1];
      assert (forall i :: 0 <= i < |ps| ==> ps[i].phase.Idle?) <==>
             ps[0].phase.Idle? && forall i :: 0 <= i < |ps[1..]| ==> ps[1..][i].phase.Idle?
      by { if forall i :: 0 <= i < |ps| ==> ps[i].phase.Idle? {
             assert forall i :: 0 <= i < |ps[1..]| ==> ps[1..][i].phase.Idle?;
           } else if ps[0].phase.Idle? {
             var i :| 0 <= i < |ps| && !ps[i].phase.Idle?;
             assert ps[1..][i - 1] == ps[i];
           }
         }
      assert (forall i :: 0 <= i < |ps| ==> ps[i].phase.Feeding?) <==>
             ps[0].phase.Feeding? && forall i :: 0 <= i < |ps[1..]| ==> ps[1..][i].phase.Feeding?
      by { if forall i :: 0 <= i < |ps| ==> ps[i].phase.Feeding? {
             assert forall i :: 0 <= i < |ps[1..]| ==> ps[1..][i].phase.Feeding?;
           } else if ps[0].phase.Feeding? {
             var i :| 0 <= i < |ps| && !ps[i].phase.Feeding?;
             assert ps[1..][i - 1] == ps[i];
           }
         }
    }
  }

  // -------------------------------------------------------- the invariant is kept

  lemma InitKeepsInv(j: Job, readCapacity: nat, processCapacity: nat)
    requires ValidJob(j) && readCapacity + processCapacity > 0
    ensures Inv(j, Init(j, readCapacity, processCapacity))
  {
    BusyBounds(Init(j, readCapacity, processCapacity).processors);
  }

  lemma ReaderKeepsInv(j: Job, s: State, e: Event)
    requires Inv(j, s) && Enabled(j, s, e)
    requires e.ReaderResize? || e.ReaderRead? || e.ReaderReadFails? || e.ReaderReportsError?
    ensures Inv(j, Apply(j, s, e))
  {
    var s' := Apply(j, s, e);
    assert Base(s') == Base(s);
  }

  lemma SliceExtends(data: seq<Byte>, a: int, b: int, c: int, s: seq<Byte>, t: seq<Byte>)
    requires IsSlice(data, a, b, s) && IsSlice(data, b, c, t)
    ensures IsSlice(data, a, c, s + t)
  {}

  lemma SubSlice(data: seq<Byte>, a: int, b: int, s: seq<Byte>, k: nat, l: nat)
    requires IsSlice(data, a, b, s) && k <= l <= |s|
    ensures IsSlice(data, a + k, a + l, s[k..l])
  {
    assert forall i :: 0 <= i < l - k ==> s[k..l][i] == s[k + i] == data[a + (k + i)];
    assert s[k..l] == data[a + k..a + l];
  }

  lemma FeedingConsumes(j: Job, s: State, i: nat, m: nat)
    requires DataInv(j, s) && Enabled(j, s, ProcessorFeeds(i, m))
    ensures DataInv(j, Apply(j, s, ProcessorFeeds(i, m)))
  {
    hide StartNextIteration, ReportJobFinished;
    var s' := Apply(j, s, ProcessorFeeds(i, m));
    assert Base(s') == Base(s);
    var k := s.processors[i].phase.done;
    assert Consumed(j, Base(s), |s.processBuffer|, s.processors[i]);
    SubSlice(j.data, Base(s), Base(s) + |s.processBuffer|, s.processBuffer, k, k + m);
    SliceExtends(j.data, j.start, Base(s) + k, Base(s) + k + m, s.processors[i].fed, s.processBuffer[k..k + m]);
    hide IsSlice;
  }

  lemma FeedingKeepsControl(j: Job, s: State, i: nat, m: nat)
    requires ControlInv(j, s) && Enabled(j, s, ProcessorFeeds(i, m))
    ensures ControlInv(j, Apply(j, s, ProcessorFeeds(i, m)))
  {
    var s' := Apply(j, s, ProcessorFeeds(i, m));
    BusyUpdate(s.processors, i, s'.processors[i]);
    assert Outstanding(s') == Outstanding(s);
  }

  /** One job has left; what holds between that and the decrement of the counter. */
  ghost predicate Leaving(j: Job, s: State) {
    && |s.processors| == |j.algorithms|
    && (forall i :: 0 <= i < |s.processors| ==> s.processors[i].algorithm == j.algorithms[i])
    && |s.readBuffer| <= s.readCapacity && |s.processBuffer| <= s.processCapacity
    && s.readCapacity + s.processCapacity > 0
    && s.runningJobs == Outstanding(s) + 1
    && !s.deleted
    && (s.deviceHeld <==> s.reported == [])
    && (s.errorOccurred ==> s.reported == [ReadError] && !s.readingFinished)
    && (!s.errorOccurred ==> s.reported == [])
    && (s.errorOccurred ==> s.reader.ReaderDone? || s.reader.ReaderIdle?)
    && (s.reader.ReaderFailed? ==> s.readBuffer == [])
    && (s.reader.ReaderWriting? ==> |s.readBuffer| == s.readCapacity)
    && (s.readingFinished ==> s.reader.ReaderIdle? && s.pos == |j.data|)
  }

  /** When the last job has left, every processor has consumed all bytes up to the read buffer. */
  lemma AllConsumed(j: Job, s: State)
    requires DataInv(j, s) && Outstanding(s) == 0
    ensures s.reader.ReaderIdle?
    ensures forall i :: 0 <= i < |s.processors| ==>
              s.processors[i].phase.Idle? &&
              IsSlice(j.data, j.start, Base(s) + |s.processBuffer|, s.processors[i].fed)
  {
    BusyBounds(s.processors);
    forall i | 0 <= i < |s.processors|
      ensures s.processors[i].phase.Idle? &&
              IsSlice(j.data, j.start, Base(s) + |s.processBuffer|, s.processors[i].fed)
    {
      assert Consumed(j, Base(s), |s.processBuffer|, s.processors[i]);
    }
  }

  lemma FinishReportsExpected(j: Job, s: State)
    requires Leaving(j, s) && DataInv(j, s) && ValidJob(j) && Outstanding(s) == 0 && s.readingFinished
    ensures HashesOf(s.processors) == Expected(j)
  {
    AllConsumed(j, s);
    assert j.data[j.start..|j.data|] == j.data[j.start..];
  }

  lemma SwapKeepsData(j: Job, s: State)
    requires Leaving(j, s) && DataInv(j, s) && Outstanding(s) == 0 && !s.readingFinished && !s.errorOccurred
    ensures DataInv(j, StartNextIteration(j, s, false))
  {
    AllConsumed(j, s);
    var s' := StartNextIteration(j, s, false);
    assert Base(s') == Base(s) + |s.processBuffer|;
    forall i | 0 <= i < |s'.processors| ensures Consumed(j, Base(s'), |s'.processBuffer|, s'.processors[i]) {
      assert s'.processors[i] == s.processors[i].(phase := Feeding(0));
    }
  }

  lemma SwapKeepsControl(j: Job, s: State)
    requires Leaving(j, s) && DataInv(j, s) && Outstanding(s) == 0 && !s.readingFinished && !s.errorOccurred
    ensures ControlInv(j, StartNextIteration(j, s, false))
  {
    AllConsumed(j, s);
    var s' := StartNextIteration(j, s, false);
    BusyBounds(s'.processors);
    assert Busy(s'.processors) == |s.processors|;
  }

  /** The data invariant looks at the buffers, the position and the jobs only. */
  lemma DataDependsOn(j: Job, s: State, t: State)
    requires DataInv(j, s)
    requires t == s.(runningJobs := t.runningJobs, reported := t.reported, deviceHeld := t.deviceHeld, deleted := t.deleted)
    ensures DataInv(j, t)
  {
    assert Base(t) == Base(s);
  }

  lemma DecrementKeepsInv(j: Job, s: State, cancelled: bool)
    requires Leaving(j, s) && DataInv(j, s) && OutcomeInv(j, s)
    ensures Inv(j, ReportJobFinished(j, s, cancelled))
  {
    hide DataInv, HashesOf, StartAll;
    var s' := ReportJobFinished(j, s, cancelled);
    if Outstanding(s) == 0 && !s.errorOccurred && !s.readingFinished && !cancelled {
      SwapKeepsData(j, s);
      SwapKeepsControl(j, s);
      assert s' == StartNextIteration(j, s, false);
    } else {
      DataDependsOn(j, s, s');
      if Outstanding(s) == 0 && !s.errorOccurred && s.readingFinished {
        FinishReportsExpected(j, s);
      }
    }
  }

  lemma ReaderFinishKeepsInv(j: Job, s: State, cancelled: bool)
    requires Inv(j, s) && Enabled(j, s, ReaderFinishes(cancelled))
    ensures Inv(j, Apply(j, s, ReaderFinishes(cancelled)))
  {
    var t := s.(reader := ReaderIdle);
    assert Base(t) == Base(s);
    assert Leaving(j, t);
    DecrementKeepsInv(j, t, cancelled);
  }

  lemma IdleKeepsData(j: Job, s: State, i: nat)
    requires DataInv(j, s) && i < |s.processors| && s.processors[i].phase == Feeding(|s.processBuffer|)
    ensures DataInv(j, s.(processors := s.processors[i := s.processors[i].(phase := Idle)]))
  {
    assert Consumed(j, Base(s), |s.processBuffer|, s.processors[i]);
  }

  lemma ProcessorFinishKeepsInv(j: Job, s: State, i: nat, cancelled: bool)
    requires Inv(j, s) && Enabled(j, s, ProcessorFinishes(i, cancelled))
    ensures Inv(j, Apply(j, s, ProcessorFinishes(i, cancelled)))
  {
    hide StartNextIteration, ReportJobFinished;
    var t := s.(processors := s.processors[i := s.processors[i].(phase := Idle)]);
    BusyUpdate(s.processors, i, t.processors[i]);
    assert Base(t) == Base(s);
    assert Leaving(j, t);
    IdleKeepsData(j, s, i);
    hide DataInv;
    DecrementKeepsInv(j, t, cancelled);
  }

  lemma StepKeepsInv(j: Job, s: State, e: Event)
    requires Inv(j, s) && Enabled(j, s, e)
    ensures Inv(j, Apply(j, s, e))
  {
    match e
    case ProcessorFeeds(i, m) =>
      FeedingConsumes(j, s, i, m);
      FeedingKeepsControl(j, s, i, m);
    case ReaderFinishes(cancelled) => ReaderFinishKeepsInv(j, s, cancelled);
    case ProcessorFinishes(i, cancelled) => ProcessorFinishKeepsInv(j, s, i, cancelled);
    case ReaderResize | ReaderRead(_) | ReaderReadFails | ReaderReportsError => ReaderKeepsInv(j, s, e);
  }
}
