// The hash generator object, the synchronous fast path for small data, and the
// verification of supplied hashes.

module HashGenerators {
  import opened Wrappers
  import opened HashAlgorithms
  import opened HashMachine
  import opened HashRuns
  import opened HashOutcomes
  import opened Sorting

  const PROCESS_SYNC_MAX_SIZE: nat := 32 * 1024
  const BUFFER_SIZE: nat := 512 * 1024

  /** Buffer capacities: everything in one go for small devices of known size, else two full buffers. */
  function InitialCapacities(size: Option<nat>): (nat, nat) {
    if size.Some? && size.value <= 2 * BUFFER_SIZE then (size.value, 0) else (BUFFER_SIZE, BUFFER_SIZE)
  }

  /** The generator: each method is one atomic step of the code, tied to the transition it implements. */
  class HashGenerator {
    const job: Job
    var errorOccurred: bool
    var readingFinished: bool
    var deviceHeld: bool
    var pos: nat
    var readBuffer: seq<Byte>
    var readCapacity: nat
    var processBuffer: seq<Byte>
    var processCapacity: nat
    var runningJobs: int
    var reader: ReaderPhase
    var processors: seq<Processor>
    var reported: seq<Outcome>
    var deleted: bool

    function Model(): State
      reads this
    {
      State(errorOccurred, readingFinished, deviceHeld, pos, readBuffer, readCapacity, processBuffer, processCapacity,
            runningJobs, reader, processors, reported, deleted)
    }

    constructor (job: Job, size: Option<nat>)
      ensures this.job == job
      ensures Model() == Init(job, InitialCapacities(size).0, InitialCapacities(size).1)
    {
      this.job := job;
      errorOccurred, readingFinished, deviceHeld, deleted := false, false, true, false;
      pos := job.start;
      readBuffer, processBuffer, reported := [], [], [];
      if size.Some? && size.value <= 2 * BUFFER_SIZE {
        readCapacity, processCapacity := size.value, 0;
      } else {
        readCapacity, processCapacity := BUFFER_SIZE, BUFFER_SIZE;
      }
      processors := seq(|job.algorithms|, k requires 0 <= k < |job.algorithms| => Processor(job.algorithms[k], [], Idle));
      runningJobs := 1;
      reader := ReaderQueued;
    }

    method ReportResult(outcome: Outcome)
      modifies this`reported, this`deviceHeld
      ensures Model() == Report(old(Model()), outcome)
    {
      reported := reported + [outcome];
      deviceHeld := false;
    }

    method Finish()
      modifies this`reported, this`deviceHeld
      ensures Model() == Report(old(Model()), Hashes(HashesOf(old(processors))))
    {
      var hashes: seq<Hash> := [];
      for k := 0 to |processors|
        invariant |hashes| == k && forall i :: 0 <= i < k ==> hashes[i] == HashOf(processors[i])
      {
        hashes := hashes + [HashOf(processors[k])];
      }
      assert hashes == HashesOf(processors);
      ReportResult(Hashes(hashes));
    }

    method StartHashProcessors()
      modifies this`processors
      ensures processors == StartAll(old(processors))
    {
      for k := 0 to |processors|
        invariant |processors| == |old(processors)|
        invariant forall i :: 0 <= i < |processors| ==>
          processors[i] == if i < k then old(processors)[i].(phase := Feeding(0)) else old(processors)[i]
      {
        processors := processors[k := processors[k].(phase := Feeding(0))];
      }
    }

    method StartNextIteration(isCancelled: bool)
      modifies this
      ensures Model() == HashMachine.StartNextIteration(job, old(Model()), isCancelled)
    {
      if errorOccurred {
        deleted := true;
        return;
      }
      if readingFinished {
        Finish();
        deleted := true;
        return;
      }
      if isCancelled {
        ReportResult(Cancelled);
        deleted := true;
        return;
      }
      readingFinished := pos >= |job.data|;
      readBuffer, processBuffer := processBuffer, readBuffer;
      readCapacity, processCapacity := processCapacity, readCapacity;
      if readingFinished {
        runningJobs := |processors|;
      } else {
        runningJobs := |processors| + 1;
      }
      if !readingFinished {
        reader := ReaderQueued;
      }
      StartHashProcessors();
    }

    method ReportJobFinished(isCancelled: bool)
      modifies this
      ensures Model() == HashMachine.ReportJobFinished(job, old(Model()), isCancelled)
    {
      runningJobs := runningJobs - 1;
      if runningJobs == 0 {
        StartNextIteration(isCancelled);
      }
    }

    method ReportBufferReadError()
      requires reader == ReaderFailed
      modifies this
      ensures Model() == Apply(job, old(Model()), ReaderReportsError)
    {
      errorOccurred := true;
      ReportResult(ReadError);
      reader := ReaderDone;
    }

    /** One step of the reader job or of a hash job. */
    method Perform(e: Event)
      requires Enabled(job, Model(), e)
      modifies this
      ensures Model() == Apply(job, old(Model()), e)
    {
      match e {
        case ReaderResize =>
          readBuffer := Resize(readBuffer, readCapacity);
          reader := ReaderWriting;
        case ReaderRead(n) =>
          readBuffer := job.data[pos..pos + n];
          pos := pos + n;
          reader := ReaderDone;
        case ReaderReadFails =>
          readBuffer := [];
          reader := ReaderFailed;
        case ReaderReportsError =>
          ReportBufferReadError();
        case ReaderFinishes(isCancelled) =>
          reader := ReaderIdle;
          ReportJobFinished(isCancelled);
        case ProcessorFeeds(i, m) =>
          var p := processors[i];
          var k := p.phase.done;
          processors := processors[i := p.(fed := p.fed + processBuffer[k..k + m], phase := Feeding(k + m))];
        case ProcessorFinishes(i, isCancelled) =>
          processors := processors[i := processors[i].(phase := Idle)];
          ReportJobFinished(isCancelled);
      }
    }

    /** Lets the pool run the jobs until the generator deletes itself. */
    method Run(pool: Pool) returns (r: Outcome)
      requires Inv(job, Model()) && Undecided(Model()) && job.algorithms != []
      modifies this
      ensures reported == [r] && r == RunOutcome(job, old(Model()), pool)
    {
      ghost var start := Model();
      PoolOutcome(job, start, pool);
      var k := 0;
      while !deleted
        invariant Inv(job, Model())
        invariant After(job, start, Trace(job, start, pool, 0)) == After(job, Model(), Trace(job, Model(), pool, k))
        decreases Measure(job, Model())
      {
        BusyBounds(processors);
        hide Inv, Measure, Trace, HashMachine.Apply, Enabled, Cooperative;
        ghost var before := Model();
        ghost var step := TraceStep(job, before, pool, k);
        var e := Scheduled(job, Model(), pool(k));
        ghost var rest := Trace(job, Apply(job, before, e), pool, k + 1);
        assert ([e] + rest)[1..] == rest;
        Perform(e);
        k := k + 1;
      }
      r := reported[0];
    }
  }

  // ------------------------------------------------------------- entry points

  function ToQt(algorithms: seq<HashAlgorithm>): (r: seq<QtAlgorithm>)
    requires forall a :: a in algorithms ==> ToCryptographicHashAlgorithm(a).Some?
    ensures |r| == |algorithms|
    ensures forall k :: 0 <= k < |r| ==> ToHashAlgorithm(r[k]) == algorithms[k]
  {
    seq(|algorithms|, k requires 0 <= k < |algorithms| => ToCryptographicHashAlgorithm(algorithms[k]).value)
  }

  /** Every algorithm, in order, over the given bytes. */
  function HashList(algorithms: seq<HashAlgorithm>, content: seq<Byte>): seq<Hash> {
    seq(|algorithms|, k requires 0 <= k < |algorithms| => Hash(algorithms[k], content))
  }

  /** What the fast path yields when pass number failsAt cannot be read. */
  function SyncOutcome(data: seq<Byte>, algorithms: seq<QtAlgorithm>, failsAt: Option<nat>): Outcome {
    if failsAt.Some? && failsAt.value < |algorithms| then ReadError else Hashes(Expected(Job(algorithms, data, 0)))
  }

  /** The fast path: one pass over the whole device per algorithm. */
  method CalculateHashesSync(data: seq<Byte>, algorithms: seq<QtAlgorithm>, failsAt: Option<nat>) returns (r: Outcome)
    ensures r == SyncOutcome(data, algorithms, failsAt)
  {
    var results: seq<Hash> := [];
    for k := 0 to |algorithms|
      invariant failsAt.Some? ==> k <= failsAt.value || failsAt.value >= |algorithms|
      invariant results == Expected(Job(algorithms, data, 0))[..k]
    {
      if failsAt == Some(k) {
        return ReadError;
      }
      assert data[0..] == data;
      results := results + [Hash(ToHashAlgorithm(algorithms[k]), data)];
    }
    r := Hashes(results);
  }

  predicate TakesFastPath(data: seq<Byte>, sequential: bool, algorithmCount: nat) {
    !sequential && algorithmCount * |data| <= PROCESS_SYNC_MAX_SIZE
  }

  /** The bytes that get hashed: the fast path rewinds the device, the generator reads on from its position. */
  function HashedContent(data: seq<Byte>, start: nat, sequential: bool, algorithmCount: nat): seq<Byte>
    requires start <= |data|
  {
    if TakesFastPath(data, sequential, algorithmCount) then data else data[start..]
  }

  /** The sizes, in bytes, that decide between the paths and between one buffer and two. */
  lemma SizesOfPathsAndBuffers(data: seq<Byte>, sequential: bool, algorithmCount: nat, size: nat)
    ensures TakesFastPath(data, sequential, algorithmCount) <==> !sequential && algorithmCount * |data| <= 32768
    ensures InitialCapacities(None) == (524288, 524288)
    ensures InitialCapacities(Some(size)) == if size <= 1048576 then (size, 0) else (524288, 524288)
  {}

  /** What the environment of a call decides: the failing pass of the fast path, or the steps of the pool. */
  datatype Environment = Environment(failsAt: Option<nat>, pool: Pool)

  /** No read fails and nobody cancels. */
  ghost predicate Calm(env: Environment, algorithmCount: nat) {
    (env.failsAt.None? || env.failsAt.value >= algorithmCount) && Reliable(env.pool) && Uncancelled(env.pool)
  }

  /** The outcome of hashing a readable device in an environment. */
  ghost function HashingOutcome(data: seq<Byte>, start: nat, sequential: bool, algorithms: seq<HashAlgorithm>, env: Environment): Outcome
    requires forall a :: a in algorithms ==> ToCryptographicHashAlgorithm(a).Some?
    requires start <= |data| && (sequential ==> algorithms != [])
  {
    if TakesFastPath(data, sequential, |algorithms|) then SyncOutcome(data, ToQt(algorithms), env.failsAt)
    else
      var job := Job(ToQt(algorithms), data, start);
      var capacities := InitialCapacities(if sequential then None else Some(|data|));
      assert !sequential ==> |data| > 0;
      InitKeepsInv(job, capacities.0, capacities.1);
      RunOutcome(job, Init(job, capacities.0, capacities.1), env.pool)
  }

  lemma ExpectedIsHashList(algorithms: seq<HashAlgorithm>, data: seq<Byte>, start: nat)
    requires forall a :: a in algorithms ==> ToCryptographicHashAlgorithm(a).Some?
    requires start <= |data|
    ensures Expected(Job(ToQt(algorithms), data, start)) == HashList(algorithms, data[start..])
  {}

  /** Hashes are exact; a failure has its cause in the environment. */
  lemma HashingOutcomeIs(data: seq<Byte>, start: nat, sequential: bool, algorithms: seq<HashAlgorithm>, env: Environment)
    requires forall a :: a in algorithms ==> ToCryptographicHashAlgorithm(a).Some?
    requires start <= |data| && (sequential ==> algorithms != [])
    ensures var r := HashingOutcome(data, start, sequential, algorithms, env);
            && (r.Hashes? ==> r.hashes == HashList(algorithms, HashedContent(data, start, sequential, |algorithms|)))
            && (Calm(env, |algorithms|) ==> r.Hashes?)
            && (r == ReadError ==> if TakesFastPath(data, sequential, |algorithms|) then env.failsAt.Some? else !Reliable(env.pool))
            && (r == Cancelled ==> !TakesFastPath(data, sequential, |algorithms|) && !Uncancelled(env.pool))
            && r != NotReadable
  {
    hide Expected, HashList;
    if TakesFastPath(data, sequential, |algorithms|) {
      ExpectedIsHashList(algorithms, data, 0);
      assert data[0..] == data;
    } else {
      var job := Job(ToQt(algorithms), data, start);
      var capacities := InitialCapacities(if sequential then None else Some(|data|));
      InitKeepsInv(job, capacities.0, capacities.1);
      ExpectedIsHashList(algorithms, data, start);
      PoolOutcome(job, Init(job, capacities.0, capacities.1), env.pool);
    }
  }

  /**
   * Chooses between the fast path and the parallel generator.  A device of known size reports the size of
   * all its data; a sequential device reports none.
   */
  method CalculateHashes(data: seq<Byte>, start: nat, readable: bool, sequential: bool, algorithms: seq<HashAlgorithm>,
                         env: Environment)
    returns (r: Outcome)
    requires forall a :: a in algorithms ==> ToCryptographicHashAlgorithm(a).Some?
    requires start <= |data|
    requires sequential ==> algorithms != []
    ensures r == if readable then HashingOutcome(data, start, sequential, algorithms, env) else NotReadable
    ensures r.Hashes? ==> r.hashes == HashList(algorithms, HashedContent(data, start, sequential, |algorithms|))
    ensures readable && Calm(env, |algorithms|) ==> r.Hashes?
    ensures readable && Calm(env, |algorithms|) && start == 0 ==> r == Hashes(HashList(algorithms, data))
  {
    var qtAlgorithms := ToQt(algorithms);
    if !readable {
      return NotReadable;
    }
    HashingOutcomeIs(data, start, sequential, algorithms, env);
    assert data[0..] == data;
    hide HashList, Expected;
    var size := if sequential then None else Some(|data|);
    if size.Some? && |algorithms| * |data| <= PROCESS_SYNC_MAX_SIZE {
      r := CalculateHashesSync(data, qtAlgorithms, env.failsAt);
      return;
    }
    var job := Job(qtAlgorithms, data, start);
    assert size.Some? ==> |data| > 0;
    var generator := new HashGenerator(job, size);
    InitKeepsInv(job, InitialCapacities(size).0, InitialCapacities(size).1);
    r := generator.Run(env.pool);
  }

  /** A completed run in which nothing fails or is cancelled gives the answer of the fast path exactly for devices
      that start at position 0. */
  lemma SizeThresholdNeverChangesTheAnswer(j: Job, readCapacity: nat, processCapacity: nat, events: seq<Event>)
    requires ValidStart(j, readCapacity, processCapacity) && j.algorithms != []
    requires IsRun(j, Init(j, readCapacity, processCapacity), events)
    requires Quiescent(j, After(j, Init(j, readCapacity, processCapacity), events))
    requires forall e :: e in events ==> e != ReaderReadFails && !IsCancelled(e)
    ensures After(j, Init(j, readCapacity, processCapacity), events).reported == [SyncOutcome(j.data, j.algorithms, None)]
            <==> j.start == 0
  {
    CalmRunsSucceed(j, readCapacity, processCapacity, events);
    ExpectedTellsStart(j);
  }

  lemma ExpectedTellsStart(j: Job)
    requires ValidJob(j) && j.algorithms != []
    ensures Expected(j) == Expected(j.(start := 0)) <==> j.start == 0
  {
    if Expected(j) == Expected(j.(start := 0)) {
      assert Expected(j)[0].input == Expected(j.(start := 0))[0].input;
      assert |j.data[j.start..]| == |j.data[0..]|;
    }
  }

  // ------------------------------------------------------------- verification

  datatype SuppliedHash = SuppliedHash(algorithm: HashAlgorithm, hash: seq<Byte>)

  datatype Verification = NoStrongHashes | NotMatching | Verified | VerificationCancelled | VerificationError

  /** The code's filter. */
  predicate IsStrong(h: SuppliedHash) { h.hash != [] && IsHashingAlgorithmSecure(h.algorithm) }

  predicate LessPriority(a: SuppliedHash, b: SuppliedHash) { HashPriority(a.algorithm) < HashPriority(b.algorithm) }

  /** A hash worth comparing with: there is one, and of a SHA-2, SHA-3 or BLAKE2 algorithm. */
  predicate IsUsable(h: SuppliedHash) { h.hash != [] && IsModern(h.algorithm) }

  /** h is usable and no usable hash of the list is of a preferred algorithm. */
  ghost predicate IsStrongest(h: SuppliedHash, hashes: seq<SuppliedHash>) {
    h in hashes && IsUsable(h) && forall other :: other in hashes && IsUsable(other) ==> !IsPreferred(other.algorithm, h.algorithm)
  }

  method EraseInvalid(hashes: seq<SuppliedHash>) returns (strong: seq<SuppliedHash>)
    ensures forall h :: h in strong <==> h in hashes && IsUsable(h)
  {
    strong := [];
    for k := 0 to |hashes|
      invariant forall h :: h in strong <==> h in hashes[..k] && IsUsable(h)
    {
      assert hashes[..k + 1] == hashes[..k] + [hashes[k]];
      SecurityIsModernity(hashes[k].algorithm, hashes[k].algorithm);
      if IsStrong(hashes[k]) {
        strong := strong + [hashes[k]];
      }
    }
    assert hashes[..|hashes|] == hashes;
  }

  lemma LastIsStrongest(strong: seq<SuppliedHash>, sorted: seq<SuppliedHash>, hashes: seq<SuppliedHash>)
    requires forall h :: h in strong <==> h in hashes && IsUsable(h)
    requires SortedPermutation((a, b) => LessPriority(a, b), strong, sorted) && strong != []
    ensures sorted != [] && IsStrongest(sorted[|sorted| - 1], hashes)
  {
    assert |multiset(sorted)| == |multiset(strong)| > 0;
    var last := sorted[|sorted| - 1];
    PermutationsHaveSameElements(sorted, strong, last);
    hide HashPriority, IsPreferred, IsModern;
    forall other | other in hashes && IsUsable(other)
      ensures !IsPreferred(other.algorithm, last.algorithm)
    {
      PermutationsHaveSameElements(sorted, strong, other);
      var k :| 0 <= k < |sorted| && sorted[k] == other;
      assert k < |sorted| - 1 ==> !LessPriority(last, sorted[k]);
      SecurityIsModernity(other.algorithm, last.algorithm);
    }
  }

  /** What hashing a device with one algorithm yields; a device that cannot be read yields that. */
  ghost function VerifyingOutcome(data: seq<Byte>, start: nat, readable: bool, sequential: bool, algorithm: HashAlgorithm, env: Environment)
    : Outcome
    requires ToCryptographicHashAlgorithm(algorithm).Some? && start <= |data|
  {
    if readable then HashingOutcome(data, start, sequential, [algorithm], env) else NotReadable
  }

  /**
   * Compares the device's content with the strongest supplied hash.  digest is the hash function of the
   * backend; used is the hash that was compared, if any.
   */
  method VerifyHashes(data: seq<Byte>, start: nat, readable: bool, sequential: bool, hashes: seq<SuppliedHash>,
                      digest: Hash -> seq<Byte>, env: Environment)
    returns (r: Verification, used: Option<SuppliedHash>)
    requires start <= |data|
    ensures r == NoStrongHashes <==> forall h :: h in hashes ==> !IsUsable(h)
    ensures r == NoStrongHashes <==> used == None
    ensures used.Some? ==> IsStrongest(used.value, hashes) && ToCryptographicHashAlgorithm(used.value.algorithm).Some?
    ensures used.Some? ==>
              var outcome := VerifyingOutcome(data, start, readable, sequential, used.value.algorithm, env);
              var content := Hash(used.value.algorithm, HashedContent(data, start, sequential, 1));
              && (r == Verified <==> outcome.Hashes? && digest(content) == used.value.hash)
              && (r == NotMatching <==> outcome.Hashes? && digest(content) != used.value.hash)
              && (r == VerificationCancelled <==> outcome == Cancelled)
              && (r == VerificationError <==> outcome == ReadError || outcome == NotReadable)
    ensures used.Some? && readable && Calm(env, 1) ==> r == Verified || r == NotMatching
  {
    used := None;
    var strong := EraseInvalid(hashes);
    if |strong| == 0 {
      return NoStrongHashes, None;
    }
    var sorted := Sort(strong, (a, b) => LessPriority(a, b));
    LastIsStrongest(strong, sorted, hashes);
    var expected := sorted[|sorted| - 1];
    assert strong[0] in hashes && IsUsable(strong[0]);
    SecurityIsModernity(expected.algorithm, expected.algorithm);
    SecureAlgorithmsAreSupported(expected.algorithm);
    hide HashingOutcome, HashedContent, Calm;
    used := Some(expected);
    var result := CalculateHashes(data, start, readable, sequential, [expected.algorithm], env);
    if readable { HashingOutcomeIs(data, start, sequential, [expected.algorithm], env); }
    match result {
      case Hashes(actual) =>
        assert actual[0] == Hash(expected.algorithm, HashedContent(data, start, sequential, 1));
        r := if digest(actual[0]) == expected.hash then Verified else NotMatching;
      case Cancelled => r := VerificationCancelled;
      case ReadError => r := VerificationError;
      case NotReadable => r := VerificationError;
    }
  }
}
