/**
 The accounting of the ssl-nginx driver: three phases of runs, the last one with
 retries, over every outcome of the commands they start.
 */
module SslRuns {
  import opened RunStats

  const BASELINE_REASONS := {Timeouts, ParseFailures, WrkFailures, Exceptions}
  const KERNEL_REASONS := BASELINE_REASONS + {AttachFailures}
  const BPFTIME_REASONS := KERNEL_REASONS + {ReadinessFailures}

  datatype Trace = Trace(eventCount: nat, attachMarkers: seq<string>, errorMarkers: seq<string>) {
    predicate AttachSuccess() { attachMarkers != [] && errorMarkers == [] }

    predicate Effective() { AttachSuccess() && eventCount > 0 }
  }

  type SslStats = Stats<Trace>

  /** A phase may end early, by an exception out of its cleanup. */
  datatype Phase = Phase(stats: SslStats, completed: bool)

  ghost predicate Evidence(s: SslStats) {
    s.results != [] ==> exists i :: 0 <= i < |s.traces| && s.traces[i].Effective()
  }

  // ---------- What can happen in one run ----------

  datatype KernelLaunch = KernelRaised | KernelExited | KernelWrk(wrk: Wrk)
  datatype KernelRun = KernelRun(launch: KernelLaunch, cleanupRaises: bool)

  function KernelVerdict(launch: KernelLaunch): Verdict {
    match launch
    case KernelRaised => Bad(Exceptions)
    case KernelExited => Bad(AttachFailures)
    case KernelWrk(wrk) => WrkVerdict(wrk)
  }

  datatype Launch = LaunchRaised | SnifferExited | NginxNotReady | RanWrk(wrk: Wrk)
  datatype Attempt = Attempt(launch: Launch, cleanupRaises: bool)

  function LaunchVerdict(launch: Launch): Verdict {
    match launch
    case LaunchRaised => Bad(Exceptions)
    case SnifferExited => Bad(AttachFailures)
    case NginxNotReady => Bad(ReadinessFailures)
    case RanWrk(wrk) => WrkVerdict(wrk)
  }

  /** `trace` is what was collected, or an empty summary when collecting it raised. */
  datatype KernelPreflight = KernelPreflight(trace: Trace, pkillRaises: bool)

  datatype Preflight = ExitedBeforeNginx(trace: Trace) | NotReady | Collected(trace: Trace) | PreflightRaised

  // ---------- What the phases do to the books ----------

  function BaselineRuns(world: nat -> Wrk, i: nat, runs: int, s: SslStats): SslStats
    decreases runs - i
  {
    if i >= runs then s else BaselineRuns(world, i + 1, runs, s.Record(WrkVerdict(world(i))))
  }

  function KernelRuns(world: nat -> KernelRun, i: nat, runs: int, s: SslStats): Phase
    decreases runs - i
  {
    if i >= runs then Phase(s, true)
    else
      var next := s.Record(KernelVerdict(world(i).launch));
      if world(i).cleanupRaises then Phase(next, false) else KernelRuns(world, i + 1, runs, next)
  }

  function KernelPhase(preflight: KernelPreflight, world: nat -> KernelRun, runs: int, s: SslStats): Phase {
    var traced := s.Traced(preflight.trace);
    if preflight.pkillRaises then Phase(traced, false)
    else if !preflight.trace.Effective() then Phase(traced.Failure(AttachFailures), false)
    else KernelRuns(world, 0, runs, traced)
  }

  /** The attempts of one run, from attempt `j` on. */
  function Attempts(world: nat -> Attempt, j: nat, tries: int, s: SslStats): Phase
    decreases tries - j
  {
    if j >= tries then Phase(s, true)
    else
      var counted := if j > 0 then s.(retries := s.retries + 1) else s;
      var verdict := LaunchVerdict(world(j).launch);
      var next := counted.Record(verdict);
      if world(j).cleanupRaises then Phase(next, false)
      else if verdict.Good? then Phase(next, true)
      else Attempts(world, j + 1, tries, next)
  }

  function BpftimeRuns(world: nat -> nat -> Attempt, i: nat, runs: int, tries: int, s: SslStats): Phase
    decreases runs - i
  {
    if i >= runs then Phase(s, true)
    else
      var run := Attempts(world(i), 0, tries, s);
      if run.completed then BpftimeRuns(world, i + 1, runs, tries, run.stats) else run
  }

  function BpftimePhase(preflight: Preflight, world: nat -> nat -> Attempt, runs: int, retries: int, s: SslStats): Phase {
    match preflight
    case ExitedBeforeNginx(trace) => Phase(s.Traced(trace).Failure(AttachFailures), false)
    case NotReady => Phase(s.Failure(ReadinessFailures), false)
    case PreflightRaised => Phase(s, false)
    case Collected(trace) =>
      if !trace.Effective() then Phase(s.Traced(trace).Failure(AttachFailures), false)
      else BpftimeRuns(world, 0, runs, retries + 1, s.Traced(trace))
  }

  // ---------- The loops ----------

  method RunBaseline(book: Book<Trace>, runs: int, world: nat -> Wrk)
    modifies book
    ensures book.State() == BaselineRuns(world, 0, runs, old(book.State()))
  {
    var i := 0;
    while i < runs
      invariant BaselineRuns(world, i, runs, book.State()) == BaselineRuns(world, 0, runs, old(book.State()))
    {
      match world(i) {
        case Exited(code, rate) =>
          if code != 0 {
            book.MarkFailed(WrkFailures);
          } else if rate.Some? && rate.value != 0.0 {
            book.MarkValid(rate.value);
          } else {
            book.MarkFailed(ParseFailures);
          }
        case TimedOut => book.MarkFailed(Timeouts);
        case Raised => book.MarkFailed(Exceptions);
      }
      i := i + 1;
    }
  }

  method RunKernel(book: Book<Trace>, preflight: KernelPreflight, runs: int, world: nat -> KernelRun)
    returns (completed: bool)
    modifies book
    ensures Phase(book.State(), completed) == KernelPhase(preflight, world, runs, old(book.State()))
  {
    book.AddTrace(preflight.trace);
    if preflight.pkillRaises {
      return false;
    }
    if !preflight.trace.Effective() {
      book.MarkFailed(AttachFailures);
      return false;
    }
    var i := 0;
    while i < runs
      invariant KernelRuns(world, i, runs, book.State()) == KernelPhase(preflight, world, runs, old(book.State()))
    {
      match KernelVerdict(world(i).launch) {
        case Good(rate) => book.MarkValid(rate);
        case Bad(reason) => book.MarkFailed(reason);
      }
      if world(i).cleanupRaises {
        return false;
      }
      i := i + 1;
    }
    return true;
  }

  /** The inner loop: the attempts of one run. */
  method RunAttempts(book: Book<Trace>, tries: int, world: nat -> Attempt) returns (completed: bool)
    modifies book
    ensures Phase(book.State(), completed) == Attempts(world, 0, tries, old(book.State()))
  {
    var j := 0;
    while j < tries
      invariant Attempts(world, j, tries, book.State()) == Attempts(world, 0, tries, old(book.State()))
    {
      if j > 0 {
        book.CountRetry();
      }
      var verdict := LaunchVerdict(world(j).launch);
      match verdict {
        case Good(rate) => book.MarkValid(rate);
        case Bad(reason) => book.MarkFailed(reason);
      }
      if world(j).cleanupRaises {
        return false;
      }
      if verdict.Good? {
        return true;
      }
      j := j + 1;
    }
    return true;
  }

  method RunBpftime(book: Book<Trace>, preflight: Preflight, runs: int, retries: int, world: nat -> nat -> Attempt)
    returns (completed: bool)
    modifies book
    ensures Phase(book.State(), completed) == BpftimePhase(preflight, world, runs, retries, old(book.State()))
  {
    match preflight {
      case ExitedBeforeNginx(trace) =>
        book.AddTrace(trace);
        book.MarkFailed(AttachFailures);
        return false;
      case NotReady =>
        book.MarkFailed(ReadinessFailures);
        return false;
      case PreflightRaised =>
        return false;
      case Collected(trace) =>
        book.AddTrace(trace);
        if !trace.Effective() {
          book.MarkFailed(AttachFailures);
          return false;
        }
    }
    var i := 0;
    while i < runs
      invariant BpftimeRuns(world, i, runs, retries + 1, book.State()) ==
        BpftimePhase(preflight, world, runs, retries, old(book.State()))
    {
      completed := RunAttempts(book, retries + 1, world(i));
      if !completed {
        return false;
      }
      i := i + 1;
    }
    return true;
  }

  // ---------- The books are balanced on every path ----------

  /** Balanced, with these reasons declared. */
  ghost predicate Sound(s: SslStats, declared: set<Reason>) {
    s.Balanced() && s.reasons.Keys == declared
  }

  lemma RecordSound(s: SslStats, declared: set<Reason>, v: Verdict)
    requires Sound(s, declared) && Countable(v, declared)
    ensures Sound(s.Record(v), declared)
  {
    RecordBalanced(s, v);
  }

  lemma RetrySound(s: SslStats, declared: set<Reason>)
    requires Sound(s, declared)
    ensures Sound(s.(retries := s.retries + 1), declared)
  {
    assert s.(retries := s.retries + 1).Total() == s.Total();
  }

  lemma TracedSound(s: SslStats, declared: set<Reason>, trace: Trace)
    requires Sound(s, declared)
    ensures Sound(s.Traced(trace), declared)
  {
    assert s.Traced(trace).Total() == s.Total();
  }

  lemma {:induction false} BaselineSound(world: nat -> Wrk, i: nat, runs: int, s: SslStats)
    requires Sound(s, BASELINE_REASONS)
    ensures Sound(BaselineRuns(world, i, runs, s), BASELINE_REASONS)
    decreases runs - i
  {
    if i < runs {
      RecordSound(s, BASELINE_REASONS, WrkVerdict(world(i)));
      BaselineSound(world, i + 1, runs, s.Record(WrkVerdict(world(i))));
    }
  }

  lemma {:induction false} KernelRunsSound(world: nat -> KernelRun, i: nat, runs: int, s: SslStats)
    requires Sound(s, KERNEL_REASONS)
    ensures Sound(KernelRuns(world, i, runs, s).stats, KERNEL_REASONS)
    decreases runs - i
  {
    if i < runs {
      var verdict := KernelVerdict(world(i).launch);
      RecordSound(s, KERNEL_REASONS, verdict);
      KernelRunsSound(world, i + 1, runs, s.Record(verdict));
    }
  }

  lemma KernelSound(preflight: KernelPreflight, world: nat -> KernelRun, runs: int, s: SslStats)
    requires Sound(s, KERNEL_REASONS)
    ensures Sound(KernelPhase(preflight, world, runs, s).stats, KERNEL_REASONS)
  {
    var traced := s.Traced(preflight.trace);
    TracedSound(s, KERNEL_REASONS, preflight.trace);
    RecordSound(traced, KERNEL_REASONS, Bad(AttachFailures));
    KernelRunsSound(world, 0, runs, traced);
  }

  lemma {:induction false} AttemptsSound(world: nat -> Attempt, j: nat, tries: int, s: SslStats)
    requires Sound(s, BPFTIME_REASONS)
    ensures Sound(Attempts(world, j, tries, s).stats, BPFTIME_REASONS)
    decreases tries - j
  {
    if j < tries {
      RetrySound(s, BPFTIME_REASONS);
      var counted := if j > 0 then s.(retries := s.retries + 1) else s;
      var verdict := LaunchVerdict(world(j).launch);
      RecordSound(counted, BPFTIME_REASONS, verdict);
      AttemptsSound(world, j + 1, tries, counted.Record(verdict));
    }
  }

  lemma {:induction false} BpftimeRunsSound(world: nat -> nat -> Attempt, i: nat, runs: int, tries: int, s: SslStats)
    requires Sound(s, BPFTIME_REASONS)
    ensures Sound(BpftimeRuns(world, i, runs, tries, s).stats, BPFTIME_REASONS)
    decreases runs - i
  {
    if i < runs {
      AttemptsSound(world(i), 0, tries, s);
      BpftimeRunsSound(world, i + 1, runs, tries, Attempts(world(i), 0, tries, s).stats);
    }
  }

  lemma BpftimeSound(preflight: Preflight, world: nat -> nat -> Attempt, runs: int, retries: int, s: SslStats)
    requires Sound(s, BPFTIME_REASONS)
    ensures Sound(BpftimePhase(preflight, world, runs, retries, s).stats, BPFTIME_REASONS)
  {
    RecordSound(s, BPFTIME_REASONS, Bad(ReadinessFailures));
    if preflight.ExitedBeforeNginx? || preflight.Collected? {
      var traced := s.Traced(preflight.trace);
      TracedSound(s, BPFTIME_REASONS, preflight.trace);
      RecordSound(traced, BPFTIME_REASONS, Bad(AttachFailures));
      BpftimeRunsSound(world, 0, runs, retries + 1, traced);
    }
  }

  // ---------- Nothing is stored without an effective trace ----------

  lemma {:induction false} KernelTraces(world: nat -> KernelRun, i: nat, runs: int, s: SslStats)
    ensures KernelRuns(world, i, runs, s).stats.traces == s.traces
    decreases runs - i
  {
    if i < runs {
      KernelTraces(world, i + 1, runs, s.Record(KernelVerdict(world(i).launch)));
    }
  }

  lemma {:induction false} AttemptTraces(world: nat -> Attempt, j: nat, tries: int, s: SslStats)
    ensures Attempts(world, j, tries, s).stats.traces == s.traces
    decreases tries - j
  {
    if j < tries {
      var counted := if j > 0 then s.(retries := s.retries + 1) else s;
      AttemptTraces(world, j + 1, tries, counted.Record(LaunchVerdict(world(j).launch)));
    }
  }

  lemma {:induction false} BpftimeTraces(world: nat -> nat -> Attempt, i: nat, runs: int, tries: int, s: SslStats)
    ensures BpftimeRuns(world, i, runs, tries, s).stats.traces == s.traces
    decreases runs - i
  {
    if i < runs {
      AttemptTraces(world(i), 0, tries, s);
      BpftimeTraces(world, i + 1, runs, tries, Attempts(world(i), 0, tries, s).stats);
    }
  }

  lemma TraceKept(s: SslStats, trace: Trace)
    ensures Evidence(s) ==> Evidence(s.Traced(trace))
    ensures trace.Effective() ==> forall t: SslStats :: t.traces == s.traces + [trace] ==> Evidence(t)
  {
    var more := s.traces + [trace];
    assert more[|s.traces|] == trace;
    assert forall i :: 0 <= i < |s.traces| ==> more[i] == s.traces[i];
  }

  lemma KernelEvidence(preflight: KernelPreflight, world: nat -> KernelRun, runs: int, s: SslStats)
    requires Evidence(s)
    ensures Evidence(KernelPhase(preflight, world, runs, s).stats)
  {
    TraceKept(s, preflight.trace);
    KernelTraces(world, 0, runs, s.Traced(preflight.trace));
  }

  lemma BpftimeEvidence(preflight: Preflight, world: nat -> nat -> Attempt, runs: int, retries: int, s: SslStats)
    requires Evidence(s)
    ensures Evidence(BpftimePhase(preflight, world, runs, retries, s).stats)
  {
    if preflight.ExitedBeforeNginx? || preflight.Collected? {
      TraceKept(s, preflight.trace);
      BpftimeTraces(world, 0, runs, retries + 1, s.Traced(preflight.trace));
    }
  }

  // ---------- Every attempt is counted once ----------

  function AtLeastZero(n: int): nat { if n < 0 then 0 else n }

  lemma {:induction false} BaselineCounts(world: nat -> Wrk, i: nat, runs: int, s: SslStats)
    ensures var t := BaselineRuns(world, i, runs, s);
      t.valid + t.failed == s.valid + s.failed + AtLeastZero(runs - i) && t.retries == s.retries
    decreases runs - i
  {
    if i < runs {
      BaselineCounts(world, i + 1, runs, s.Record(WrkVerdict(world(i))));
    }
  }

  lemma {:induction false} KernelCounts(world: nat -> KernelRun, i: nat, runs: int, s: SslStats)
    ensures var p := KernelRuns(world, i, runs, s);
      && p.stats.retries == s.retries
      && p.stats.valid + p.stats.failed <= s.valid + s.failed + AtLeastZero(runs - i)
      && (p.completed ==> p.stats.valid + p.stats.failed == s.valid + s.failed + AtLeastZero(runs - i))
    decreases runs - i
  {
    if i < runs {
      KernelCounts(world, i + 1, runs, s.Record(KernelVerdict(world(i).launch)));
    }
  }

  /** What one run adds: each attempt after the first is a retry, and only the last may be valid. */
  lemma {:induction false} AttemptCounts(world: nat -> Attempt, j: nat, tries: int, s: SslStats)
    ensures var p := Attempts(world, j, tries, s);
      && s.retries <= p.stats.retries <= s.retries + AtLeastZero(tries - if j > 0 then j else 1)
      && s.valid <= p.stats.valid <= s.valid + 1
      && (p.stats.valid + p.stats.failed) - (s.valid + s.failed) ==
           p.stats.retries - s.retries + if j == 0 && tries > 0 then 1 else 0
    decreases tries - j
  {
    if j < tries {
      var counted := if j > 0 then s.(retries := s.retries + 1) else s;
      AttemptCounts(world, j + 1, tries, counted.Record(LaunchVerdict(world(j).launch)));
    }
  }

  lemma {:induction false} BpftimeCounts(world: nat -> nat -> Attempt, i: nat, runs: int, tries: int, s: SslStats)
    ensures var p := BpftimeRuns(world, i, runs, tries, s);
      && p.stats.retries - s.retries <= AtLeastZero(runs - i) * AtLeastZero(tries - 1)
      && p.stats.valid - s.valid <= AtLeastZero(runs - i)
      && (p.completed ==>
            (p.stats.valid + p.stats.failed) - (s.valid + s.failed) ==
            p.stats.retries - s.retries + if tries > 0 then AtLeastZero(runs - i) else 0)
    decreases runs - i
  {
    if i < runs {
      var run := Attempts(world(i), 0, tries, s);
      AttemptCounts(world(i), 0, tries, s);
      var left, each := AtLeastZero(runs - i - 1), AtLeastZero(tries - 1);
      OneMoreTerm(left, each);
      if run.completed {
        BpftimeCounts(world, i + 1, runs, tries, run.stats);
      }
    }
  }

  lemma OneMoreTerm(n: nat, each: nat)
    ensures (n + 1) * each == n * each + each && n * each >= 0
  {
  }

  /** The books of a bpftime phase whose preflight passed and that ran to its end. */
  lemma RetryAccounting(preflight: Preflight, world: nat -> nat -> Attempt, runs: nat, retries: int, s: SslStats)
    requires BpftimePhase(preflight, world, runs, retries, s).completed
    ensures var t := BpftimePhase(preflight, world, runs, retries, s).stats;
      var valid, failed, retried := t.valid - s.valid, t.failed - s.failed, t.retries - s.retries;
      && retried <= runs * AtLeastZero(retries)
      && (valid + failed == runs + retried <==> retries >= 0 || runs == 0)
  {
    BpftimeCounts(world, 0, runs, retries + 1, s.Traced(preflight.trace));
  }

  // ---------- What is stored, and when the benchmark counts as failed ----------

  /** The rate of the first attempt, from `j` on, that measured one. */
  function FirstRate(world: nat -> Attempt, j: nat, tries: int): seq<real>
    decreases tries - j
  {
    if j >= tries then []
    else
      match LaunchVerdict(world(j).launch)
      case Good(rate) => [rate]
      case Bad(_) => FirstRate(world, j + 1, tries)
  }

  function Rates(world: nat -> nat -> Attempt, i: nat, runs: int, tries: int): seq<real>
    decreases runs - i
  {
    if i >= runs then [] else FirstRate(world(i), 0, tries) + Rates(world, i + 1, runs, tries)
  }

  lemma {:induction false} AttemptResults(world: nat -> Attempt, j: nat, tries: int, s: SslStats)
    requires Attempts(world, j, tries, s).completed
    ensures Attempts(world, j, tries, s).stats.results == s.results + FirstRate(world, j, tries)
    decreases tries - j
  {
    if j < tries {
      var counted := if j > 0 then s.(retries := s.retries + 1) else s;
      var verdict := LaunchVerdict(world(j).launch);
      if verdict.Bad? {
        AttemptResults(world, j + 1, tries, counted.Record(verdict));
      }
    }
  }

  /** Each run stores the rate of its first successful attempt, in the order of the runs. */
  lemma {:induction false} BpftimeResults(world: nat -> nat -> Attempt, i: nat, runs: int, tries: int, s: SslStats)
    requires BpftimeRuns(world, i, runs, tries, s).completed
    ensures BpftimeRuns(world, i, runs, tries, s).stats.results == s.results + Rates(world, i, runs, tries)
    decreases runs - i
  {
    if i < runs {
      var run := Attempts(world(i), 0, tries, s);
      AttemptResults(world(i), 0, tries, s);
      BpftimeResults(world, i + 1, runs, tries, run.stats);
      assert s.results + FirstRate(world(i), 0, tries) + Rates(world, i + 1, runs, tries) ==
             s.results + (FirstRate(world(i), 0, tries) + Rates(world, i + 1, runs, tries));
    }
  }

  ghost predicate Measures(world: nat -> Attempt, tries: int) {
    exists j: nat :: j < tries && LaunchVerdict(world(j).launch).Good?
  }

  lemma {:induction false} FirstRateIff(world: nat -> Attempt, j: nat, tries: int)
    ensures |FirstRate(world, j, tries)| <= 1
    ensures FirstRate(world, j, tries) != [] <==> exists k: nat :: j <= k < tries && LaunchVerdict(world(k).launch).Good?
    decreases tries - j
  {
    if j < tries {
      FirstRateIff(world, j + 1, tries);
    }
  }

  lemma {:induction false} RatesIff(world: nat -> nat -> Attempt, i: nat, runs: int, tries: int)
    ensures |Rates(world, i, runs, tries)| <= AtLeastZero(runs - i)
    ensures |Rates(world, i, runs, tries)| == AtLeastZero(runs - i) <==>
      forall k: nat :: i <= k < runs ==> Measures(world(k), tries)
    decreases runs - i
  {
    if i < runs {
      FirstRateIff(world(i), 0, tries);
      assert FirstRate(world(i), 0, tries) != [] <==> Measures(world(i), tries);
      RatesIff(world, i + 1, runs, tries);
    }
  }

  /** benchmark_failed for one benchmark. */
  predicate TooFewRuns(s: SslStats, target: int) { s.valid < target }

  /** A completed bpftime phase fails the benchmark exactly when some run has no attempt
      that measured a rate. */
  lemma FailedIffSomeRunUnmeasured(preflight: Preflight, world: nat -> nat -> Attempt, runs: nat, retries: int, s: SslStats)
    requires Sound(s, BPFTIME_REASONS) && s.results == []
    requires BpftimePhase(preflight, world, runs, retries, s).completed
    ensures TooFewRuns(BpftimePhase(preflight, world, runs, retries, s).stats, runs) <==>
      exists i: nat :: i < runs && !Measures(world(i), retries + 1)
  {
    var traced := s.Traced(preflight.trace);
    BpftimeResults(world, 0, runs, retries + 1, traced);
    RatesIff(world, 0, runs, retries + 1);
    BpftimeSound(preflight, world, runs, retries, s);
  }
}
