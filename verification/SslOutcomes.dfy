/**
 What the phases of the ssl-nginx driver put on the books, told by what happened and not
 by how it was judged.
 */
module SslOutcomes {
  import opened Options
  import opened RunStats
  import opened SslRuns

  /** What happened in one attempt: an exception outside of wrk, a tracer that exited before
      wrk was started, an nginx that did not get ready, or a call of wrk. */
  datatype Outcome = Threw | TracerExited | NotReadyYet | Ran(wrk: Wrk)

  /** The rate to be stored: not zero, and from a wrk that exited with 0. */
  function RateOf(o: Outcome): seq<real> {
    if o.Ran? && o.wrk.Exited? && o.wrk.code == 0 && o.wrk.rate.Some? && o.wrk.rate.value != 0.0
    then [o.wrk.rate.value]
    else []
  }

  /** Whether the attempt failed for this reason. */
  predicate FailedFor(reason: Reason, o: Outcome) {
    match reason
    case WrkFailures => o.Ran? && o.wrk.Exited? && o.wrk.code != 0
    case ParseFailures => o.Ran? && o.wrk.Exited? && o.wrk.code == 0 && (o.wrk.rate.None? || o.wrk.rate.value == 0.0)
    case Timeouts => o.Ran? && o.wrk.TimedOut?
    case Exceptions => o.Threw? || (o.Ran? && o.wrk.Raised?)
    case AttachFailures => o.TracerExited?
    case ReadinessFailures => o.NotReadyYet?
    case TraceFailures => false
  }

  function Rates(): Outcome -> seq<real> { o => RateOf(o) }

  function Failures(): (Reason, Outcome) -> nat { (reason, o) => if FailedFor(reason, o) then 1 else 0 }

  ghost predicate BookedRuns(s: SslStats, t: SslStats, made: seq<Outcome>) {
    Booked(s, t, Rates(), Failures(), made)
  }

  /** The verdict fits what happened. */
  ghost predicate Fits(v: Verdict, o: Outcome) {
    match v
    case Good(rate) => RateOf(o) == [rate] && forall reason :: !FailedFor(reason, o)
    case Bad(bad) => RateOf(o) == [] && forall reason :: FailedFor(reason, o) <==> reason == bad
  }

  lemma WrkFits(w: Wrk)
    ensures Fits(WrkVerdict(w), Ran(w))
  {
  }

  lemma RecordBooked(s: SslStats, v: Verdict, o: Outcome)
    requires Fits(v, o) && (v.Bad? ==> v.reason in s.reasons)
    ensures BookedRuns(s, s.Record(v), [o])
  {
    var t := s.Record(v);
    forall reason ensures t.CountOf(reason) == s.CountOf(reason) + Failures()(reason, o) {
    }
    assert s.results + [] == s.results;
    BookedOne(s, t, Rates(), Failures(), o);
  }

  // ---------- Baseline ----------

  /** The calls of wrk from run `i` on. */
  function WrkCalls(world: nat -> Wrk, i: nat, runs: int): seq<Outcome> {
    seq(AtLeastZero(runs - i), k requires 0 <= k => Ran(world(i + k)))
  }

  /** The baseline phase stores exactly the non-zero rates of the calls of wrk that exited with
      0, in order, and counts exactly the other calls, each for what happened in it. */
  lemma {:induction false} BaselineByOutcome(world: nat -> Wrk, i: nat, runs: int, s: SslStats)
    requires s.reasons.Keys == BASELINE_REASONS
    ensures BookedRuns(s, BaselineRuns(world, i, runs, s), WrkCalls(world, i, runs))
    decreases runs - i
  {
    if i >= runs {
      BookedNothing(s, s, Rates(), Failures());
    } else {
      var next := s.Record(WrkVerdict(world(i)));
      WrkFits(world(i));
      RecordBooked(s, WrkVerdict(world(i)), Ran(world(i)));
      BaselineByOutcome(world, i + 1, runs, next);
      BookedThen(s, next, BaselineRuns(world, i, runs, s), Rates(), Failures(), [Ran(world(i))], WrkCalls(world, i + 1, runs));
      assert WrkCalls(world, i, runs) == [Ran(world(i))] + WrkCalls(world, i + 1, runs);
    }
  }

  // ---------- Kernel ----------

  predicate SeenInKernel(launch: KernelLaunch, o: Outcome) {
    match launch
    case KernelRaised => o.Threw?
    case KernelExited => o.TracerExited?
    case KernelWrk(wrk) => o == Ran(wrk)
  }

  function KernelOutcome(launch: KernelLaunch): (o: Outcome)
    ensures SeenInKernel(launch, o) && Fits(KernelVerdict(launch), o)
  {
    match launch
    case KernelRaised => Threw
    case KernelExited => TracerExited
    case KernelWrk(wrk) => Ran(wrk)
  }

  /** `made` is what happened from run `i` on, in all the runs or up to the first whose
      cleanup raises. */
  predicate KernelMade(world: nat -> KernelRun, i: nat, runs: int, made: seq<Outcome>, completed: bool)
    decreases |made|
  {
    if made == [] then completed && i >= runs
    else
      && i < runs && SeenInKernel(world(i).launch, made[0])
      && if world(i).cleanupRaises then |made| == 1 && !completed
         else KernelMade(world, i + 1, runs, made[1..], completed)
  }

  lemma {:induction false} KernelBooked(world: nat -> KernelRun, i: nat, runs: int, s: SslStats) returns (made: seq<Outcome>)
    requires s.reasons.Keys == KERNEL_REASONS
    ensures var p := KernelRuns(world, i, runs, s);
      KernelMade(world, i, runs, made, p.completed) && BookedRuns(s, p.stats, made)
    decreases runs - i
  {
    made := [];
    if i >= runs {
      BookedNothing(s, s, Rates(), Failures());
    } else {
      var v, o := KernelVerdict(world(i).launch), KernelOutcome(world(i).launch);
      RecordBooked(s, v, o);
      made := [o];
      if !world(i).cleanupRaises {
        var rest := KernelBooked(world, i + 1, runs, s.Record(v));
        BookedThen(s, s.Record(v), KernelRuns(world, i, runs, s).stats, Rates(), Failures(), [o], rest);
        made := [o] + rest;
        assert made[1..] == rest;
      }
    }
  }

  /** The trace that the preflight collected shows events of an attached tracer without errors. */
  predicate ShowsEvents(trace: Trace) {
    trace.attachMarkers != [] && trace.errorMarkers == [] && trace.eventCount > 0
  }

  /** The kernel phase: without events in the preflight one failed attachment is counted, and
      nothing else; with events exactly what happened in the runs that were made. */
  lemma KernelByOutcome(preflight: KernelPreflight, world: nat -> KernelRun, runs: int, s: SslStats)
    returns (made: seq<Outcome>)
    requires s.reasons.Keys == KERNEL_REASONS
    ensures var p := KernelPhase(preflight, world, runs, s);
      && BookedRuns(s, p.stats, made) && p.stats.traces == s.traces + [preflight.trace]
      && if preflight.pkillRaises then made == [] && !p.completed
         else if !ShowsEvents(preflight.trace) then made == [TracerExited] && !p.completed
         else KernelMade(world, 0, runs, made, p.completed)
  {
    var traced := s.Traced(preflight.trace);
    BookedNothing(s, traced, Rates(), Failures());
    made := [];
    if !preflight.pkillRaises {
      if !ShowsEvents(preflight.trace) {
        made := [TracerExited];
        RecordBooked(traced, Bad(AttachFailures), TracerExited);
      } else {
        made := KernelBooked(world, 0, runs, traced);
        KernelTraces(world, 0, runs, traced);
      }
    }
    BookedThen(s, traced, KernelPhase(preflight, world, runs, s).stats, Rates(), Failures(), [], made);
    assert [] + made == made;
  }

  // ---------- Bpftime ----------

  predicate Seen(launch: Launch, o: Outcome) {
    match launch
    case LaunchRaised => o.Threw?
    case SnifferExited => o.TracerExited?
    case NginxNotReady => o.NotReadyYet?
    case RanWrk(wrk) => o == Ran(wrk)
  }

  function OutcomeOf(launch: Launch): (o: Outcome)
    ensures Seen(launch, o) && Fits(LaunchVerdict(launch), o)
  {
    match launch
    case LaunchRaised => Threw
    case SnifferExited => TracerExited
    case NginxNotReady => NotReadyYet
    case RanWrk(wrk) => Ran(wrk)
  }

  /** `made` is what happened in one run from attempt `j` on: up to the first attempt that has
      a rate, or whose cleanup raises, or in all. */
  predicate AttemptsMade(world: nat -> Attempt, j: nat, tries: int, made: seq<Outcome>, completed: bool)
    decreases |made|
  {
    if made == [] then completed && j >= tries
    else
      && j < tries && Seen(world(j).launch, made[0])
      && if world(j).cleanupRaises then |made| == 1 && !completed
         else if RateOf(made[0]) != [] then |made| == 1 && completed
         else AttemptsMade(world, j + 1, tries, made[1..], completed)
  }

  lemma OneAttempt(s: SslStats, retry: bool, launch: Launch)
    requires s.reasons.Keys == BPFTIME_REASONS
    ensures var counted := if retry then s.(retries := s.retries + 1) else s;
      BookedRuns(s, counted.Record(LaunchVerdict(launch)), [OutcomeOf(launch)])
  {
    var counted := if retry then s.(retries := s.retries + 1) else s;
    var v, o := LaunchVerdict(launch), OutcomeOf(launch);
    BookedNothing(s, counted, Rates(), Failures());
    RecordBooked(counted, v, o);
    BookedThen(s, counted, counted.Record(v), Rates(), Failures(), [], [o]);
    assert [] + [o] == [o];
  }

  /** The state after attempt `j`. */
  function NextStats(world: nat -> Attempt, j: nat, s: SslStats): SslStats {
    (if j > 0 then s.(retries := s.retries + 1) else s).Record(LaunchVerdict(world(j).launch))
  }

  lemma {:induction false} AttemptsNext(world: nat -> Attempt, j: nat, tries: int, s: SslStats)
    requires j < tries
    ensures var next, rates := NextStats(world, j, s), RateOf(OutcomeOf(world(j).launch));
      Attempts(world, j, tries, s) ==
        if world(j).cleanupRaises then Phase(next, false)
        else if rates != [] then Phase(next, true)
        else Attempts(world, j + 1, tries, next)
  {
    assert Fits(LaunchVerdict(world(j).launch), OutcomeOf(world(j).launch));
  }

  lemma {:induction false} MadeNext(world: nat -> Attempt, j: nat, tries: int, rest: seq<Outcome>, completed: bool)
    requires j < tries && !world(j).cleanupRaises && RateOf(OutcomeOf(world(j).launch)) == []
    requires AttemptsMade(world, j + 1, tries, rest, completed)
    ensures AttemptsMade(world, j, tries, [OutcomeOf(world(j).launch)] + rest, completed)
  {
    assert ([OutcomeOf(world(j).launch)] + rest)[1..] == rest;
  }

  function AttemptOutcomes(world: nat -> Attempt, j: nat, tries: int): seq<Outcome>
    decreases tries - j
  {
    if j >= tries then []
    else
      var o := OutcomeOf(world(j).launch);
      [o] + if world(j).cleanupRaises || RateOf(o) != [] then [] else AttemptOutcomes(world, j + 1, tries)
  }

  lemma {:induction false} OutcomesMade(world: nat -> Attempt, j: nat, tries: int, s: SslStats)
    ensures AttemptsMade(world, j, tries, AttemptOutcomes(world, j, tries), Attempts(world, j, tries, s).completed)
    decreases tries - j
  {
    if j < tries {
      AttemptsNext(world, j, tries, s);
      if !world(j).cleanupRaises && RateOf(OutcomeOf(world(j).launch)) == [] {
        var next := NextStats(world, j, s);
        OutcomesMade(world, j + 1, tries, next);
        MadeNext(world, j, tries, AttemptOutcomes(world, j + 1, tries), Attempts(world, j + 1, tries, next).completed);
      }
    }
  }

  lemma {:induction false} OutcomesBooked(world: nat -> Attempt, j: nat, tries: int, s: SslStats)
    requires s.reasons.Keys == BPFTIME_REASONS
    ensures BookedRuns(s, Attempts(world, j, tries, s).stats, AttemptOutcomes(world, j, tries))
    decreases tries - j
  {
    if j >= tries {
      BookedNothing(s, s, Rates(), Failures());
    } else {
      var next, o := NextStats(world, j, s), OutcomeOf(world(j).launch);
      OneAttempt(s, j > 0, world(j).launch);
      AttemptsNext(world, j, tries, s);
      if !world(j).cleanupRaises && RateOf(o) == [] {
        OutcomesBooked(world, j + 1, tries, next);
        BookedThen(s, next, Attempts(world, j + 1, tries, next).stats, Rates(), Failures(), [o],
                   AttemptOutcomes(world, j + 1, tries));
      } else {
        assert [o] + [] == [o];
      }
    }
  }

  function Joined(made: seq<seq<Outcome>>): seq<Outcome> {
    if made == [] then [] else made[0] + Joined(made[1..])
  }

  /** `made` is what happened from run `i` on, attempt by attempt, in all the runs or up to the
      first with a cleanup that raises. */
  predicate RunsMade(world: nat -> nat -> Attempt, i: nat, runs: int, tries: int, made: seq<seq<Outcome>>,
                     completed: bool)
    decreases |made|
  {
    if made == [] then completed && i >= runs
    else
      && i < runs
      && if AttemptsMade(world(i), 0, tries, made[0], true) then RunsMade(world, i + 1, runs, tries, made[1..], completed)
         else AttemptsMade(world(i), 0, tries, made[0], false) && |made| == 1 && !completed
  }

  lemma {:induction false} EndsOneWay(world: nat -> Attempt, j: nat, tries: int, made: seq<Outcome>)
    requires AttemptsMade(world, j, tries, made, false)
    ensures !AttemptsMade(world, j, tries, made, true)
    decreases |made|
  {
    if made != [] && !world(j).cleanupRaises && RateOf(made[0]) == [] {
      EndsOneWay(world, j + 1, tries, made[1..]);
    }
  }

  lemma {:induction false} BpftimeBooked(world: nat -> nat -> Attempt, i: nat, runs: int, tries: int, s: SslStats)
    returns (made: seq<seq<Outcome>>)
    requires s.reasons.Keys == BPFTIME_REASONS
    ensures var p := BpftimeRuns(world, i, runs, tries, s);
      RunsMade(world, i, runs, tries, made, p.completed) && BookedRuns(s, p.stats, Joined(made))
    decreases runs - i
  {
    made := [];
    if i >= runs {
      BookedNothing(s, s, Rates(), Failures());
    } else {
      var run := Attempts(world(i), 0, tries, s);
      var first := AttemptOutcomes(world(i), 0, tries);
      OutcomesMade(world(i), 0, tries, s);
      OutcomesBooked(world(i), 0, tries, s);
      made := [first];
      JoinedOne(first);
      if !run.completed {
        EndsOneWay(world(i), 0, tries, first);
      } else {
        var rest := BpftimeBooked(world, i + 1, runs, tries, run.stats);
        BookedThen(s, run.stats, BpftimeRuns(world, i, runs, tries, s).stats, Rates(), Failures(), first, Joined(rest));
        made := [first] + rest;
        assert made[1..] == rest;
      }
    }
  }

  /** The bpftime phase: what its preflight counts, or exactly what happened in the attempts
      that were made. */
  lemma BpftimeByOutcome(preflight: Preflight, world: nat -> nat -> Attempt, runs: int, retries: int, s: SslStats)
    returns (made: seq<seq<Outcome>>)
    requires s.reasons.Keys == BPFTIME_REASONS
    ensures var p := BpftimePhase(preflight, world, runs, retries, s);
      && BookedRuns(s, p.stats, Joined(made))
      && p.stats.traces == s.traces + (if preflight.ExitedBeforeNginx? || preflight.Collected? then [preflight.trace] else [])
      && match preflight
         case ExitedBeforeNginx(_) => made == [[TracerExited]] && !p.completed
         case NotReady => made == [[NotReadyYet]] && !p.completed
         case PreflightRaised => made == [] && !p.completed
         case Collected(trace) =>
           if !ShowsEvents(trace) then made == [[TracerExited]] && !p.completed
           else RunsMade(world, 0, runs, retries + 1, made, p.completed)
  {
    var t := BpftimePhase(preflight, world, runs, retries, s).stats;
    var traced := if preflight.ExitedBeforeNginx? || preflight.Collected? then s.Traced(preflight.trace) else s;
    BookedNothing(s, traced, Rates(), Failures());
    made := [];
    if preflight.NotReady? {
      made := [[NotReadyYet]];
      RecordBooked(traced, Bad(ReadinessFailures), NotReadyYet);
      JoinedOne([NotReadyYet]);
    } else if preflight.ExitedBeforeNginx? || (preflight.Collected? && !ShowsEvents(preflight.trace)) {
      made := [[TracerExited]];
      RecordBooked(traced, Bad(AttachFailures), TracerExited);
      JoinedOne([TracerExited]);
    } else if preflight.Collected? {
      made := BpftimeBooked(world, 0, runs, retries + 1, traced);
      BpftimeTraces(world, 0, runs, retries + 1, traced);
    }
    BookedThen(s, traced, t, Rates(), Failures(), [], Joined(made));
    assert [] + Joined(made) == Joined(made);
  }

  lemma JoinedOne(run: seq<Outcome>)
    ensures Joined([run]) == run
  {
    assert [run][1..] == [] && run + [] == run;
  }
}
