/**
 The accounting of the syscount-nginx driver: every run also collects a trace log, and
 its rate is stored only if that log shows that tracing worked.
 */
module SyscountRuns {
  import opened Options
  import opened Text
  import opened RunStats

  const REASONS := {TraceFailures, WrkFailures, ParseFailures, Timeouts, Exceptions}

  // ---------- The trace log ----------

  datatype Summary = Summary(started: bool, errors: seq<string>, requireCounts: bool, countRows: nat) {
    predicate TraceSuccess() { started && errors == [] && (!requireCounts || countRows > 0) }
  }

  /** The head of a table of counts. */
  predicate IsHeader(stripped: string) {
    Contains(stripped, "COUNT") && (Contains(stripped, "SYSCALL") || Contains(stripped, "PID"))
  }

  /** The last field of a line without space at its ends. */
  function LastField(s: string): string {
    if s == [] || IsSpace(s[|s| - 1]) then [] else LastField(s[..|s| - 1]) + [s[|s| - 1]]
  }

  predicate EndsInNumber(stripped: string) {
    var field := LastField(stripped);
    field != [] && forall i :: 0 <= i < |field| ==> IsDigit(field[i])
  }

  /** The parts that make a header. */
  lemma IsHeaderIff(s: string)
    ensures IsHeader(s) <==>
      && (exists a: string, b: string :: s == a + "COUNT" + b)
      && ((exists a: string, b: string :: s == a + "SYSCALL" + b) || (exists a: string, b: string :: s == a + "PID" + b))
  {
    ContainsIff(s, "COUNT");
    ContainsIff(s, "SYSCALL");
    ContainsIff(s, "PID");
  }

  ghost predicate LastFieldIs(s: string, a: string, field: string) {
    && s == a + field && field != [] && (a == [] || IsSpace(a[|a| - 1]))
    && forall i :: 0 <= i < |field| ==> !IsSpace(field[i])
  }

  lemma {:induction false} LastFieldAt(a: string, field: string)
    requires a == [] || IsSpace(a[|a| - 1])
    requires forall i :: 0 <= i < |field| ==> !IsSpace(field[i])
    ensures LastField(a + field) == field
  {
    if field == [] {
      assert a + field == a;
    } else {
      var front := field[..|field| - 1];
      assert (a + field)[..|a + field| - 1] == a + front;
      LastFieldAt(a, front);
    }
  }

  /** The last field is the part behind the last space; the line ends in a number if that
      consists of digits. */
  lemma EndsInNumberIff(a: string, field: string)
    requires LastFieldIs(a + field, a, field)
    ensures EndsInNumber(a + field) <==> forall i :: 0 <= i < |field| ==> '0' <= field[i] <= '9'
  {
    LastFieldAt(a, field);
  }

  /** Line `i` is a row: it ends in a number and stands below a header with no blank line
      in between. */
  ghost predicate RowAt(lines: seq<string>, i: nat) {
    && i < |lines|
    && Strip(lines[i]) != "" && !IsHeader(Strip(lines[i])) && EndsInNumber(Strip(lines[i]))
    && InTable(lines, i)
  }

  ghost predicate InTable(lines: seq<string>, i: nat) {
    exists h: nat :: h < i <= |lines| && IsHeader(Strip(lines[h])) && NoBlank(lines, h, i)
  }

  ghost predicate NoBlank(lines: seq<string>, a: nat, b: nat) {
    forall k: nat :: a <= k < b && k < |lines| ==> Strip(lines[k]) != ""
  }

  lemma {:induction false} InTableStep(lines: seq<string>, i: nat)
    requires i < |lines|
    ensures InTable(lines, i + 1) <==> Strip(lines[i]) != "" && (IsHeader(Strip(lines[i])) || InTable(lines, i))
  {
    if InTable(lines, i + 1) {
      var h: nat :| h < i + 1 && IsHeader(Strip(lines[h])) && NoBlank(lines, h, i + 1);
      assert Strip(lines[i]) != "";
      if h < i {
        assert NoBlank(lines, h, i);
      }
    }
    if Strip(lines[i]) != "" && IsHeader(Strip(lines[i])) {
      assert NoBlank(lines, i, i + 1);
    } else if Strip(lines[i]) != "" && InTable(lines, i) {
      var h: nat :| h < i && IsHeader(Strip(lines[h])) && NoBlank(lines, h, i);
      assert NoBlank(lines, h, i + 1);
    }
  }

  /** The rows among the first `n` lines. */
  ghost function Rows(lines: seq<string>, n: nat): seq<string>
    requires n <= |lines|
  {
    if n == 0 then []
    else Rows(lines, n - 1) + if RowAt(lines, n - 1) then [Strip(lines[n - 1])] else []
  }

  /** The scan of the log. */
  method CountRows(lines: seq<string>) returns (rows: seq<string>)
    ensures rows == Rows(lines, |lines|)
  {
    rows := [];
    var inTable := false;
    for i := 0 to |lines|
      invariant inTable <==> InTable(lines, i)
      invariant rows == Rows(lines, i)
    {
      InTableStep(lines, i);
      var stripped := Strip(lines[i]);
      if stripped == "" {
        inTable := false;
      } else if IsHeader(stripped) {
        inTable := true;
      } else if inTable && EndsInNumber(stripped) {
        rows := rows + [stripped];
      }
    }
  }

  /** The rows are the stripped lines that are rows, in the order of the log. */
  lemma {:induction false} RowsInOrder(lines: seq<string>, n: nat) returns (pos: seq<nat>)
    requires n <= |lines|
    ensures |pos| == |Rows(lines, n)| && forall k, l :: 0 <= k < l < |pos| ==> pos[k] < pos[l]
    ensures forall k :: 0 <= k < |pos| ==>
      pos[k] < n && RowAt(lines, pos[k]) && Rows(lines, n)[k] == Strip(lines[pos[k]])
    ensures forall i: nat :: i < n && RowAt(lines, i) ==> i in pos
  {
    pos := [];
    if n > 0 {
      pos := RowsInOrder(lines, n - 1);
      if RowAt(lines, n - 1) {
        pos := pos + [n - 1];
      }
    }
  }

  /** The log has counts exactly when some line is a row. */
  lemma {:induction false} HasCountsIff(lines: seq<string>, n: nat)
    requires n <= |lines|
    ensures Rows(lines, n) != [] <==> exists i: nat :: i < n && RowAt(lines, i)
  {
    if n > 0 {
      HasCountsIff(lines, n - 1);
    }
  }

  // ---------- One run ----------

  /** How far a run came before its trace log was read. */
  datatype Start =
    | Skipped                                   // no nginx PID, or no nginx.conf: nothing is counted
    | FailedBeforeLogs                          // an exception, or nginx did not start, or has no PID
    | FailedAfterLogs(started: bool)            // an exception before or after syscount was started
    | SyscountExited
    | RanWrk(wrk: Wrk)

  /** Waiting for syscount and reading its log; `late` when the wait timed out. */
  datatype Finish = Read(late: bool, summary: Summary) | Raises(late: bool)

  /** `cleanupRaises` when the cleanup after the run does. */
  datatype Run = Run(start: Start, finish: Finish, cleanupRaises: bool)

  type TraceStats = Stats<Summary>

  datatype Phase = Phase(stats: TraceStats, completed: bool)

  function RateOf(start: Start): Option<Rate> {
    if start.RanWrk? then
      match WrkVerdict(start.wrk) case Good(rate) => Some(rate) case Bad(_) => None
    else None
  }

  /** The failure that the body of the run counts. */
  function Trouble(start: Start): Option<Reason> {
    match start
    case Skipped => None
    case FailedBeforeLogs => Some(Exceptions)
    case FailedAfterLogs(_) => Some(Exceptions)
    case SyscountExited => Some(TraceFailures)
    case RanWrk(wrk) => match WrkVerdict(wrk) case Good(_) => None case Bad(reason) => Some(reason)
  }

  function Counted(s: TraceStats, trouble: Option<Reason>): TraceStats {
    match trouble case None => s case Some(reason) => s.Failure(reason)
  }

  predicate HasLogs(start: Start) { !start.Skipped? && !start.FailedBeforeLogs? }

  predicate HasProcess(start: Start) { HasLogs(start) && (start.FailedAfterLogs? ==> start.started) }

  function Finished(s: TraceStats, run: Run): Phase {
    var waited := if HasProcess(run.start) && run.finish.late then s.Failure(Timeouts) else s;
    if run.finish.Raises? then Phase(waited, false)
    else
      var summary := run.finish.summary;
      var traced := waited.Traced(summary);
      var rate := RateOf(run.start);
      Phase(if rate.None? then traced
            else if summary.TraceSuccess() then traced.Success(rate.value)
            else traced.Failure(TraceFailures), true)
  }

  function OneRun(s: TraceStats, run: Run): Phase {
    var counted := Counted(s, Trouble(run.start));
    var finished := if HasLogs(run.start) then Finished(counted, run) else Phase(counted, true);
    Phase(finished.stats, finished.completed && !run.cleanupRaises)
  }

  function Runs(world: nat -> Run, i: nat, runs: int, s: TraceStats): Phase
    decreases runs - i
  {
    if i >= runs then Phase(s, true)
    else
      var p := OneRun(s, world(i));
      if p.completed then Runs(world, i + 1, runs, p.stats) else p
  }

  /** terminate_and_summarize_syscount. */
  method TerminateAndSummarize(book: Book<Summary>, process: bool, finish: Finish) returns (summary: Option<Summary>)
    modifies book
    ensures var waited := if process && finish.late then old(book.State()).Failure(Timeouts) else old(book.State());
      book.State() == if finish.Raises? then waited else waited.Traced(finish.summary)
    ensures summary == if finish.Raises? then None else Some(finish.summary)
  {
    if process && finish.late {
      book.MarkFailed(Timeouts);
    }
    if finish.Raises? {
      return None;
    }
    book.AddTrace(finish.summary);
    return Some(finish.summary);
  }

  /** The loop of the kernel and of the userspace runs. */
  method RunTraced(book: Book<Summary>, runs: int, world: nat -> Run) returns (completed: bool)
    modifies book
    ensures Phase(book.State(), completed) == Runs(world, 0, runs, old(book.State()))
  {
    var i := 0;
    while i < runs
      invariant Runs(world, i, runs, book.State()) == Runs(world, 0, runs, old(book.State()))
    {
      completed := TraceOnce(book, world(i));
      if !completed {
        return false;
      }
      i := i + 1;
    }
    return true;
  }

  method TraceOnce(book: Book<Summary>, run: Run) returns (completed: bool)
    modifies book
    ensures Phase(book.State(), completed) == OneRun(old(book.State()), run)
  {
    var reqPerSec: Option<Rate> := None;
    match run.start {
      case Skipped =>
      case FailedBeforeLogs => book.MarkFailed(Exceptions);
      case FailedAfterLogs(_) => book.MarkFailed(Exceptions);
      case SyscountExited => book.MarkFailed(TraceFailures);
      case RanWrk(wrk) =>
        match WrkVerdict(wrk) {
          case Good(rate) => reqPerSec := Some(rate);
          case Bad(reason) => book.MarkFailed(reason);
        }
    }
    if HasLogs(run.start) {
      var summary := TerminateAndSummarize(book, HasProcess(run.start), run.finish);
      if summary.None? {
        return false;
      }
      if reqPerSec.Some? {
        if summary.value.TraceSuccess() {
          book.MarkValid(reqPerSec.value);
        } else {
          book.MarkFailed(TraceFailures);
        }
      }
    }
    return !run.cleanupRaises;
  }

  // ---------- The books ----------

  /** How many summaries show that tracing worked. */
  function Successes(traces: seq<Summary>): nat {
    if traces == [] then 0
    else Successes(traces[..|traces| - 1]) + if traces[|traces| - 1].TraceSuccess() then 1 else 0
  }

  /** Balanced, and every stored rate has a successful trace summary of its own. */
  ghost predicate Sound(s: TraceStats) {
    s.Balanced() && s.reasons.Keys == REASONS && s.valid <= Successes(s.traces)
  }

  lemma TracedSuccesses(s: TraceStats, summary: Summary)
    ensures Successes(s.Traced(summary).traces) == Successes(s.traces) + if summary.TraceSuccess() then 1 else 0
    ensures s.Traced(summary).Total() == s.Total()
  {
    assert (s.traces + [summary])[..|s.traces|] == s.traces;
  }

  lemma FailureSound(s: TraceStats, reason: Reason)
    requires Sound(s) && reason in REASONS
    ensures Sound(s.Failure(reason))
  {
    FailureBalanced(s, reason);
  }

  lemma TroubleDeclared(start: Start)
    ensures Trouble(start).Some? ==> Trouble(start).value in REASONS
    ensures RateOf(start).Some? ==> Trouble(start).None? && RateOf(start).value > 0.0
  {
  }

  lemma FinishedSound(s: TraceStats, run: Run)
    requires Sound(s)
    ensures Sound(Finished(s, run).stats)
  {
    FailureSound(s, Timeouts);
    var waited := if HasProcess(run.start) && run.finish.late then s.Failure(Timeouts) else s;
    TroubleDeclared(run.start);
    if run.finish.Read? {
      var traced := waited.Traced(run.finish.summary);
      TracedSuccesses(waited, run.finish.summary);
      FailureBalanced(traced, TraceFailures);
      if RateOf(run.start).Some? {
        RecordBalanced(traced, Good(RateOf(run.start).value));
      }
    }
  }

  lemma OneRunSound(s: TraceStats, run: Run)
    requires Sound(s)
    ensures Sound(OneRun(s, run).stats)
  {
    TroubleDeclared(run.start);
    if Trouble(run.start).Some? {
      FailureSound(s, Trouble(run.start).value);
    }
    FinishedSound(Counted(s, Trouble(run.start)), run);
  }

  /** On every path the counters agree with what is stored, and at least as many trace
      summaries are successful as rates are stored. */
  lemma {:induction false} RunsSound(world: nat -> Run, i: nat, runs: int, s: TraceStats)
    requires Sound(s)
    ensures Sound(Runs(world, i, runs, s).stats)
    decreases runs - i
  {
    if i < runs {
      OneRunSound(s, world(i));
      RunsSound(world, i + 1, runs, OneRun(s, world(i)).stats);
    }
  }

  /** What one run adds, exactly. A rate is stored only after a summary that shows a
      working trace; nothing at all is counted only for a skipped run, or when the
      trace log of a measured run could not be read. */
  lemma {:induction false} OneRunCounts(s: TraceStats, run: Run)
    ensures var t := OneRun(s, run).stats;
      var valid, failed := t.valid - s.valid, t.failed - s.failed;
      && 0 <= valid <= 1 && 0 <= failed <= 2 && valid + failed <= 2
      && (valid == 1 <==> RateOf(run.start).Some? && run.finish.Read? && run.finish.summary.TraceSuccess())
      && (valid == 1 ==> t.traces == s.traces + [run.finish.summary])
      && (valid + failed == 0 <==>
            || run.start.Skipped?
            || (RateOf(run.start).Some? && run.finish.Raises? && !run.finish.late))
      && (failed == 2 <==>
            && HasProcess(run.start) && run.finish.late
            && (RateOf(run.start).Some? ==> run.finish.Read? && !run.finish.summary.TraceSuccess()))
  {
    TroubleDeclared(run.start);
  }

  lemma {:induction false} RunsCounts(world: nat -> Run, i: nat, runs: int, s: TraceStats)
    ensures var t := Runs(world, i, runs, s).stats;
      var left := if i < runs then runs - i else 0;
      t.valid <= s.valid + left && t.failed <= s.failed + 2 * left && t.valid + t.failed <= s.valid + s.failed + 2 * left
    decreases runs - i
  {
    if i < runs {
      OneRunCounts(s, world(i));
      RunsCounts(world, i + 1, runs, OneRun(s, world(i)).stats);
    }
  }

  // ---------- Told by what happened ----------

  /** wrk exited with 0 and a rate that is not zero. */
  predicate Measured(start: Start) {
    start.RanWrk? && start.wrk.Exited? && start.wrk.code == 0 && start.wrk.rate.Some? && start.wrk.rate.value != 0.0
  }

  /** The log was read and shows that tracing started, no error, and counts if they are required. */
  predicate LogShowsTrace(finish: Finish) {
    && finish.Read? && finish.summary.started && finish.summary.errors == []
    && (finish.summary.requireCounts ==> finish.summary.countRows > 0)
  }

  /** The rate that a run has to store. */
  function StoredRate(run: Run): seq<real> {
    if Measured(run.start) && LogShowsTrace(run.finish) then [run.start.wrk.rate.value] else []
  }

  predicate SyscountStarted(start: Start) {
    start.SyscountExited? || start.RanWrk? || (start.FailedAfterLogs? && start.started)
  }

  function If(b: bool): nat { if b then 1 else 0 }

  /** How often a run fails for this reason. */
  function FailuresFor(reason: Reason, run: Run): nat {
    var start, finish := run.start, run.finish;
    match reason
    case WrkFailures => If(start.RanWrk? && start.wrk.Exited? && start.wrk.code != 0)
    case ParseFailures =>
      If(start.RanWrk? && start.wrk.Exited? && start.wrk.code == 0 && (start.wrk.rate.None? || start.wrk.rate.value == 0.0))
    case Timeouts => If(start.RanWrk? && start.wrk.TimedOut?) + If(SyscountStarted(start) && finish.late)
    case Exceptions => If(start.FailedBeforeLogs? || start.FailedAfterLogs? || (start.RanWrk? && start.wrk.Raised?))
    case TraceFailures => If(start.SyscountExited?) + If(Measured(start) && finish.Read? && !LogShowsTrace(finish))
    case ReadinessFailures => 0
    case AttachFailures => 0
  }

  /** The summary that a run records: wherever there is a log, unless reading it raises. */
  function SummaryOf(run: Run): seq<Summary> {
    if !run.start.Skipped? && !run.start.FailedBeforeLogs? && run.finish.Read? then [run.finish.summary] else []
  }

  /** The phase goes on after the run. */
  predicate GoesOn(run: Run) {
    !run.cleanupRaises && (run.start.Skipped? || run.start.FailedBeforeLogs? || run.finish.Read?)
  }

  function Rates(): Run -> seq<real> { run => StoredRate(run) }

  function Failures(): (Reason, Run) -> nat { (reason, run) => FailuresFor(reason, run) }

  /** `made` are the runs from run `i` on: all, or up to the first that ends the phase. */
  predicate RunsMade(world: nat -> Run, i: nat, runs: int, made: seq<Run>, completed: bool)
    decreases |made|
  {
    if made == [] then completed && i >= runs
    else
      && i < runs && made[0] == world(i)
      && if GoesOn(made[0]) then RunsMade(world, i + 1, runs, made[1..], completed) else |made| == 1 && !completed
  }

  /** What a failure does to the counter of each reason. */
  lemma FailureCounts(s: TraceStats, reason: Reason, other: Reason)
    requires reason in s.reasons
    ensures s.Failure(reason).CountOf(other) == s.CountOf(other) + If(reason == other)
  {
  }

  lemma CountedBooked(s: TraceStats, start: Start, reason: Reason)
    requires s.reasons.Keys == REASONS
    ensures var t := Counted(s, Trouble(start));
      && t == s.(failed := t.failed, reasons := t.reasons) && t.reasons.Keys == s.reasons.Keys
      && t.CountOf(reason) == s.CountOf(reason) + If(Trouble(start) == Some(reason))
  {
    TroubleDeclared(start);
    if Trouble(start).Some? {
      FailureCounts(s, Trouble(start).value, reason);
    }
  }

  /** The state after waiting for syscount. */
  function Waited(s: TraceStats, run: Run): TraceStats {
    if HasProcess(run.start) && run.finish.late then s.Failure(Timeouts) else s
  }

  /** What reading the log adds. */
  lemma ReadBooked(s: TraceStats, run: Run, reason: Reason)
    requires s.reasons.Keys == REASONS && HasLogs(run.start) && run.finish.Read?
    ensures var t := Finished(s, run).stats;
      var waited := Waited(s, run);
      && t.reasons.Keys == waited.reasons.Keys && t.traces == waited.traces + [run.finish.summary]
      && t.results == waited.results + StoredRate(run) && t.valid == waited.valid + |StoredRate(run)|
      && t.CountOf(reason) ==
           waited.CountOf(reason) + If(reason == TraceFailures && Measured(run.start) && !LogShowsTrace(run.finish))
  {
    var waited := Waited(s, run);
    assert waited.results + [] == waited.results;
    FailureCounts(waited.Traced(run.finish.summary), TraceFailures, reason);
  }

  lemma FinishedBooked(s: TraceStats, run: Run, reason: Reason)
    requires s.reasons.Keys == REASONS && HasLogs(run.start)
    ensures var t := Finished(s, run).stats;
      && t.reasons.Keys == s.reasons.Keys && t.traces == s.traces + SummaryOf(run)
      && t.results == s.results + StoredRate(run) && t.valid == s.valid + |StoredRate(run)|
      && t.CountOf(reason) == s.CountOf(reason) + If(reason == Timeouts && SyscountStarted(run.start) && run.finish.late)
                              + If(reason == TraceFailures && Measured(run.start) && run.finish.Read? && !LogShowsTrace(run.finish))
  {
    FailureCounts(s, Timeouts, reason);
    if run.finish.Read? {
      ReadBooked(s, run, reason);
    } else {
      assert s.results + [] == s.results && s.traces + [] == s.traces;
    }
  }

  lemma OneRunBookedFor(s: TraceStats, run: Run, reason: Reason)
    requires s.reasons.Keys == REASONS
    ensures var t := OneRun(s, run).stats;
      && t.reasons.Keys == s.reasons.Keys && t.traces == s.traces + SummaryOf(run)
      && t.results == s.results + StoredRate(run) && t.valid == s.valid + |StoredRate(run)|
      && t.CountOf(reason) == s.CountOf(reason) + FailuresFor(reason, run)
  {
    CountedBooked(s, run.start, reason);
    if HasLogs(run.start) {
      FinishedBooked(Counted(s, Trouble(run.start)), run, reason);
    } else {
      assert s.results + [] == s.results && s.traces + [] == s.traces;
    }
  }

  lemma OneRunBooked(s: TraceStats, run: Run)
    requires s.reasons.Keys == REASONS
    ensures Booked(s, OneRun(s, run).stats, Rates(), Failures(), [run])
    ensures OneRun(s, run).completed <==> GoesOn(run)
  {
    forall reason ensures OneRun(s, run).stats.CountOf(reason) == s.CountOf(reason) + Failures()(reason, run) {
      OneRunBookedFor(s, run, reason);
    }
    OneRunBookedFor(s, run, Timeouts);
    BookedOne(s, OneRun(s, run).stats, Rates(), Failures(), run);
  }

  /** A phase stores exactly the rates of the runs whose wrk exited with 0 and whose log shows
      a working trace, in order, and counts exactly the failures that happened in its runs. */
  lemma {:induction false} RunsByOutcome(world: nat -> Run, i: nat, runs: int, s: TraceStats) returns (made: seq<Run>)
    requires s.reasons.Keys == REASONS
    ensures var p := Runs(world, i, runs, s);
      RunsMade(world, i, runs, made, p.completed) && Booked(s, p.stats, Rates(), Failures(), made)
    decreases runs - i
  {
    made := [];
    if i >= runs {
      BookedNothing(s, s, Rates(), Failures());
    } else {
      var next := OneRun(s, world(i)).stats;
      OneRunBooked(s, world(i));
      made := [world(i)];
      if GoesOn(world(i)) {
        var rest := RunsByOutcome(world, i + 1, runs, next);
        BookedThen(s, next, Runs(world, i, runs, s).stats, Rates(), Failures(), [world(i)], rest);
        made := [world(i)] + rest;
        assert made[1..] == rest;
      }
    }
  }
}
