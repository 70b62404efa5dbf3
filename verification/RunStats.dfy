/**
 The books that both nginx drivers keep for each benchmark: counters of valid and
 failed runs, failures by reason, stored rates and trace summaries.
 */
module RunStats {
  import opened Options

  datatype Reason =
    | Timeouts | ParseFailures | WrkFailures | ReadinessFailures | AttachFailures | TraceFailures | Exceptions

  /** What the pattern for wrk's output can match. */
  type Rate = x: real | x >= 0.0

  /** One benchmark's part of run_stats, results and trace_observability; the keys of
      `reasons` are the reasons it declares. */
  datatype Stats<T> = Stats(valid: nat, failed: nat, reasons: map<Reason, nat>, retries: nat,
                            results: seq<real>, traces: seq<T>)
  {
    function CountOf(reason: Reason): nat { if reason in reasons then reasons[reason] else 0 }

    function Total(): nat {
      CountOf(Timeouts) + CountOf(ParseFailures) + CountOf(WrkFailures) + CountOf(ReadinessFailures) +
      CountOf(AttachFailures) + CountOf(TraceFailures) + CountOf(Exceptions)
    }

    function Failure(reason: Reason): Stats<T> {
      this.(failed := failed + 1,
            reasons := if reason in reasons then reasons[reason := reasons[reason] + 1] else reasons)
    }

    function Success(rate: Rate): Stats<T> {
      this.(valid := valid + 1, results := results + [rate])
    }

    function Record(v: Verdict): Stats<T> {
      match v case Good(rate) => Success(rate) case Bad(reason) => Failure(reason)
    }

    function Traced(trace: T): Stats<T> { this.(traces := traces + [trace]) }

    /** The counters agree with what is stored, and only positive rates are stored. */
    ghost predicate Balanced() {
      && valid == |results| && failed == Total()
      && forall i :: 0 <= i < |results| ==> results[i] > 0.0
    }
  }

  /** What one attempt comes to. */
  datatype Verdict = Good(rate: Rate) | Bad(reason: Reason)

  /** One call of wrk. */
  datatype Wrk = Exited(code: int, rate: Option<Rate>) | TimedOut | Raised

  function WrkVerdict(w: Wrk): Verdict {
    match w
    case Exited(code, rate) =>
      if code != 0 then Bad(WrkFailures)
      else if rate.Some? && rate.value != 0.0 then Good(rate.value)
      else Bad(ParseFailures)
    case TimedOut => Bad(Timeouts)
    case Raised => Bad(Exceptions)
  }

  /** A verdict that this benchmark can put on its books. */
  ghost predicate Countable(v: Verdict, declared: set<Reason>) {
    match v case Good(rate) => rate > 0.0 case Bad(reason) => reason in declared
  }

  /** A failure keeps the books balanced exactly when its reason is declared. */
  lemma {:induction false} FailureBalanced<T>(s: Stats<T>, reason: Reason)
    requires s.Balanced()
    ensures s.Failure(reason).Balanced() <==> reason in s.reasons
  {
    var t := s.Failure(reason);
    if reason in s.reasons {
      assert t.CountOf(reason) == s.CountOf(reason) + 1;
      assert forall other :: other != reason ==> t.CountOf(other) == s.CountOf(other);
    }
  }

  lemma RecordBalanced<T>(s: Stats<T>, v: Verdict)
    requires s.Balanced() && Countable(v, s.reasons.Keys)
    ensures s.Record(v).Balanced() && s.Record(v).reasons.Keys == s.reasons.Keys
  {
    if v.Bad? {
      FailureBalanced(s, v.reason);
    }
  }

  // ---------- Books and raw outcomes ----------

  /** The rates of all the given runs, in order. */
  function Gathered<A>(rates: A -> seq<real>, made: seq<A>): seq<real> {
    if made == [] then [] else rates(made[0]) + Gathered(rates, made[1..])
  }

  /** How many failures for this reason all the given runs have. */
  function TotalOf<A>(failures: (Reason, A) -> nat, reason: Reason, made: seq<A>): nat {
    if made == [] then 0 else failures(reason, made[0]) + TotalOf(failures, reason, made[1..])
  }

  /** From `s` to `t` exactly the rates and the failures of these runs were booked. */
  ghost predicate Booked<T, A>(s: Stats<T>, t: Stats<T>, rates: A -> seq<real>, failures: (Reason, A) -> nat,
                               made: seq<A>)
  {
    && t.results == s.results + Gathered(rates, made)
    && t.valid == s.valid + |Gathered(rates, made)|
    && t.reasons.Keys == s.reasons.Keys
    && forall reason :: BookedFor(reason, s, t, failures, made)
  }

  ghost predicate BookedFor<T, A>(reason: Reason, s: Stats<T>, t: Stats<T>, failures: (Reason, A) -> nat, made: seq<A>) {
    t.CountOf(reason) == s.CountOf(reason) + TotalOf(failures, reason, made)
  }

  lemma {:induction false} GatheredJoin<A>(rates: A -> seq<real>, a: seq<A>, b: seq<A>)
    ensures Gathered(rates, a + b) == Gathered(rates, a) + Gathered(rates, b)
  {
    if a == [] {
      assert a + b == b;
    } else {
      assert (a + b)[1..] == a[1..] + b;
      GatheredJoin(rates, a[1..], b);
    }
  }

  lemma {:induction false} TotalJoin<A>(failures: (Reason, A) -> nat, reason: Reason, a: seq<A>, b: seq<A>)
    ensures TotalOf(failures, reason, a + b) == TotalOf(failures, reason, a) + TotalOf(failures, reason, b)
  {
    if a == [] {
      assert a + b == b;
    } else {
      assert (a + b)[1..] == a[1..] + b;
      TotalJoin(failures, reason, a[1..], b);
    }
  }

  lemma BookedNothing<T, A>(s: Stats<T>, t: Stats<T>, rates: A -> seq<real>, failures: (Reason, A) -> nat)
    requires t.results == s.results && t.valid == s.valid && t.reasons == s.reasons
    ensures Booked(s, t, rates, failures, [])
  {
  }

  lemma JoinAssociative(a: seq<real>, b: seq<real>, c: seq<real>)
    ensures a + b + c == a + (b + c)
  {
  }

  lemma BookedThen<T, A>(s: Stats<T>, t: Stats<T>, u: Stats<T>, rates: A -> seq<real>, failures: (Reason, A) -> nat,
                         a: seq<A>, b: seq<A>)
    requires Booked(s, t, rates, failures, a) && Booked(t, u, rates, failures, b)
    ensures Booked(s, u, rates, failures, a + b)
  {
    GatheredJoin(rates, a, b);
    JoinAssociative(s.results, Gathered(rates, a), Gathered(rates, b));
    forall reason ensures BookedFor(reason, s, u, failures, a + b) {
      TotalJoin(failures, reason, a, b);
      assert BookedFor(reason, s, t, failures, a) && BookedFor(reason, t, u, failures, b);
    }
  }

  lemma BookedOne<T, A>(s: Stats<T>, t: Stats<T>, rates: A -> seq<real>, failures: (Reason, A) -> nat, a: A)
    requires t.results == s.results + rates(a) && t.valid == s.valid + |rates(a)| && t.reasons.Keys == s.reasons.Keys
    requires forall reason :: t.CountOf(reason) == s.CountOf(reason) + failures(reason, a)
    ensures Booked(s, t, rates, failures, [a])
  {
    assert [a][1..] == [];
    assert Gathered(rates, [a]) == rates(a) + [];
    forall reason ensures BookedFor(reason, s, t, failures, [a]) {
      assert TotalOf(failures, reason, [a]) == failures(reason, a) + TotalOf(failures, reason, []);
    }
  }

  class Book<T> {
    var valid: nat
    var failed: nat
    var reasons: map<Reason, nat>
    var retries: nat
    var results: seq<real>
    var traces: seq<T>

    ghost function State(): Stats<T>
      reads this
    {
      Stats(valid, failed, reasons, retries, results, traces)
    }

    constructor (declared: set<Reason>)
      ensures State().Balanced() && reasons.Keys == declared
      ensures valid == failed == retries == 0 && traces == []
    {
      valid, failed, retries, results, traces := 0, 0, 0, [], [];
      reasons := map reason | reason in declared :: 0;
    }

    /** results[...].append(rate), then mark_valid. */
    method MarkValid(rate: Rate)
      modifies this
      ensures State() == old(State()).Success(rate)
    {
      results := results + [rate];
      valid := valid + 1;
    }

    method MarkFailed(reason: Reason)
      modifies this
      ensures State() == old(State()).Failure(reason)
    {
      failed := failed + 1;
      if reason in reasons {
        reasons := reasons[reason := reasons[reason] + 1];
      }
    }

    method AddTrace(trace: T)
      modifies this
      ensures State() == old(State()).Traced(trace)
    {
      traces := traces + [trace];
    }

    method CountRetry()
      modifies this
      ensures State() == old(State()).(retries := old(retries) + 1)
    {
      retries := retries + 1;
    }
  }
}
