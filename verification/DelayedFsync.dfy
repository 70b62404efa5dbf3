/**
 Delayed fsync: fdatasync is submitted and acknowledged at once, but first waits for
 the previous one.  Writes go straight to the file.  A crash may come between any
 two steps.
 */
module DelayedFsync {
  import opened IoUring

  /** Outside, in io_uring_wait_and_seen, or about to submit and return. */
  datatype Pc = Idle | Waiting(fd: int) | Issuing(fd: int)

  /** `flag` is successful_writeback_count; `fsyncs` are the fsyncs issued so far. */
  datatype State = State(ring: Ring, flag: int, pc: Pc, started: bool, fsyncs: seq<nat>)

  datatype Event =
    | StartConfig
    | AppWrite(fd: int, data: seq<int>)
    | CallFsync(fd: int)
    | Complete(i: nat)
    | Reap
    | Issue

  const INITIAL := State(EMPTY_RING, 0, Idle, false, [])

  /** The server calls initServerConfig at most once. */
  predicate Legal(s: State, e: Event) {
    match e
    case StartConfig => s.pc.Idle? && !s.started
    case AppWrite(_, _) => s.pc.Idle?
    case CallFsync(_) => s.pc.Idle?
    case Complete(i) => i in s.ring.inflight
    case Reap => s.pc.Waiting? && s.ring.ready > 0
    case Issue => s.pc.Issuing?
  }

  function Apply(s: State, e: Event): State
    requires Legal(s, e)
  {
    match e
    case StartConfig => s.(flag := -1, started := true)
    case AppWrite(fd, data) => s.(ring := s.ring.WriteThrough(Write(fd, data)))
    case CallFsync(fd) => s.(pc := if s.flag == 0 then Waiting(fd) else Issuing(fd))
    case Complete(i) => s.(ring := s.ring.Complete(i))
    case Reap => s.(ring := s.ring.Reap(), pc := Issuing(s.pc.fd))
    case Issue =>
      s.(flag := 0, pc := Idle, fsyncs := s.fsyncs + [|s.ring.ops|],
         ring := s.ring.Queue(Fsync(s.pc.fd)).Submit())
  }

  /** The steps taken since the start, the last one outermost. */
  datatype Trace = Start | Then(before: Trace, e: Event)

  predicate Run(t: Trace)
    decreases t, 0
  {
    match t
    case Start => true
    case Then(before, e) => Run(before) && Legal(After(before), e)
  }

  function After(t: Trace): State
    requires Run(t)
    decreases t, 1
  {
    match t
    case Start => INITIAL
    case Then(before, e) => Apply(After(before), e)
  }

  // ---------- The invariant ----------

  predicate IsWrite(s: State, w: nat) { w < |s.ring.ops| && s.ring.ops[w].Write? }

  /** Write `w` came before fsync `f` of its file. */
  predicate Before(s: State, w: nat, f: nat) {
    IsWrite(s, w) && w < f < |s.ring.ops| && s.ring.ops[f] == Fsync(s.ring.ops[w].fd)
  }

  /** The fsyncs so far, in order; only the last may be unfinished. */
  ghost predicate Issued(s: State) {
    && (forall f: nat :: f in s.fsyncs <==> f < |s.ring.ops| && s.ring.ops[f].Fsync?)
    && (forall i, j :: 0 <= i < j < |s.fsyncs| ==> s.fsyncs[i] < s.fsyncs[j])
    && (forall w: nat :: w in s.ring.file <==> IsWrite(s, w))
    && s.ring.queue == []
  }

  ghost predicate OneInFlight(s: State) {
    && (!s.started ==> s.flag == 0 && s.fsyncs == [] && !s.pc.Issuing?)
    && (s.started ==> s.flag == if s.fsyncs == [] then -1 else 0)
    && (if s.fsyncs == [] || s.pc.Issuing?
        then s.ring.NothingToWaitFor()
        else (s.ring.inflight.Keys == {Last(s)} && s.ring.ready == 0)
             || (s.ring.inflight == map[] && s.ring.ready == 1))
    && (s.started && s.pc.Waiting? ==> s.fsyncs != [])
  }

  function Last(s: State): nat
    requires s.fsyncs != []
  {
    s.fsyncs[|s.fsyncs| - 1]
  }

  ghost predicate Covered(s: State) {
    && (forall f: nat :: f in s.ring.inflight ==>
          forall w: nat :: w in s.ring.inflight[f] <==> Before(s, w, f))
    && (forall w: nat, f: nat :: Before(s, w, f) && f !in s.ring.inflight ==> w in s.ring.durable)
    && (forall w: nat :: w in s.ring.durable ==> IsWrite(s, w))
  }

  ghost predicate Inv(s: State) {
    Issued(s) && OneInFlight(s) && Covered(s)
  }

  lemma IssueStep(s: State)
    requires Inv(s) && s.pc.Issuing?
    ensures Inv(Apply(s, Issue))
  {
    var s', n := Apply(s, Issue), |s.ring.ops|;
    assert s'.ring.ops == s.ring.ops + [Fsync(s.pc.fd)];
    assert s'.fsyncs == s.fsyncs + [n];
    assert s'.ring.inflight.Keys == {n};
    assert forall w: nat, f: nat :: f != n ==> (Before(s', w, f) <==> Before(s, w, f));
    forall w: nat ensures w in s'.ring.inflight[n] <==> Before(s', w, n) {
    }
    assert forall w: nat :: IsWrite(s', w) <==> IsWrite(s, w);
    forall i | 0 <= i < |s.fsyncs| ensures s.fsyncs[i] < n {
      assert s.fsyncs[i] in s.fsyncs;
    }
    assert Issued(s');
  }

  lemma InvStep(s: State, e: Event)
    requires Inv(s) && Legal(s, e)
    ensures Inv(Apply(s, e))
  {
    var s' := Apply(s, e);
    match e
    case Issue => IssueStep(s);
    case AppWrite(_, _) =>
      assert forall w: nat, f: nat :: Before(s', w, f) <==> Before(s, w, f);
    case Complete(i) =>
      assert i == Last(s);
      assert forall w: nat, f: nat :: Before(s', w, f) <==> Before(s, w, f);
    case _ =>
      assert forall w: nat, f: nat :: Before(s', w, f) <==> Before(s, w, f);
  }

  lemma {:induction false} InvKept(t: Trace)
    requires Run(t)
    ensures Inv(After(t))
  {
    if t.Then? {
      InvKept(t.before);
      InvStep(After(t.before), t.e);
    }
  }

  // ---------- What holds of every run ----------

  /** At most one fsync is in flight, and after start_config no call waits for nothing. */
  lemma {:induction false} OneFsyncInFlight(t: Trace)
    requires Run(t)
    ensures var s := After(t);
      && |s.ring.inflight| <= 1
      && s.ring.ready + |s.ring.inflight| <= 1
      && (s.started && s.pc.Waiting? ==> !s.ring.NothingToWaitFor())
  {
    InvKept(t);
    var s := After(t);
    assert |s.ring.inflight| == |s.ring.inflight.Keys|;
  }

  /** Without start_config the first fdatasync waits for ever: no fsync is ever issued. */
  lemma WithoutStartNoFsyncReturns(t: Trace)
    requires Run(t) && !After(t).started
    ensures var s := After(t);
      s.fsyncs == [] && !s.pc.Issuing? && !Legal(s, Reap)
  {
    InvKept(t);
  }

  /** For any mix of writes and fsyncs: a write before the last fsync but one of its file
      has survived a crash at any later step. */
  lemma DurableBeforeLastButOne(t: Trace, w: nat, f: nat)
    requires Run(t) && Before(After(t), w, f)
    requires exists g: nat :: f < g && g in After(t).fsyncs
    ensures w in After(t).ring.durable
  {
    InvKept(t);
    var s := After(t);
    var g: nat :| f < g && g in s.fsyncs;
    assert f in s.fsyncs;
    var i :| 0 <= i < |s.fsyncs| && s.fsyncs[i] == g;
    assert f < g <= Last(s);
  }

  /** What the server has asked for, in order: its writes and its calls of fdatasync. */
  function Calls(t: Trace): seq<Req> {
    match t
    case Start => []
    case Then(before, e) =>
      match e
      case AppWrite(fd, data) => Calls(before) + [Write(fd, data)]
      case CallFsync(fd) => Calls(before) + [Fsync(fd)]
      case _ => Calls(before)
  }

  /** In every run the requests are the server's calls, in order and each on its own file;
      only an fdatasync that has not returned may still be missing, at the end. */
  lemma {:induction false} RequestsAreCalls(t: Trace)
    requires Run(t)
    ensures var s := After(t);
      match s.pc
      case Idle => s.ring.ops == Calls(t)
      case Waiting(fd) => s.ring.ops + [Fsync(fd)] == Calls(t)
      case Issuing(fd) => s.ring.ops + [Fsync(fd)] == Calls(t)
  {
    if t.Then? {
      RequestsAreCalls(t.before);
      InvKept(t.before);
    }
  }

  /** The updates written that a crash now would lose. */
  ghost function Lost(t: Trace): set<nat>
    requires Run(t)
  {
    set w: nat | w < |Calls(t)| && Calls(t)[w].Write? && w !in After(t).ring.durable
  }

  lemma RequestsBeginCalls(t: Trace)
    requires Run(t)
    ensures var s := After(t);
      && |s.ring.ops| <= |Calls(t)| <= |s.ring.ops| + 1
      && (forall i :: 0 <= i < |s.ring.ops| ==> s.ring.ops[i] == Calls(t)[i])
      && (|s.ring.ops| < |Calls(t)| ==> Calls(t)[|s.ring.ops|].Fsync?)
  {
    RequestsAreCalls(t);
    var ops := After(t).ring.ops;
    assert forall fd :: (ops + [Fsync(fd)])[|ops|] == Fsync(fd);
  }

  lemma OldUpdateIsDurable(t: Trace, w: nat)
    requires Run(t) && Alternating(Calls(t)) && IsWrite(After(t), w) && w + 3 < |After(t).ring.ops|
    ensures w in After(t).ring.durable
  {
    RequestsBeginCalls(t);
    InvKept(t);
    var s := After(t);
    var ops := s.ring.ops;
    assert Alternating(ops);
    OneFile(ops, w, w + 1);
    assert ops[w + 2].Write? && ops[w + 3].Fsync?;
    assert Before(s, w, w + 1) && w + 3 in s.fsyncs;
    DurableBeforeLastButOne(t, w, w + 1);
  }

  /** In every run in which the server's writes and calls of fdatasync on one file take turns,
      a crash at any step loses at most two updates, and they are the last ones written. */
  lemma {:induction false} LosesAtMostTwo(t: Trace)
    requires Run(t) && Alternating(Calls(t))
    ensures |Lost(t)| <= 2 && forall w :: w in Lost(t) ==> w + 3 >= |After(t).ring.ops|
  {
    RequestsBeginCalls(t);
    var ops := After(t).ring.ops;
    forall w | w in Lost(t) ensures w + 3 >= |ops| && w < |ops| {
      if w + 3 < |ops| {
        OldUpdateIsDurable(t, w);
      }
    }
    assert Alternating(ops);
    var from := if |ops| < 3 then 0 else |ops| - 3;
    if from < |ops| {
      HalfAreWrites(ops, from, |ops|);
      SubsetSize(Lost(t), WritesIn(ops, from, |ops|));
    } else {
      assert Lost(t) == {};
    }
  }

  /** After start_config, one update whose fsync is still in flight. */
  lemma UpdateInFlight(fd: int, data: seq<int>) returns (t: Trace)
    ensures Run(t) && After(t).pc.Idle? && After(t).ring.durable == {}
    ensures Calls(t) == [Write(fd, data), Fsync(fd)]
  {
    var t0 := Then(Trace.Start, StartConfig);
    assert Run(t0) && After(t0).pc.Idle? && After(t0).flag == -1;
    var t1 := Then(t0, AppWrite(fd, data));
    assert Run(t1) && After(t1).pc.Idle? && After(t1).flag == -1;
    var t2 := Then(t1, CallFsync(fd));
    assert Run(t2) && After(t2).pc == Issuing(fd);
    t := Then(t2, Issue);
    assert Run(t) && After(t).pc.Idle?;
    assert Calls(t1) == [Write(fd, data)];
  }

  /** Two can be lost, on any file: the first fsync is still in flight when the second
      update is written. */
  lemma TwoCanBeLost(fd: int, data: seq<int>) returns (t: Trace)
    ensures Run(t) && Calls(t) == [Write(fd, data), Fsync(fd), Write(fd, data)]
    ensures Alternating(Calls(t)) && |Lost(t)| == 2
  {
    var before := UpdateInFlight(fd, data);
    t := Then(before, AppWrite(fd, data));
    assert After(t).ring.durable == {};
    assert Lost(t) == {0, 2};
  }

  // ---------- The handlers ----------

  class DelayedHandlers {
    var ring: Ring
    var successfulWritebackCount: int
    // The steps taken so far, and the state they have led to.
    ghost var run: Trace
    ghost var state: State

    ghost predicate Reached()
      reads this
    {
      Run(run) && state == After(run)
    }

    ghost predicate Valid()
      reads this
    {
      Reached() && state.pc.Idle? && state.ring == ring && state.flag == successfulWritebackCount
    }

    constructor ()
      ensures Valid() && state == INITIAL
    {
      ring, successfulWritebackCount := EMPTY_RING, 0;
      run, state := Trace.Start, INITIAL;
    }

    /** Records one step of the run. */
    ghost method Step(e: Event)
      requires Reached() && Legal(state, e)
      modifies this`run, this`state
      ensures Reached() && state == Apply(old(state), e)
    {
      run := Then(run, e);
      state := Apply(state, e);
    }

    method StartConfig()
      requires Valid() && !state.started
      modifies this
      ensures Valid() && state == old(state).(started := true, flag := -1)
    {
      Step(Event.StartConfig);
      successfulWritebackCount := -1;
    }

    /** A write that the extension does not touch. */
    method AppWrite(fd: int, data: seq<int>)
      requires Valid()
      modifies this
      ensures Valid() && state.ring.ops == old(state).ring.ops + [Write(fd, data)]
      ensures state.fsyncs == old(state).fsyncs && state.started == old(state).started
    {
      Step(Event.AppWrite(fd, data));
      ring := ring.WriteThrough(Write(fd, data));
    }

    lemma QueueIsEmpty()
      requires Reached()
      ensures state.ring.queue == []
    {
      InvKept(run);
    }

    lemma SomethingToWaitFor()
      requires Reached() && state.started && state.pc.Waiting?
      ensures !state.ring.NothingToWaitFor()
    {
      OneFsyncInFlight(run);
    }

    /** io_uring_wait_and_seen: returns once the previous fsync has completed. */
    method WaitAndSeen()
      requires Reached() && state.ring == ring && state.started && state.pc.Waiting?
      modifies this`ring, this`run, this`state
      ensures Reached() && state == old(state).(ring := ring, pc := Issuing(old(state).pc.fd))
      ensures ring.ops == old(ring).ops
    {
      SomethingToWaitFor();
      if ring.ready == 0 {
        var k :| k in ring.inflight;
        Step(Complete(k));
        ring := ring.Complete(k);
      }
      Step(Reap);
      ring := ring.Reap();
    }

    /** After start_config every call returns, and has issued its fsync. */
    method StartFsync(fd: int) returns (ret: int)
      requires Valid() && state.started
      modifies this
      ensures Valid() && state.started && ret == 0
      ensures state.ring.ops == old(state).ring.ops + [Fsync(fd)]
      ensures state.fsyncs == old(state).fsyncs + [|old(state).ring.ops|]
    {
      Step(CallFsync(fd));
      if successfulWritebackCount == 0 {
        WaitAndSeen();
      }
      QueueIsEmpty();
      Step(Issue);
      successfulWritebackCount := 0;
      ring := ring.Queue(Fsync(fd));
      ring := ring.Submit();
      ret := 0;
    }
  }
}
