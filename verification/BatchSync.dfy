/**
 Batched durability: write and fdatasync are queued on the ring and acknowledged
 at once; when a batch is full it is submitted and all its completions awaited.
 A crash may come between any two steps, so a run is a sequence of single steps.
 */
module BatchSync {
  import opened Arithmetic
  import opened IoUring

  /** Where the handler is: outside, about to submit, in the wait loop with `i` completions
      consumed, or about to return. */
  datatype Pc = Idle | MustSubmit | Reaping(i: nat) | Returning

  /** `calls` are the intercepted calls so far, the first `acked` of them acknowledged and
      the first `flushed` in completed batches; `batchStart[c]` is the first call of the
      batch of call `c`. */
  datatype State = State(
    ring: Ring, count: int, pc: Pc,
    calls: seq<Req>, acked: nat, flushed: nat, batchStart: seq<nat>)

  datatype Event = Call(req: Req) | Submit | Complete(i: nat) | Reap | Finish | Return

  const INITIAL := State(EMPTY_RING, 0, Idle, [], 0, 0, [])

  predicate Legal(s: State, e: Event) {
    match e
    case Call(_) => s.pc.Idle?
    case Submit => s.pc.MustSubmit?
    case Complete(i) => i in s.ring.inflight
    case Reap => s.pc.Reaping? && s.pc.i < s.count && s.ring.ready > 0
    case Finish => s.pc.Reaping? && s.pc.i >= s.count
    case Return => s.pc.Returning?
  }

  function Apply(patchSize: int, s: State, e: Event): State
    requires Legal(s, e)
  {
    match e
    case Call(req) =>
      s.(ring := s.ring.Queue(req), count := s.count + 1,
         pc := if s.count < patchSize then Returning else MustSubmit,
         calls := s.calls + [req], batchStart := s.batchStart + [s.flushed])
    case Submit => s.(ring := s.ring.Submit(), pc := Reaping(0))
    case Complete(i) => s.(ring := s.ring.Complete(i))
    case Reap => s.(ring := s.ring.Reap(), pc := Reaping(s.pc.i + 1))
    case Finish => s.(count := 0, pc := Returning, flushed := |s.calls|)
    case Return => s.(pc := Idle, acked := |s.calls|)
  }

  /** The steps taken since the start, the last one outermost. */
  datatype Trace = Start | Then(before: Trace, e: Event)

  predicate Run(patchSize: int, t: Trace)
    decreases t, 0
  {
    match t
    case Start => true
    case Then(before, e) => Run(patchSize, before) && Legal(After(patchSize, before), e)
  }

  function After(patchSize: int, t: Trace): State
    requires Run(patchSize, t)
    decreases t, 1
  {
    match t
    case Start => INITIAL
    case Then(before, e) => Apply(patchSize, After(patchSize, before), e)
  }

  // ---------- The invariant ----------

  function BatchSize(patchSize: int): nat { if patchSize < 0 then 1 else patchSize + 1 }

  /** The kernel has finished request `i`. */
  predicate Completed(s: State, i: nat) {
    i < s.flushed || (s.pc.Reaping? && i < |s.calls| && i !in s.ring.inflight)
  }

  predicate IsWrite(s: State, w: nat) { w < |s.calls| && s.calls[w].Write? }

  /** `f` is a completed fsync of a later batch, on the file of write `w`. */
  predicate SyncedBy(s: State, w: nat, f: nat) {
    && IsWrite(s, w) && f < |s.calls| && s.calls[f] == Fsync(s.calls[w].fd)
    && w < |s.batchStart| && f < |s.batchStart| && s.batchStart[w] < s.batchStart[f]
    && Completed(s, f)
  }

  ghost predicate Multiple(a: nat, n: nat) { exists k: nat :: a == Times(k, n) }

  /** Requests are conserved: what is flushed and what is pending is the call history. */
  ghost predicate Counts(patchSize: int, s: State) {
    var n := BatchSize(patchSize);
    var pending := |s.calls| - s.flushed;
    && s.ring.ops == s.calls
    && s.acked == (if s.pc.Idle? then |s.calls| else |s.calls| - 1)
    && Multiple(s.flushed, n)
    && match s.pc
       case Idle => s.count == pending && 0 <= pending < n && s.ring.NothingToWaitFor()
       case Returning => s.count == pending && 0 <= pending < n && s.ring.NothingToWaitFor()
       case MustSubmit => s.count == pending == n && s.ring.NothingToWaitFor()
       case Reaping(i) => s.count == pending == n && i + s.ring.ready + |s.ring.inflight| == n
  }

  /** An fsync in flight will cover the writes to its file of all earlier batches. */
  ghost predicate Covers(s: State, i: nat) {
    && s.flushed <= i < |s.calls|
    && i in s.ring.inflight
    && forall w: nat :: w in s.ring.inflight[i] <==>
         s.calls[i].Fsync? && w < s.flushed && IsWrite(s, w) && s.calls[w].fd == s.calls[i].fd
  }

  ghost predicate Queues(s: State) {
    && s.flushed <= |s.calls|
    && (if s.pc.Reaping? then s.ring.queue == []
        else |s.ring.queue| == |s.calls| - s.flushed && Consecutive(s.ring.queue, s.flushed))
    && forall i: nat :: i in s.ring.inflight ==> Covers(s, i)
  }

  ghost predicate Batches(patchSize: int, s: State) {
    var n := BatchSize(patchSize);
    && |s.batchStart| == |s.calls|
    && (forall i :: 0 <= i < |s.calls| ==> s.batchStart[i] <= i < s.batchStart[i] + n)
    && (forall i :: 0 <= i < |s.calls| ==>
          if i < s.flushed then s.batchStart[i] + n <= s.flushed else s.batchStart[i] == s.flushed)
    && (forall i, j :: 0 <= i < j < |s.calls| ==>
          s.batchStart[i] == s.batchStart[j] || s.batchStart[i] + n <= s.batchStart[j])
  }

  predicate InOrder(file: seq<nat>, batchStart: seq<nat>, i: nat, j: nat)
    requires i < |file| && j < |file|
  {
    var a, b := file[i], file[j];
    a < |batchStart| && b < |batchStart| && a != b && batchStart[a] <= batchStart[b]
  }

  /** No write twice, and none before a write of an earlier batch. */
  ghost predicate Ordered(file: seq<nat>, batchStart: seq<nat>) {
    forall i: nat, j: nat :: i < j < |file| ==> InOrder(file, batchStart, i, j)
  }

  /** The file holds the completed writes, batch by batch. */
  ghost predicate FileInOrder(s: State) {
    && (forall w: nat :: w in s.ring.file <==> IsWrite(s, w) && Completed(s, w))
    && Ordered(s.ring.file, s.batchStart)
  }

  ghost predicate Synced(s: State, w: nat) {
    exists f: nat :: SyncedBy(s, w, f)
  }

  /** A write is durable exactly if a completed fsync of a later batch covers it. */
  ghost predicate DurableExactly(s: State) {
    forall w: nat :: w in s.ring.durable <==> Synced(s, w)
  }

  ghost predicate Inv(patchSize: int, s: State) {
    && Counts(patchSize, s)
    && Queues(s)
    && Batches(patchSize, s)
    && FileInOrder(s)
    && DurableExactly(s)
  }

  // ---------- Every step keeps it ----------

  /** Where the same requests are completed, the same writes are synced. */
  lemma SameSynced(s: State, s': State)
    requires s.calls <= s'.calls && s.batchStart <= s'.batchStart && |s.batchStart| == |s.calls|
    requires forall i: nat :: Completed(s', i) <==> Completed(s, i)
    requires forall i: nat :: Completed(s, i) ==> i < |s.calls|
    requires forall w :: |s.batchStart| <= w < |s'.batchStart| ==>
      forall f :: 0 <= f < |s.batchStart| ==> s'.batchStart[f] <= s'.batchStart[w]
    ensures forall w: nat :: Synced(s', w) <==> Synced(s, w)
  {
    forall w: nat ensures Synced(s', w) <==> Synced(s, w) {
      if Synced(s, w) {
        var f: nat :| SyncedBy(s, w, f);
        assert SyncedBy(s', w, f);
      }
      if Synced(s', w) {
        var f: nat :| SyncedBy(s', w, f);
        assert SyncedBy(s, w, f);
      }
    }
  }

  lemma OrderedStays(file: seq<nat>, batchStart: seq<nat>, more: nat)
    requires Ordered(file, batchStart)
    ensures Ordered(file, batchStart + [more])
  {
    forall i: nat, j: nat | i < j < |file| ensures InOrder(file, batchStart + [more], i, j) {
      assert InOrder(file, batchStart, i, j);
    }
  }

  lemma CallFile(patchSize: int, s: State, e: Event)
    requires patchSize < RING_ENTRIES && Inv(patchSize, s) && Legal(s, e) && e.Call?
    ensures FileInOrder(Apply(patchSize, s, e)) && DurableExactly(Apply(patchSize, s, e))
  {
    var s' := Apply(patchSize, s, e);
    OrderedStays(s.ring.file, s.batchStart, s.flushed);
    assert forall i: nat :: Completed(s', i) <==> Completed(s, i);
    SameSynced(s, s');
  }

  lemma CallStep(patchSize: int, s: State, e: Event)
    requires patchSize < RING_ENTRIES && Inv(patchSize, s) && Legal(s, e) && e.Call?
    ensures Inv(patchSize, Apply(patchSize, s, e))
  {
    var s' := Apply(patchSize, s, e);
    CallFile(patchSize, s, e);
    assert Counts(patchSize, s') && Queues(s');
    assert Batches(patchSize, s');
  }

  /** Submission puts exactly the pending calls in flight. */
  lemma {:induction false} SubmitEntries(patchSize: int, s: State)
    requires Inv(patchSize, s) && s.pc.MustSubmit?
    ensures var r := s.ring.Submit();
      && |r.inflight| == BatchSize(patchSize)
      && (forall i: nat :: i in r.inflight <==> s.flushed <= i < |s.calls|)
      && (forall i: nat :: i in r.inflight ==> r.inflight[i] == s.ring.Snapshot(i))
  {
    var q := s.ring.queue;
    var inflight := map i | i in q :: s.ring.Snapshot(i);
    ConsecutiveSize(q, s.flushed);
    assert inflight.Keys == set i: nat | i in q;
    assert |inflight| == |inflight.Keys|;
    assert s.ring.Submit().inflight == inflight;
    forall i: nat ensures i in inflight <==> s.flushed <= i < |s.calls| {
      if s.flushed <= i < |s.calls| {
        assert q[i - s.flushed] == i;
      }
    }
  }

  lemma SubmitCovers(patchSize: int, s: State, i: nat)
    requires Inv(patchSize, s) && s.pc.MustSubmit? && i in s.ring.Submit().inflight
    ensures Covers(s.(ring := s.ring.Submit(), pc := Reaping(0)), i)
  {
    SubmitEntries(patchSize, s);
    forall w: nat
      ensures w in s.ring.Snapshot(i) <==>
        s.calls[i].Fsync? && w < s.flushed && IsWrite(s, w) && s.calls[w].fd == s.calls[i].fd
    {
      assert w in s.ring.file <==> IsWrite(s, w) && Completed(s, w);
    }
  }

  lemma SubmitStep(patchSize: int, s: State, e: Event)
    requires patchSize < RING_ENTRIES && Inv(patchSize, s) && Legal(s, e) && e.Submit?
    ensures Inv(patchSize, Apply(patchSize, s, e))
  {
    var s' := Apply(patchSize, s, e);
    SubmitEntries(patchSize, s);
    assert forall i: nat :: Completed(s', i) <==> Completed(s, i);
    SameSynced(s, s');
    forall i: nat | i in s'.ring.inflight ensures Covers(s', i) {
      SubmitCovers(patchSize, s, i);
    }
    assert Counts(patchSize, s') && Queues(s') && Batches(patchSize, s');
    assert FileInOrder(s');
    assert DurableExactly(s');
  }

  lemma CompleteDurable(patchSize: int, s: State, e: Event)
    requires Inv(patchSize, s) && Legal(s, e) && e.Complete?
    ensures DurableExactly(Apply(patchSize, s, e))
  {
    var s' := Apply(patchSize, s, e);
    assert s.pc.Reaping? && Covers(s, e.i);
    forall w: nat ensures w in s'.ring.durable <==> Synced(s', w) {
      if w in s.ring.inflight[e.i] {
        assert SyncedBy(s', w, e.i);
      }
      if Synced(s, w) {
        var f: nat :| SyncedBy(s, w, f);
        assert SyncedBy(s', w, f);
      }
      if Synced(s', w) {
        var f: nat :| SyncedBy(s', w, f);
        if f != e.i {
          assert SyncedBy(s, w, f);
        }
      }
    }
  }

  lemma CompleteFile(patchSize: int, s: State, e: Event)
    requires Inv(patchSize, s) && Legal(s, e) && e.Complete?
    ensures FileInOrder(Apply(patchSize, s, e))
  {
    var s' := Apply(patchSize, s, e);
    assert s.pc.Reaping? && Covers(s, e.i);
    forall w: nat ensures w in s'.ring.file <==> IsWrite(s', w) && Completed(s', w) {
      assert Completed(s', w) <==> Completed(s, w) || w == e.i;
    }
    forall i: nat, j: nat | i < j < |s'.ring.file| ensures InOrder(s'.ring.file, s.batchStart, i, j) {
      if j < |s.ring.file| {
        assert InOrder(s.ring.file, s.batchStart, i, j);
      } else {
        assert s.ring.file[i] in s.ring.file;
      }
    }
  }

  lemma CompleteStep(patchSize: int, s: State, e: Event)
    requires patchSize < RING_ENTRIES && Inv(patchSize, s) && Legal(s, e) && e.Complete?
    ensures Inv(patchSize, Apply(patchSize, s, e))
  {
    var s' := Apply(patchSize, s, e);
    assert s.pc.Reaping?;
    CompleteDurable(patchSize, s, e);
    CompleteFile(patchSize, s, e);
    forall i: nat | i in s'.ring.inflight ensures Covers(s', i) {
      assert Covers(s, i);
    }
    RemoveOne(s.ring.inflight, e.i);
  }

  lemma RemoveOne<V>(m: map<nat, V>, i: nat)
    requires i in m
    ensures |m - {i}| == |m| - 1
  {
    assert (m - {i}).Keys == m.Keys - {i};
    assert |m| == |m.Keys| && |m - {i}| == |(m - {i}).Keys|;
  }

  lemma ReapStep(patchSize: int, s: State, e: Event)
    requires patchSize < RING_ENTRIES && Inv(patchSize, s) && Legal(s, e) && e.Reap?
    ensures Inv(patchSize, Apply(patchSize, s, e))
  {
    var s' := Apply(patchSize, s, e);
    SameSynced(s, s');
  }

  lemma NextMultiple(a: nat, n: nat)
    requires Multiple(a, n)
    ensures Multiple(a + n, n)
  {
    var k: nat :| a == Times(k, n);
    assert a + n == Times(k + 1, n);
  }

  lemma FinishStep(patchSize: int, s: State, e: Event)
    requires patchSize < RING_ENTRIES && Inv(patchSize, s) && Legal(s, e) && e.Finish?
    ensures Inv(patchSize, Apply(patchSize, s, e))
  {
    var s' := Apply(patchSize, s, e);
    assert |s.calls| == s.flushed + BatchSize(patchSize);
    NextMultiple(s.flushed, BatchSize(patchSize));
    assert s.ring.inflight == map[];
    SameSynced(s, s');
    assert DurableExactly(s');
    assert FileInOrder(s');
    assert Batches(patchSize, s');
    assert Queues(s');
  }

  lemma ReturnStep(patchSize: int, s: State, e: Event)
    requires patchSize < RING_ENTRIES && Inv(patchSize, s) && Legal(s, e) && e.Return?
    ensures Inv(patchSize, Apply(patchSize, s, e))
  {
    var s' := Apply(patchSize, s, e);
    SameSynced(s, s');
  }

  lemma InvStep(patchSize: int, s: State, e: Event)
    requires patchSize < RING_ENTRIES && Inv(patchSize, s) && Legal(s, e)
    ensures Inv(patchSize, Apply(patchSize, s, e))
  {
    match e
    case Call(_) => CallStep(patchSize, s, e);
    case Submit => SubmitStep(patchSize, s, e);
    case Complete(_) => CompleteStep(patchSize, s, e);
    case Reap => ReapStep(patchSize, s, e);
    case Finish => FinishStep(patchSize, s, e);
    case Return => ReturnStep(patchSize, s, e);
  }

  /** In every run, at every step: requests are conserved and in order, the ring never
      overflows, the file keeps the order of the batches, and exactly the writes
      followed by a completed fsync of a later batch are durable. */
  lemma {:induction false} InvKept(patchSize: int, t: Trace)
    requires patchSize < RING_ENTRIES && Run(patchSize, t)
    ensures Inv(patchSize, After(patchSize, t))
  {
    match t
    case Start => assert 0 == Times(0, BatchSize(patchSize));
    case Then(before, e) =>
      InvKept(patchSize, before);
      InvStep(patchSize, After(patchSize, before), e);
  }

  // ---------- What a crash can lose ----------

  /** Acknowledged writes that are not guaranteed durable. */
  function Lost(s: State): set<nat>
    requires s.acked <= |s.calls|
  {
    set w | w in WritesIn(s.calls, 0, s.acked) && w !in s.ring.durable
  }

  lemma OldWritesAreDurable(patchSize: int, s: State, w: nat)
    requires Inv(patchSize, s) && Alternating(s.calls) && IsWrite(s, w)
    requires w + BatchSize(patchSize) < s.flushed
    ensures w in s.ring.durable
  {
    var n, last := BatchSize(patchSize), s.flushed - 1;
    var f := if s.calls[last].Fsync? then last else last - 1;
    assert s.batchStart[last] + n == s.flushed;
    OneFile(s.calls, w, f);
    assert SyncedBy(s, w, f);
  }

  /** A crash at any step of any run of alternating writes and fsyncs, whatever the order
      of the completions, loses at most patch_size + 1 acknowledged writes. */
  lemma LossBound(patchSize: int, t: Trace)
    requires patchSize < RING_ENTRIES && Run(patchSize, t)
    requires Alternating(After(patchSize, t).calls)
    ensures var s := After(patchSize, t);
      s.acked <= |s.calls| && |Lost(s)| <= BatchSize(patchSize)
  {
    InvKept(patchSize, t);
    var s, n := After(patchSize, t), BatchSize(patchSize);
    var from := if s.flushed < n then 0 else s.flushed - n;
    assert s.acked < s.flushed + n;
    if from < s.acked {
      forall w | w in Lost(s) ensures w in WritesIn(s.calls, from, s.acked) {
        if w < from {
          OldWritesAreDurable(patchSize, s, w);
        }
      }
      HalfAreWrites(s.calls, from, s.acked);
      SubsetSize(Lost(s), WritesIn(s.calls, from, s.acked));
    } else {
      forall w | w in Lost(s) ensures false {
        OldWritesAreDurable(patchSize, s, w);
      }
      assert Lost(s) == {};
    }
  }

  /** The bound is met: with one batch written and the next one call short of full, every
      write so far is at stake. */
  lemma LossBoundIsTight(patchSize: int, t: Trace)
    requires patchSize < RING_ENTRIES && Run(patchSize, t)
    requires var s := After(patchSize, t);
      && s.pc.Idle? && Alternating(s.calls)
      && s.flushed == BatchSize(patchSize) && |s.calls| == 2 * BatchSize(patchSize) - 1
      && s.calls[0].Write?
    ensures var s := After(patchSize, t);
      s.acked <= |s.calls| && |Lost(s)| == BatchSize(patchSize)
  {
    InvKept(patchSize, t);
    var s := After(patchSize, t);
    forall w | w in WritesIn(s.calls, 0, s.acked) ensures w !in s.ring.durable {
      assert !Synced(s, w);
    }
    assert Lost(s) == WritesIn(s.calls, 0, |s.calls|);
    HalfAreWrites(s.calls, 0, |s.calls|);
  }

  /** Whatever is in flight, the wait loop can be run to its end. */
  lemma {:induction false} Drain(patchSize: int, t: Trace) returns (t': Trace)
    requires patchSize < RING_ENTRIES && Run(patchSize, t) && After(patchSize, t).pc.Reaping?
    ensures Run(patchSize, t')
    ensures var s, s' := After(patchSize, t), After(patchSize, t');
      s'.pc.Returning? && s'.calls == s.calls && s'.flushed == |s.calls|
    decreases After(patchSize, t).count - After(patchSize, t).pc.i, After(patchSize, t).ring.inflight.Keys
  {
    InvKept(patchSize, t);
    var s := After(patchSize, t);
    if s.pc.i >= s.count {
      t' := Then(t, Finish);
    } else if s.ring.ready > 0 {
      t' := Drain(patchSize, Then(t, Reap));
    } else {
      assert s.ring.inflight != map[];
      var k :| k in s.ring.inflight;
      t' := Drain(patchSize, Then(t, Complete(k)));
    }
  }

  /** A call can be run from its start to its return. */
  lemma OneCall(patchSize: int, t: Trace, req: Req) returns (t': Trace)
    requires patchSize < RING_ENTRIES && Run(patchSize, t) && After(patchSize, t).pc.Idle?
    ensures Run(patchSize, t')
    ensures var s, s' := After(patchSize, t), After(patchSize, t');
      && s'.pc.Idle? && s'.calls == s.calls + [req]
      && s'.flushed == if |s'.calls| - s.flushed < BatchSize(patchSize) then s.flushed else |s'.calls|
  {
    InvKept(patchSize, t);
    var called := Then(t, Call(req));
    if After(patchSize, t).count < patchSize {
      t' := Then(called, Return);
    } else {
      var drained := Drain(patchSize, Then(called, Submit));
      t' := Then(drained, Return);
    }
  }

  function NthCall(i: nat): Req { if i % 2 == 0 then Write(0, []) else Fsync(0) }

  lemma NthCallsAlternate(calls: seq<Req>)
    requires forall i :: 0 <= i < |calls| ==> calls[i] == NthCall(i)
    ensures Alternating(calls) && (calls != [] ==> calls[0].Write?)
  {
  }

  lemma {:induction false} AlternatingRun(patchSize: int, n: nat) returns (t: Trace)
    requires patchSize < RING_ENTRIES && n <= 2 * BatchSize(patchSize) - 1
    ensures Run(patchSize, t)
    ensures var s := After(patchSize, t);
      && s.pc.Idle? && |s.calls| == n && (forall i :: 0 <= i < n ==> s.calls[i] == NthCall(i))
      && s.flushed == if n < BatchSize(patchSize) then 0 else BatchSize(patchSize)
  {
    if n == 0 {
      t := Trace.Start;
    } else {
      var before := AlternatingRun(patchSize, n - 1);
      t := OneCall(patchSize, before, NthCall(n - 1));
    }
  }

  /** The bound is reached for every patch_size: some run of alternating calls loses so many. */
  lemma BoundReached(patchSize: int) returns (t: Trace)
    requires patchSize < RING_ENTRIES
    ensures Run(patchSize, t) && Alternating(After(patchSize, t).calls)
    ensures var s := After(patchSize, t); s.acked <= |s.calls| && |Lost(s)| == BatchSize(patchSize)
  {
    t := AlternatingRun(patchSize, 2 * BatchSize(patchSize) - 1);
    NthCallsAlternate(After(patchSize, t).calls);
    LossBoundIsTight(patchSize, t);
  }

  // ---------- The ring ----------

  /** With patch_size up to 1023 no request is refused by the ring, and the handler never
      waits when nothing is queued behind the wait. */
  lemma NeverStuck(patchSize: int, t: Trace)
    requires patchSize < RING_ENTRIES && Run(patchSize, t)
    ensures var s := After(patchSize, t);
      && s.ring.ops == s.calls && |s.ring.queue| <= RING_ENTRIES
      && (s.pc.Idle? ==> |s.ring.queue| < RING_ENTRIES)
      && (s.pc.Reaping? && s.pc.i < s.count ==> !s.ring.NothingToWaitFor())
  {
    InvKept(patchSize, t);
  }

  ghost predicate OverfullInv(patchSize: int, s: State) {
    && s.flushed == 0
    && s.count == |s.calls|
    && |s.ring.ops| == (if s.count < RING_ENTRIES then s.count else RING_ENTRIES)
    && match s.pc
       case Reaping(i) => s.count == patchSize + 1 && s.ring.queue == []
                          && i + s.ring.ready + |s.ring.inflight| == RING_ENTRIES
       case MustSubmit => s.count == patchSize + 1 && QueueIsAll(s)
       case _ => s.count <= patchSize && QueueIsAll(s)
  }

  ghost predicate QueueIsAll(s: State) {
    |s.ring.queue| == |s.ring.ops| && Consecutive(s.ring.queue, 0) && s.ring.NothingToWaitFor()
  }

  lemma OverfullSubmit(patchSize: int, s: State)
    requires patchSize >= RING_ENTRIES && OverfullInv(patchSize, s) && s.pc.MustSubmit?
    ensures OverfullInv(patchSize, Apply(patchSize, s, Submit))
  {
    var q := s.ring.queue;
    var inflight := map i | i in q :: s.ring.Snapshot(i);
    ConsecutiveSize(q, 0);
    assert inflight.Keys == set i: nat | i in q;
    assert |inflight| == |inflight.Keys|;
    assert s.ring.Submit().inflight == inflight;
  }

  lemma OverfullCall(patchSize: int, s: State, req: Req)
    requires patchSize >= RING_ENTRIES && OverfullInv(patchSize, s) && s.pc.Idle?
    ensures OverfullInv(patchSize, Apply(patchSize, s, Call(req)))
  {
  }

  lemma OverfullStep(patchSize: int, s: State, e: Event)
    requires patchSize >= RING_ENTRIES && OverfullInv(patchSize, s) && Legal(s, e)
    ensures OverfullInv(patchSize, Apply(patchSize, s, e))
  {
    match e
    case Call(req) => OverfullCall(patchSize, s, req);
    case Submit => OverfullSubmit(patchSize, s);
    case Complete(i) => RemoveOne(s.ring.inflight, i);
    case _ =>
  }

  /** From patch_size 1024 on the ring refuses requests that the handler has counted and
      acknowledged, and the handler then waits for more completions than there are
      requests: in no run does a flush ever end. */
  lemma {:induction false} OverfullFlushNeverEnds(patchSize: int, t: Trace)
    requires patchSize >= RING_ENTRIES && Run(patchSize, t)
    ensures var s := After(patchSize, t);
      && OverfullInv(patchSize, s)
      && !Legal(s, Finish)
      && (|s.calls| > RING_ENTRIES ==> |s.ring.ops| < |s.calls|)
  {
    if t.Then? {
      OverfullFlushNeverEnds(patchSize, t.before);
      OverfullStep(patchSize, After(patchSize, t.before), t.e);
    }
  }

  // ---------- The handlers ----------

  /** What a handler does to the call: return `ret` at once, or let it go on. */
  datatype Reply = Continue | Override(ret: int)

  class BatchHandlers {
    const patchSize: int
    var currentCount: int
    var ring: Ring
    // The steps taken so far, and the state they have led to.
    ghost var run: Trace
    ghost var state: State

    ghost predicate Reached()
      reads this
    {
      Run(patchSize, run) && state == After(patchSize, run)
    }

    ghost predicate Valid()
      reads this
    {
      Reached() && state.pc.Idle? && state.ring == ring && state.count == currentCount
    }

    /** The next call returns: the ring can take a whole batch, or the batch is not full yet. */
    predicate CallReturns()
      reads this`currentCount
    {
      patchSize < RING_ENTRIES || currentCount < patchSize
    }

    constructor (patchSize: int)
      ensures Valid() && state == INITIAL && this.patchSize == patchSize
    {
      this.patchSize := patchSize;
      currentCount, ring := 0, EMPTY_RING;
      run, state := Trace.Start, INITIAL;
    }

    /** Records one step of the run. */
    ghost method Step(e: Event)
      requires Reached() && Legal(state, e)
      modifies this`run, this`state
      ensures Reached() && state == Apply(patchSize, old(state), e) && run == Then(old(run), e)
    {
      run := Then(run, e);
      state := Apply(patchSize, state, e);
    }

    /** The kernel completes one request, whichever it likes. */
    method KernelCompletesOne()
      requires Reached() && state.ring == ring && ring.inflight != map[]
      modifies this`ring, this`run, this`state
      ensures Reached() && state == old(state).(ring := ring)
      ensures ring.ready > 0 && |ring.inflight| < |old(ring).inflight|
    {
      var k :| k in ring.inflight;
      RemoveOne(ring.inflight, k);
      Step(Complete(k));
      ring := ring.Complete(k);
    }

    /** The kernel completes any number of requests in any order, but at least one if no
        completion is ready. */
    method AwaitCompletion()
      requires Reached() && state.ring == ring && !ring.NothingToWaitFor()
      modifies this`ring, this`run, this`state
      ensures Reached() && state == old(state).(ring := ring) && ring.ready > 0
    {
      if ring.ready == 0 {
        KernelCompletesOne();
      }
      while *
        invariant Reached() && state == old(state).(ring := ring) && ring.ready > 0
        decreases |ring.inflight|
      {
        if ring.inflight == map[] {
          break;
        }
        KernelCompletesOne();
      }
    }

    /** io_uring_wait_and_seen: waits until a completion is ready, and consumes it. */
    method WaitAndSeen()
      requires patchSize < RING_ENTRIES && Reached() && state.ring == ring
      requires state.pc.Reaping? && state.pc.i < state.count
      modifies this`ring, this`run, this`state
      ensures Reached()
      ensures state == old(state).(ring := ring, pc := Reaping(old(state).pc.i + 1))
    {
      NotStuck();
      AwaitCompletion();
      Step(Reap);
      ring := ring.Reap();
    }

    lemma NotStuck()
      requires patchSize < RING_ENTRIES && Reached() && state.pc.Reaping? && state.pc.i < state.count
      ensures !state.ring.NothingToWaitFor()
    {
      NeverStuck(patchSize, run);
    }

    lemma CountIsPositive()
      requires patchSize < RING_ENTRIES && Reached()
      ensures state.count >= 0
    {
      InvKept(patchSize, run);
    }

    /** The common part of the two handlers: every execution is a run of single steps,
        it ends, and it has added one call. */
    method Intercept(req: Req)
      requires Valid() && CallReturns()
      modifies this
      ensures Valid() && state.calls == old(state).calls + [req]
    {
      if patchSize < RING_ENTRIES {
        CountIsPositive();
      }
      Step(Call(req));
      if currentCount < patchSize {
        ring := ring.Queue(req);
        currentCount := currentCount + 1;
      } else {
        ring := ring.Queue(req);
        currentCount := currentCount + 1;
        Step(Submit);
        ring := ring.Submit();
        var i := 0;
        while i < currentCount
          invariant Reached()
          invariant 0 <= i <= currentCount
          invariant state.pc == Reaping(i) && state.ring == ring && state.count == currentCount
          invariant state.calls == old(state).calls + [req]
        {
          WaitAndSeen();
          i := i + 1;
        }
        Step(Finish);
        currentCount := 0;
      }
      Step(Return);
    }

    method Write(fd: int, buf: seq<int>) returns (reply: Reply)
      requires Valid() && CallReturns()
      modifies this
      ensures Valid() && state.calls == old(state).calls + [Req.Write(fd, buf)]
      ensures reply == Override(|buf|)
    {
      Intercept(Req.Write(fd, buf));
      return Override(|buf|);
    }

    method FdataSync(fd: int) returns (reply: Reply)
      requires Valid() && CallReturns()
      modifies this
      ensures Valid() && state.calls == old(state).calls + [Fsync(fd)]
      ensures reply == Override(0)
    {
      Intercept(Fsync(fd));
      return Override(0);
    }

    /** The minimal variant: only writes of five bytes are intercepted. */
    method WriteOfFive(fd: int, buf: seq<int>) returns (reply: Reply)
      requires Valid() && (|buf| == 5 ==> CallReturns())
      modifies this
      ensures Valid()
      ensures |buf| == 5 ==> reply == Override(5) && state.calls == old(state).calls + [Req.Write(fd, buf)]
      ensures |buf| != 5 ==> reply == Continue && ring == old(ring) && state == old(state)
    {
      if |buf| == 5 {
        Intercept(Req.Write(fd, buf));
        return Override(5);
      }
      return Continue;
    }
  }
}
